/**
 * The name tests of the batch mode: whether a pattern holds a wildcard
 * (has_wildcard, a strpbrk for "*?") and the folder tests of a directory
 * entry (FindFile::IsFolder, FindFile::IsDotFolder).
 */
module Paths {

  /** The attribute bit _A_SUBDIR that marks a folder in a directory entry. */
  const SubdirBit: bv32 := 0x10

  /** One entry of a directory listing: its name and its attribute word. */
  datatype DirEntry = DirEntry(name: string, attrib: bv32)

  predicate IsWildcard(c: char) {
    c == '*' || c == '?'
  }

  /** strpbrk(s, "*?") as an index: the first wildcard character, or -1 when there is none. */
  function FirstWildcard(s: string): (r: int)
    ensures -1 <= r < |s|
  {
    if s == [] then -1
    else if IsWildcard(s[0]) then 0
    else
      var r := FirstWildcard(s[1..]);
      if r < 0 then -1 else r + 1
  }

  /** The index found is the first wildcard character, and -1 means there is none. */
  lemma {:induction false} FirstWildcardMeaning(s: string)
    ensures var r := FirstWildcard(s);
      && (r >= 0 ==> IsWildcard(s[r]) && forall k :: 0 <= k < r ==> !IsWildcard(s[k]))
      && (r < 0 <==> forall k :: 0 <= k < |s| ==> !IsWildcard(s[k]))
  {
    if s != [] && !IsWildcard(s[0]) {
      FirstWildcardMeaning(s[1..]);
      var r := FirstWildcard(s[1..]);
      forall k | 0 <= k < |s| && (r < 0 || k < r + 1)
        ensures !IsWildcard(s[k])
      {
        if k > 0 {
          assert s[k] == s[1..][k - 1];
        }
      }
      if r >= 0 {
        assert s[r + 1] == s[1..][r];
      }
    }
  }

  /** has_wildcard: strpbrk found '*' or '?'. */
  function HasWildcard(pathname: string): bool {
    FirstWildcard(pathname) >= 0
  }

  /** A pattern has a wildcard exactly when one of its characters is '*' or '?'. */
  lemma HasWildcardIff(pathname: string)
    ensures HasWildcard(pathname) <==> exists k :: 0 <= k < |pathname| && IsWildcard(pathname[k])
  {
    FirstWildcardMeaning(pathname);
    if HasWildcard(pathname) {
      var r := FirstWildcard(pathname);
      assert IsWildcard(pathname[r]);
    }
  }

  /** FindFile::IsFolder: the _A_SUBDIR bit of the attribute word. */
  predicate IsFolder(e: DirEntry) {
    e.attrib & SubdirBit != 0
  }

  /** The character the C string name holds at k: past its end, the terminating NUL. */
  function CharAt(name: string, k: nat): char {
    if k < |name| then name[k] else '\0'
  }

  /** FindFile::IsDotFolder: a folder named "." or "..", read through the C string. */
  predicate IsDotFolder(e: DirEntry) {
    IsFolder(e) && CharAt(e.name, 0) == '.'
      && (CharAt(e.name, 1) == '\0' || (CharAt(e.name, 1) == '.' && CharAt(e.name, 2) == '\0'))
  }

  /** For a name without NUL characters, the C string test is the test for "." and "..". */
  lemma IsDotFolderIff(e: DirEntry)
    requires forall k :: 0 <= k < |e.name| ==> e.name[k] != '\0'
    ensures IsDotFolder(e) <==> IsFolder(e) && (e.name == "." || e.name == "..")
  {
    if IsDotFolder(e) {
      if CharAt(e.name, 1) == '\0' {
        assert |e.name| == 1;
      } else {
        assert |e.name| == 2;
      }
      assert e.name == e.name[..|e.name|];
    }
  }
}
