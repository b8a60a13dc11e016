/**
 * The two Compare overloads and the batch fold of the folder mode. Compare
 * on two loaded images dumps both when -d is set and returns 1 when diff
 * counts any difference, 0 otherwise. Compare on two file names returns 2
 * when a load fails; the second file is not loaded when the first fails.
 * The folder mode ORs the result of every non-folder entry into its exit
 * status.
 */
module Compare {
  import opened PeImage
  import opened Settings
  import opened Dump
  import opened SectionDiff
  import opened Paths

  /** Where a file lives: the folder the batch mode puts in front of the name ("" for a path as typed). */
  datatype Location = Location(folder: string, name: string)

  /** The loader's view of the file system: the files that load, and what they load as. */
  type Files = map<Location, Image>

  /** The assumption that every loadable image holds its compared section bytes inside the mapped file. */
  predicate Loadable(files: Files) {
    forall l :: l in files ==> RawDataInFile(files[l])
  }

  /** What a call of Compare on two file names leaves behind. */
  datatype Outcome = Outcome(
    code: nat,                     // the value returned: 0, 1 or 2
    failed: seq<Location>,         // the file whose load failed, reported with print_win32error
    dumps: seq<seq<DumpRow>>,      // the raw-data dumps of -d, section by section, image 1 first
    lines: seq<Line>)              // what diff printed

  /** The raw-data dumps that ExeFileImage::print writes for an image, one per section. */
  function ImageDump(a: Image, highPrintable: set<Byte>): (r: seq<seq<DumpRow>>)
    requires RawDataInFile(a)
    ensures |r| == |a.sections|
  {
    seq(|a.sections|, i requires 0 <= i < |a.sections| => ChunkRows(RawData(a, i), highPrintable))
  }

  /** ExeFileImage::print, raw-data part: every section in table order. */
  method PrintImage(a: Image, highPrintable: set<Byte>) returns (dumps: seq<seq<DumpRow>>)
    requires RawDataInFile(a)
    ensures dumps == ImageDump(a, highPrintable)
  {
    dumps := [];
    for i := 0 to |a.sections|
      invariant |dumps| == i
      invariant forall k :: 0 <= k < i ==> dumps[k] == ChunkRows(RawData(a, k), highPrintable)
    {
      var rows := DumpRawData(RawData(a, i), highPrintable);
      dumps := dumps + [rows];
    }
  }

  /** The value Compare returns for two loaded images. */
  function ImagesCode(a: Image, b: Image, ignoreTimeStamp: bool): (r: nat)
    requires RawDataInFile(a) && RawDataInFile(b)
  {
    if DiffCount(a, b, ignoreTimeStamp) != 0 then 1 else 0
  }

  /** The dumps Compare writes before diffing: both images when -d is set. */
  function Dumps(a: Image, b: Image, cfg: Config, highPrintable: set<Byte>): seq<seq<DumpRow>>
    requires RawDataInFile(a) && RawDataInFile(b)
  {
    if cfg.dumpImage then ImageDump(a, highPrintable) + ImageDump(b, highPrintable) else []
  }

  /** Compare on two loaded images. */
  method CompareImages(a: Image, b: Image, cfg: Config, highPrintable: set<Byte>)
    returns (code: nat, dumps: seq<seq<DumpRow>>, lines: seq<Line>)
    requires RawDataInFile(a) && RawDataInFile(b)
    ensures code == ImagesCode(a, b, cfg.ignoreTimeStamp)
    ensures dumps == Dumps(a, b, cfg, highPrintable)
    ensures lines == Report(a, b, cfg)
  {
    dumps := [];
    if cfg.dumpImage {
      var d1 := PrintImage(a, highPrintable);
      var d2 := PrintImage(b, highPrintable);
      dumps := d1 + d2;
    }
    var differ;
    differ, lines := Diff(a, b, cfg);
    code := if differ != 0 then 1 else 0;
  }

  /** What Compare on two file names does with the given files. */
  function FilesOutcome(files: Files, f1: Location, f2: Location, cfg: Config, highPrintable: set<Byte>): (out: Outcome)
    requires Loadable(files)
    ensures out.code <= 2
  {
    if f1 !in files then Outcome(2, [f1], [], [])
    else if f2 !in files then Outcome(2, [f2], [], [])
    else
      var a, b := files[f1], files[f2];
      Outcome(ImagesCode(a, b, cfg.ignoreTimeStamp), [], Dumps(a, b, cfg, highPrintable), Report(a, b, cfg))
  }

  /** Compare on two file names: load the first, then the second, then compare the images. */
  method CompareFiles(files: Files, f1: Location, f2: Location, cfg: Config, highPrintable: set<Byte>)
    returns (out: Outcome)
    requires Loadable(files)
    ensures out == FilesOutcome(files, f1, f2, cfg, highPrintable)
  {
    if f1 !in files {
      return Outcome(2, [f1], [], []);
    }
    var a := files[f1];
    if f2 !in files {
      return Outcome(2, [f2], [], []);
    }
    var b := files[f2];
    var code, dumps, lines := CompareImages(a, b, cfg, highPrintable);
    out := Outcome(code, [], dumps, lines);
  }

  /**
   * The result of Compare on file names: 2 exactly when a load fails, then
   * nothing is dumped or diffed; otherwise 1 or 0 as diff counts a
   * difference or not, and the verdict line says the same.
   */
  lemma FilesOutcomeCode(files: Files, f1: Location, f2: Location, cfg: Config, highPrintable: set<Byte>)
    requires Loadable(files)
    ensures var out := FilesOutcome(files, f1, f2, cfg, highPrintable);
      && out.code <= 2
      && (out.code == 2 <==> f1 !in files || f2 !in files)
      && (out.code == 2 ==> |out.failed| == 1 && out.dumps == [] && out.lines == [])
      && (out.code == 0 <==> f1 in files && f2 in files && DiffCount(files[f1], files[f2], cfg.ignoreTimeStamp) == 0)
      && (out.code != 2 ==>
            out.lines != [] && out.lines[|out.lines| - 1].Verdict? && (out.lines[|out.lines| - 1].identical <==> out.code == 0))
  {
    if f1 in files && f2 in files {
      ReportVerdict(files[f1], files[f2], cfg);
    }
  }

  /**
   * The second file is not even loaded when the first fails: the outcome is
   * the same whatever the second file would have loaded as.
   */
  lemma SecondNotLoaded(files1: Files, files2: Files, f1: Location, f2: Location, cfg: Config, highPrintable: set<Byte>)
    requires Loadable(files1) && Loadable(files2)
    requires f1 !in files1 && f1 !in files2
    ensures FilesOutcome(files1, f1, f2, cfg, highPrintable) == FilesOutcome(files2, f1, f2, cfg, highPrintable)
    ensures FilesOutcome(files1, f1, f2, cfg, highPrintable).failed == [f1]
  {
  }

  /** Comparing a file with itself gives 0. */
  lemma CompareSelf(files: Files, f: Location, cfg: Config, highPrintable: set<Byte>)
    requires Loadable(files) && f in files
    ensures FilesOutcome(files, f, f, cfg, highPrintable).code == 0
  {
    DiffCountSelf(files[f], cfg.ignoreTimeStamp);
  }

  /** `ret | code` on the status values 0..3: bit 0 for a difference, bit 1 for a load failure. */
  function Or(ret: nat, code: nat): (r: nat)
    requires ret < 4 && code < 4
    ensures r < 4
  {
    (if ret % 2 == 1 || code % 2 == 1 then 1 else 0) + (if ret >= 2 || code >= 2 then 2 else 0)
  }

  /** The arithmetic Or is C's bitwise `|` on two-bit values. */
  lemma OrIsBitwise(ret: nat, code: nat)
    requires ret < 4 && code < 4
    ensures Or(ret, code) == ((ret as bv2) | (code as bv2)) as nat
  {
    if ret == 0 {
      assert (0 as bv2) | (code as bv2) == code as bv2;
    } else if ret == 1 {
      if code == 0 { assert (1 as bv2) | (0 as bv2) == 1; }
      else if code == 1 { assert (1 as bv2) | (1 as bv2) == 1; }
      else if code == 2 { assert (1 as bv2) | (2 as bv2) == 3; }
      else { assert (1 as bv2) | (3 as bv2) == 3; }
    } else if ret == 2 {
      if code == 0 { assert (2 as bv2) | (0 as bv2) == 2; }
      else if code == 1 { assert (2 as bv2) | (1 as bv2) == 3; }
      else if code == 2 { assert (2 as bv2) | (2 as bv2) == 2; }
      else { assert (2 as bv2) | (3 as bv2) == 3; }
    } else {
      assert (3 as bv2) | (code as bv2) == 3;
    }
  }

  /**
   * The outcomes of the folder loop: for every entry of the listing that is
   * not a folder, in listing order, Compare on dir1\name and dir2\name.
   */
  function BatchOutcomes(files: Files, dir1: string, dir2: string, entries: seq<DirEntry>, cfg: Config, highPrintable: set<Byte>)
    : (r: seq<Outcome>)
    requires Loadable(files)
    ensures |r| <= |entries|
    ensures forall k :: 0 <= k < |r| ==> r[k].code <= 2
  {
    if entries == [] then []
    else
      var e := entries[|entries| - 1];
      BatchOutcomes(files, dir1, dir2, entries[..|entries| - 1], cfg, highPrintable)
        + (if IsFolder(e) then [] else [FilesOutcome(files, Location(dir1, e.name), Location(dir2, e.name), cfg, highPrintable)])
  }

  /** The exit status the folder loop builds: 0, then `ret |= code` for every outcome. */
  function BatchCode(outs: seq<Outcome>): (r: nat)
    requires forall k :: 0 <= k < |outs| ==> outs[k].code < 4
    ensures r < 4
  {
    if outs == [] then 0 else Or(BatchCode(outs[..|outs| - 1]), outs[|outs| - 1].code)
  }

  /**
   * The exit status of the folder mode: bit 0 is set exactly when some pair
   * differs, bit 1 exactly when some load failed; 0 means every compared
   * pair loaded and was identical.
   */
  lemma {:induction false} BatchCodeMeaning(outs: seq<Outcome>)
    requires forall k :: 0 <= k < |outs| ==> outs[k].code <= 2
    ensures BatchCode(outs) % 2 == 1 <==> exists k :: 0 <= k < |outs| && outs[k].code == 1
    ensures BatchCode(outs) >= 2 <==> exists k :: 0 <= k < |outs| && outs[k].code == 2
    ensures BatchCode(outs) == 0 <==> forall k :: 0 <= k < |outs| ==> outs[k].code == 0
  {
    if outs != [] {
      var init := outs[..|outs| - 1];
      BatchCodeMeaning(init);
      assert forall k :: 0 <= k < |init| ==> init[k] == outs[k];
      assert outs == init + [outs[|outs| - 1]];
    }
  }

  /** One pass of the folder loop, at listing entry i: a folder is skipped, a file is compared. */
  method NextEntry(files: Files, dir1: string, dir2: string, entries: seq<DirEntry>, i: nat, cfg: Config,
                   highPrintable: set<Byte>, ret0: nat, outs0: seq<Outcome>)
    returns (ret: nat, outs: seq<Outcome>)
    requires Loadable(files) && i < |entries|
    requires outs0 == BatchOutcomes(files, dir1, dir2, entries[..i], cfg, highPrintable) && ret0 == BatchCode(outs0)
    ensures outs == BatchOutcomes(files, dir1, dir2, entries[..i + 1], cfg, highPrintable) && ret == BatchCode(outs)
  {
    assert entries[..i + 1][..i] == entries[..i];
    ret, outs := ret0, outs0;
    var e := entries[i];
    if !IsFolder(e) {
      var out := CompareFiles(files, Location(dir1, e.name), Location(dir2, e.name), cfg, highPrintable);
      ret := Or(ret, out.code);
      outs := outs + [out];
      assert outs[..|outs| - 1] == outs0;
    }
  }

  /**
   * The folder loop of main: every entry of the listing of dir2 that is not
   * a folder is compared with the file of the same name in dir1 (which may
   * not exist), in diff's batch mode, and its result ORed into the status.
   */
  method CompareFolders(files: Files, dir1: string, dir2: string, entries: seq<DirEntry>, cfg: Config, highPrintable: set<Byte>)
    returns (ret: nat, outs: seq<Outcome>)
    requires Loadable(files)
    ensures outs == BatchOutcomes(files, dir1, dir2, entries, cfg.(dirDiff := true), highPrintable)
    ensures ret == BatchCode(outs)
  {
    var batch := cfg.(dirDiff := true);
    ret, outs := 0, [];
    for i := 0 to |entries|
      invariant outs == BatchOutcomes(files, dir1, dir2, entries[..i], batch, highPrintable)
      invariant ret == BatchCode(outs)
    {
      ret, outs := NextEntry(files, dir1, dir2, entries, i, batch, highPrintable, ret, outs);
    }
    assert entries[..|entries|] == entries;
  }
}
