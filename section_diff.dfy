/**
 * The Section Differ (diff): compares two loaded images. The file headers
 * and the optional headers go through the Field Differ; then sections are
 * paired by position only. An index present in only one image costs exactly
 * one and is announced even in quiet mode; an index present in both adds the
 * section header's count and the raw differ's bit over the compared bytes.
 * A closing verdict line says whether the images differ.
 */
module SectionDiff {
  import opened Text
  import opened PeImage
  import opened Settings
  import opened FieldDiff
  import opened RawDiff

  /** One line of the comparison's output. */
  datatype Line =
    | Banner(module1: string, module2: string)          // "===== compare ... =====" (batch mode, not quiet)
    | Field(mismatch: Mismatch)                          // a header field that differs
    | OnlyIn(section: seq<Byte>, owner: string)          // "<name> section is only in <owner>"
    | Raw(prompt: string, event: RawEvent)               // an event of the raw byte differ
    | Verdict(module1: string, module2: string, identical: bool) // "... differ" / "... are identical"

  /** The prompt of the header comparison of the section at index i: "Section Header[i+1]". */
  function HeaderPrompt(i: nat): string {
    "Section Header[" + Decimal(i + 1) + "]"
  }

  /** The heading of the raw comparison of the section at index i, naming both sections. */
  function RawPrompt(i: nat, s1: SectionHeader, s2: SectionHeader): string {
    "Section RawData[" + Decimal(i + 1) + "] " + BytesText(SectionName(s1)) + " <=> "
      + BytesText(SectionName(s2)) + ":"
  }

  function FieldLines(ms: seq<Mismatch>): (r: seq<Line>)
    ensures |r| == |ms| && forall k :: 0 <= k < |ms| ==> r[k] == Field(ms[k])
  {
    seq(|ms|, k requires 0 <= k < |ms| => Field(ms[k]))
  }

  function RawLines(prompt: string, events: seq<RawEvent>): (r: seq<Line>)
    ensures |r| == |events| && forall k :: 0 <= k < |events| ==> r[k] == Raw(prompt, events[k])
  {
    seq(|events|, k requires 0 <= k < |events| => Raw(prompt, events[k]))
  }

  /** The number of section indices, the larger of the two section counts. */
  function Indices(a: Image, b: Image): nat {
    Max(|a.sections|, |b.sections|)
  }

  /** 1 when the compared bytes of the section at index i differ, 0 otherwise. */
  function RawDiffers(a: Image, b: Image, i: nat): nat
    requires RawDataInFile(a) && RawDataInFile(b)
    requires i < |a.sections| && i < |b.sections|
  {
    if RawData(a, i) != RawData(b, i) then 1 else 0
  }

  /** What the section index i adds to the count. */
  function SectionDifference(a: Image, b: Image, i: nat): (n: nat)
    requires RawDataInFile(a) && RawDataInFile(b)
  {
    if i >= |a.sections| || i >= |b.sections| then 1
    else SectionHeaderDifferences(a.sections[i], b.sections[i]) + RawDiffers(a, b, i)
  }

  /** What the section indices below k add to the count. */
  function SectionsDifference(a: Image, b: Image, k: nat): (n: nat)
    requires RawDataInFile(a) && RawDataInFile(b)
  {
    if k == 0 then 0 else SectionsDifference(a, b, k - 1) + SectionDifference(a, b, k - 1)
  }

  /** The count diff returns. Quiet mode plays no part in it. */
  function DiffCount(a: Image, b: Image, ignoreTimeStamp: bool): nat
    requires RawDataInFile(a) && RawDataInFile(b)
  {
    FileHeaderDifferences(a.fileHeader, b.fileHeader, ignoreTimeStamp)
      + OptionalHeaderDifferences(a.optionalHeader, b.optionalHeader)
      + SectionsDifference(a, b, Indices(a, b))
  }

  /** Each section index adds at most 11: one for a missing side, else 0..10 for the header and 0..1 for the bytes. */
  lemma SectionDifferenceBound(a: Image, b: Image, i: nat)
    requires RawDataInFile(a) && RawDataInFile(b)
    ensures SectionDifference(a, b, i) <= 11
    ensures i >= |a.sections| || i >= |b.sections| ==> SectionDifference(a, b, i) == 1
  {
  }

  /** The section index i is present in both images and diff finds nothing between them. */
  predicate SameSection(a: Image, b: Image, i: nat)
    requires RawDataInFile(a) && RawDataInFile(b)
    requires i < |a.sections| && i < |b.sections|
  {
    var s1, s2 := a.sections[i], b.sections[i];
    SectionName(s1) == SectionName(s2) && s1.(name := s2.name) == s2 && RawData(a, i) == RawData(b, i)
  }

  /** An index adds nothing exactly when both images have it and it is the same in both. */
  lemma SectionDifferenceZero(a: Image, b: Image, i: nat)
    requires RawDataInFile(a) && RawDataInFile(b)
    ensures SectionDifference(a, b, i) == 0 <==> i < |a.sections| && i < |b.sections| && SameSection(a, b, i)
  {
    if i < |a.sections| && i < |b.sections| {
      SectionHeaderIdentical(a.sections[i], b.sections[i]);
    }
  }

  /** The sum of a sequence of counts, last element last. */
  function Total(s: seq<nat>): nat {
    if |s| == 0 then 0 else Total(s[..|s| - 1]) + s[|s| - 1]
  }

  /** A sum of counts is zero exactly when every count is. */
  lemma {:induction false} TotalZero(s: seq<nat>)
    ensures Total(s) == 0 <==> forall i :: 0 <= i < |s| ==> s[i] == 0
  {
    if |s| != 0 {
      var init := s[..|s| - 1];
      TotalZero(init);
      assert forall i :: 0 <= i < |init| ==> init[i] == s[i];
    }
  }

  /** What each section index below k adds, in order. */
  function SectionShares(a: Image, b: Image, k: nat): (r: seq<nat>)
    requires RawDataInFile(a) && RawDataInFile(b)
    ensures |r| == k && forall i :: 0 <= i < k ==> r[i] == SectionDifference(a, b, i)
  {
    seq(k, i requires 0 <= i < k => SectionDifference(a, b, i))
  }

  /** The section part of the count is the sum of the per-index shares. */
  lemma {:induction false} SectionsDifferenceTotal(a: Image, b: Image, k: nat)
    requires RawDataInFile(a) && RawDataInFile(b)
    ensures SectionsDifference(a, b, k) == Total(SectionShares(a, b, k))
  {
    if k != 0 {
      SectionsDifferenceTotal(a, b, k - 1);
      assert SectionShares(a, b, k)[..k - 1] == SectionShares(a, b, k - 1);
    }
  }

  /** The indices below k add nothing exactly when each of them adds nothing. */
  lemma SectionsDifferenceZero(a: Image, b: Image, k: nat)
    requires RawDataInFile(a) && RawDataInFile(b)
    ensures SectionsDifference(a, b, k) == 0 <==> forall i :: 0 <= i < k ==> SectionDifference(a, b, i) == 0
  {
    SectionsDifferenceTotal(a, b, k);
    TotalZero(SectionShares(a, b, k));
  }

  /**
   * diff counts nothing exactly when the file headers agree (apart from the
   * timestamp under -t), the optional headers agree apart from the data
   * directories, and both images have the same sections with the same
   * compared bytes.
   */
  lemma DiffCountZeroIff(a: Image, b: Image, ignoreTimeStamp: bool)
    requires RawDataInFile(a) && RawDataInFile(b)
    ensures DiffCount(a, b, ignoreTimeStamp) == 0 <==>
      && (if ignoreTimeStamp then a.fileHeader.(timeDateStamp := b.fileHeader.timeDateStamp) == b.fileHeader
          else a.fileHeader == b.fileHeader)
      && a.optionalHeader.(dataDirectory := b.optionalHeader.dataDirectory) == b.optionalHeader
      && |a.sections| == |b.sections|
      && forall i :: 0 <= i < |a.sections| ==> SameSection(a, b, i)
  {
    FileHeaderIdentical(a.fileHeader, b.fileHeader, ignoreTimeStamp);
    OptionalHeaderIdentical(a.optionalHeader, b.optionalHeader);
    var n := Indices(a, b);
    SectionsDifferenceZero(a, b, n);
    forall i | 0 <= i < n {
      SectionDifferenceZero(a, b, i);
    }
    if |a.sections| != |b.sections| {
      var i := Min(|a.sections|, |b.sections|);
      assert SectionDifference(a, b, i) == 1;
    }
  }

  /** An image compared with itself: diff counts nothing. */
  lemma DiffCountSelf(a: Image, ignoreTimeStamp: bool)
    requires RawDataInFile(a)
    ensures DiffCount(a, a, ignoreTimeStamp) == 0
  {
    DiffCountZeroIff(a, a, ignoreTimeStamp);
  }

  /** The lines printed for the section index i. */
  function SectionLines(a: Image, b: Image, i: nat, cfg: Config): seq<Line>
    requires RawDataInFile(a) && RawDataInFile(b) && i < Indices(a, b)
  {
    if i >= |a.sections| then [OnlyIn(SectionName(b.sections[i]), b.moduleName)]
    else if i >= |b.sections| then [OnlyIn(SectionName(a.sections[i]), a.moduleName)]
    else
      var s1, s2 := a.sections[i], b.sections[i];
      (if cfg.quiet then [] else FieldLines(Mismatches(HeaderPrompt(i), SectionFields(s1), SectionFields(s2))))
      + (if cfg.quiet then [] else RawLines(RawPrompt(i, s1, s2), Reported(RawData(a, i), RawData(b, i), cfg.diffLength)))
  }

  /** The lines printed for the section indices below k. */
  function SectionsLines(a: Image, b: Image, k: nat, cfg: Config): seq<Line>
    requires RawDataInFile(a) && RawDataInFile(b) && k <= Indices(a, b)
  {
    if k == 0 then [] else SectionsLines(a, b, k - 1, cfg) + SectionLines(a, b, k - 1, cfg)
  }

  /** Everything diff prints before its verdict. */
  function Body(a: Image, b: Image, cfg: Config): seq<Line>
    requires RawDataInFile(a) && RawDataInFile(b)
  {
    (if cfg.dirDiff && !cfg.quiet then [Banner(a.moduleName, b.moduleName)] else [])
    + (if cfg.quiet then [] else FieldLines(Mismatches("FileHeader",
        FileHeaderFields(a.fileHeader, cfg.ignoreTimeStamp), FileHeaderFields(b.fileHeader, cfg.ignoreTimeStamp))))
    + (if cfg.quiet then [] else FieldLines(Mismatches("OptionalHeader",
        OptionalFields(a.optionalHeader), OptionalFields(b.optionalHeader))))
    + SectionsLines(a, b, Indices(a, b), cfg)
  }

  /** Everything diff prints: the body, then the verdict. */
  function Report(a: Image, b: Image, cfg: Config): seq<Line>
    requires RawDataInFile(a) && RawDataInFile(b)
  {
    Body(a, b, cfg) + [Verdict(a.moduleName, b.moduleName, DiffCount(a, b, cfg.ignoreTimeStamp) == 0)]
  }

  /** In quiet mode the section loop prints only the notices of sections present in one image. */
  lemma {:induction false} SectionsLinesQuiet(a: Image, b: Image, k: nat, cfg: Config)
    requires RawDataInFile(a) && RawDataInFile(b) && k <= Indices(a, b) && cfg.quiet
    ensures forall j :: 0 <= j < |SectionsLines(a, b, k, cfg)| ==> SectionsLines(a, b, k, cfg)[j].OnlyIn?
  {
    if k > 0 {
      SectionsLinesQuiet(a, b, k - 1, cfg);
      var before := SectionsLines(a, b, k - 1, cfg);
      var here := SectionLines(a, b, k - 1, cfg);
      var all := before + here;
      assert SectionsLines(a, b, k, cfg) == all;
      if k - 1 < |a.sections| && k - 1 < |b.sections| {
        assert here == [];
      }
      forall j | 0 <= j < |all|
        ensures all[j].OnlyIn?
      {
        if j < |before| {
          assert all[j] == before[j];
        } else {
          assert all[j] == here[j - |before|];
        }
      }
    }
  }

  /**
   * Quiet mode silences the field and raw reports but not the notices of
   * sections present in one image, nor the closing verdict, which says
   * "identical" exactly when diff counts nothing.
   */
  lemma ReportQuiet(a: Image, b: Image, cfg: Config)
    requires RawDataInFile(a) && RawDataInFile(b) && cfg.quiet
    ensures var r := Report(a, b, cfg);
      && r != [] && r[|r| - 1] == Verdict(a.moduleName, b.moduleName, DiffCount(a, b, cfg.ignoreTimeStamp) == 0)
      && forall j :: 0 <= j < |r| - 1 ==> r[j].OnlyIn?
  {
    SectionsLinesQuiet(a, b, Indices(a, b), cfg);
    var s := SectionsLines(a, b, Indices(a, b), cfg);
    assert Body(a, b, cfg) == s;
    ReportVerdict(a, b, cfg);
    var r := Report(a, b, cfg);
    forall j | 0 <= j < |r| - 1
      ensures r[j].OnlyIn?
    {
      assert r[j] == s[j];
    }
  }

  /** The report closes with the verdict, which says "identical" exactly when diff counts nothing. */
  lemma ReportVerdict(a: Image, b: Image, cfg: Config)
    requires RawDataInFile(a) && RawDataInFile(b)
    ensures var r := Report(a, b, cfg);
      r != [] && r[|r| - 1] == Verdict(a.moduleName, b.moduleName, DiffCount(a, b, cfg.ignoreTimeStamp) == 0)
  {
  }

  /**
   * One pass of diff's section loop, at index i: a section present in only
   * one image is announced and costs one; otherwise the headers and then the
   * compared bytes are diffed.
   */
  method DiffSectionAt(a: Image, b: Image, i: nat, cfg: Config) returns (differ: nat, lines: seq<Line>)
    requires RawDataInFile(a) && RawDataInFile(b) && i < Indices(a, b)
    ensures differ == SectionDifference(a, b, i)
    ensures lines == SectionLines(a, b, i, cfg)
  {
    if i >= |a.sections| {
      return 1, [OnlyIn(SectionName(b.sections[i]), b.moduleName)];
    }
    if i >= |b.sections| {
      return 1, [OnlyIn(SectionName(a.sections[i]), a.moduleName)];
    }
    var s1, s2 := a.sections[i], b.sections[i];
    var d, report := DiffSectionHeader(HeaderPrompt(i), s1, s2, cfg.quiet);
    var bit, events, _ := DiffRawData(RawData(a, i), RawData(b, i), cfg.diffLength, cfg.quiet);
    differ := d + bit;
    lines := FieldLines(report) + RawLines(RawPrompt(i, s1, s2), events);
  }

  /** One more section index extends the count and the lines by that index's share. */
  lemma SectionsStep(a: Image, b: Image, i: nat, cfg: Config)
    requires RawDataInFile(a) && RawDataInFile(b) && i < Indices(a, b)
    ensures SectionsDifference(a, b, i + 1) == SectionsDifference(a, b, i) + SectionDifference(a, b, i)
    ensures SectionsLines(a, b, i + 1, cfg) == SectionsLines(a, b, i, cfg) + SectionLines(a, b, i, cfg)
  {
  }

  /** One pass of the section loop: the totals so far grow by the share of index i. */
  method NextSection(a: Image, b: Image, i: nat, cfg: Config, differ0: nat, lines0: seq<Line>)
    returns (differ: nat, lines: seq<Line>)
    requires RawDataInFile(a) && RawDataInFile(b) && i < Indices(a, b)
    requires differ0 == SectionsDifference(a, b, i) && lines0 == SectionsLines(a, b, i, cfg)
    ensures differ == SectionsDifference(a, b, i + 1) && lines == SectionsLines(a, b, i + 1, cfg)
  {
    var d, sectionLines := DiffSectionAt(a, b, i, cfg);
    SectionsStep(a, b, i, cfg);
    differ, lines := differ0 + d, lines0 + sectionLines;
  }

  /** diff's section loop: every index up to the larger section count, in order. */
  method DiffSections(a: Image, b: Image, cfg: Config) returns (differ: nat, lines: seq<Line>)
    requires RawDataInFile(a) && RawDataInFile(b)
    ensures differ == SectionsDifference(a, b, Indices(a, b))
    ensures lines == SectionsLines(a, b, Indices(a, b), cfg)
  {
    differ, lines := 0, [];
    var i := 0;
    while i < |a.sections| || i < |b.sections|
      invariant i <= Indices(a, b)
      invariant differ == SectionsDifference(a, b, i)
      invariant lines == SectionsLines(a, b, i, cfg)
      decreases Indices(a, b) - i
    {
      differ, lines := NextSection(a, b, i, cfg, differ, lines);
      i := i + 1;
    }
  }

  /**
   * diff: the count and the printed lines. The count is the same whatever
   * the quiet setting and the raw-difference cap.
   */
  method Diff(a: Image, b: Image, cfg: Config) returns (differ: nat, lines: seq<Line>)
    requires RawDataInFile(a) && RawDataInFile(b)
    ensures differ == DiffCount(a, b, cfg.ignoreTimeStamp)
    ensures lines == Report(a, b, cfg)
  {
    lines := if cfg.dirDiff && !cfg.quiet then [Banner(a.moduleName, b.moduleName)] else [];
    var fileCount, fileReport := DiffFileHeader(a.fileHeader, b.fileHeader, cfg.ignoreTimeStamp, cfg.quiet);
    var optionalCount, optionalReport := DiffOptionalHeader(a.optionalHeader, b.optionalHeader, cfg.quiet);
    var sectionsCount, sectionsLines := DiffSections(a, b, cfg);
    differ := fileCount + optionalCount + sectionsCount;
    lines := lines + FieldLines(fileReport) + FieldLines(optionalReport) + sectionsLines
      + [Verdict(a.moduleName, b.moduleName, differ == 0)];
  }
}
