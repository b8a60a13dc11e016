/**
 * The Field Differ: the three diff_header overloads. Each header kind is laid
 * out as an ordered table of named fields; two headers of the same kind are
 * compared entry by entry on their raw values, and every entry that differs
 * adds one to the count and one line to the report. The report lines are
 * suppressed in quiet mode; the count never is.
 */
module FieldDiff {
  import opened Text
  import opened PeImage
  import opened Renderers

  /**
   * A field value together with the way the program compares and prints it:
   * the DIFFLONG, DIFFWORD, DIFFVER, DIFFSTR and DIFFSTRF macros. Two values
   * are equal exactly when the macro finds no difference.
   */
  datatype FieldValue =
    | Long(long: DWord)                    // DIFFLONG, printed "%08X"
    | Short(short: Word)                   // DIFFWORD, printed "%04X"
    | Version(major: Word, minor: Word)    // DIFFVER, printed "%d.%d"
    | Name(bytes: seq<Byte>)               // DIFFSTR, compared as C strings
    | MachineCode(machine: Word)           // DIFFSTRF with MachineString
    | TimeDate(time: DWord)                // DIFFSTRF with TimeDateString
    | ImageFlagWord(imageFlags: Word)      // DIFFSTRF with ImageCharacteristicsString
    | SubsystemCode(subsystem: Word)       // DIFFSTRF with SubsystemString
    | SectionFlagWord(sectionFlags: DWord) // DIFFSTRF with SectionCharacteristicsString

  function BytesText(b: seq<Byte>): string {
    seq(|b|, k requires 0 <= k < |b| => b[k] as char)
  }

  /** How a mismatching value is printed in the report. */
  function Display(v: FieldValue): string {
    match v
    case Long(x) => Hex(x, 8)
    case Short(x) => Hex(x, 4)
    case Version(major, minor) => Decimal(major) + "." + Decimal(minor)
    case Name(b) => BytesText(b)
    case MachineCode(x) => MachineString(x)
    case TimeDate(x) => Hex(x, 8)
    case ImageFlagWord(x) => ImageCharacteristicsText(x)
    case SubsystemCode(x) => SubsystemString(x)
    case SectionFlagWord(x) => SectionCharacteristicsText(x)
  }

  /** One row of a header's field table: the field name and its value. */
  datatype Entry = Entry(name: string, value: FieldValue)

  /** One reported mismatch: the prompt, the field name, the left and the right value. */
  datatype Mismatch = Mismatch(prompt: string, field: string, left: FieldValue, right: FieldValue)

  /** The report lines of one mismatch: "<prompt>.<field>:", then "<" left and ">" right. */
  function MismatchLines(m: Mismatch): seq<string> {
    [m.prompt + "." + m.field + ":", "<" + Display(m.left), ">" + Display(m.right)]
  }

  /** Both tables list the same fields in the same order. */
  predicate SameLayout(l1: seq<Entry>, l2: seq<Entry>) {
    |l1| == |l2| && forall k :: 0 <= k < |l1| ==> l1[k].name == l2[k].name
  }

  /** The report line for one table row: none when the values agree. */
  function Check(prompt: string, e1: Entry, e2: Entry): (r: seq<Mismatch>)
    ensures |r| == if e1.value != e2.value then 1 else 0
  {
    if e1.value != e2.value then [Mismatch(prompt, e1.name, e1.value, e2.value)] else []
  }

  /** The mismatches of two tables, in table order. */
  function Mismatches(prompt: string, l1: seq<Entry>, l2: seq<Entry>): (r: seq<Mismatch>)
    requires |l1| == |l2|
    ensures |r| <= |l1|
  {
    if l1 == [] then []
    else Mismatches(prompt, l1[..|l1| - 1], l2[..|l2| - 1]) + Check(prompt, l1[|l1| - 1], l2[|l2| - 1])
  }

  /** Adding one row to both tables adds that row's check at the end. */
  lemma MismatchesSnoc(prompt: string, l1: seq<Entry>, l2: seq<Entry>, i: nat)
    requires |l1| == |l2| && i < |l1|
    ensures Mismatches(prompt, l1[..i + 1], l2[..i + 1]) == Mismatches(prompt, l1[..i], l2[..i]) + Check(prompt, l1[i], l2[i])
  {
    assert l1[..i + 1][..i] == l1[..i] && l2[..i + 1][..i] == l2[..i];
  }

  /** The number of rows whose values differ. */
  function Differing(l1: seq<Entry>, l2: seq<Entry>): (n: nat)
    requires |l1| == |l2|
    ensures n <= |l1|
  {
    if l1 == [] then 0
    else Differing(l1[..|l1| - 1], l2[..|l2| - 1]) + (if l1[|l1| - 1].value != l2[|l2| - 1].value then 1 else 0)
  }

  /** Exactly one report line per differing row. */
  lemma {:induction false} MismatchesCount(prompt: string, l1: seq<Entry>, l2: seq<Entry>)
    requires |l1| == |l2|
    ensures |Mismatches(prompt, l1, l2)| == Differing(l1, l2)
  {
    if l1 != [] {
      MismatchesCount(prompt, l1[..|l1| - 1], l2[..|l2| - 1]);
    }
  }

  /** One more row at the end of both tables adds one exactly when its values differ. */
  lemma DifferingSnoc(l1: seq<Entry>, l2: seq<Entry>, e1: Entry, e2: Entry, d: nat)
    requires |l1| == |l2| && d == if e1.value != e2.value then 1 else 0
    ensures Differing(l1 + [e1], l2 + [e2]) == Differing(l1, l2) + d
  {
    assert (l1 + [e1])[..|l1|] == l1 && (l2 + [e2])[..|l2|] == l2;
  }

  /** The differing rows of two concatenated tables are those of the parts. */
  lemma {:induction false} DifferingAppend(a1: seq<Entry>, b1: seq<Entry>, a2: seq<Entry>, b2: seq<Entry>)
    requires |a1| == |a2| && |b1| == |b2|
    ensures Differing(a1 + b1, a2 + b2) == Differing(a1, a2) + Differing(b1, b2)
    decreases |b1|
  {
    if b1 != [] {
      var n := |b1| - 1;
      assert (a1 + b1)[..|a1| + n] == a1 + b1[..n];
      assert (a2 + b2)[..|a2| + n] == a2 + b2[..n];
      assert (a1 + b1)[|a1| + n] == b1[n] && (a2 + b2)[|a2| + n] == b2[n];
      DifferingAppend(a1, b1[..n], a2, b2[..n]);
    } else {
      assert a1 + b1 == a1 && a2 + b2 == a2;
    }
  }

  /**
   * Nothing is reported exactly when the two tables are equal, so a header
   * compared with itself gives no mismatch.
   */
  lemma {:induction false} MismatchesEmptyIff(prompt: string, l1: seq<Entry>, l2: seq<Entry>)
    requires SameLayout(l1, l2)
    ensures Mismatches(prompt, l1, l2) == [] <==> l1 == l2
  {
    if l1 != [] {
      var n := |l1| - 1;
      MismatchesEmptyIff(prompt, l1[..n], l2[..n]);
      if l1[..n] == l2[..n] && l1[n] == l2[n] {
        assert l1 == l1[..n] + [l1[n]];
        assert l2 == l2[..n] + [l2[n]];
      }
      if l1 == l2 {
        assert l1[n].value == l2[n].value;
      }
      if l1[n].value == l2[n].value {
        assert l1[n] == l2[n];
      }
    }
  }

  /**
   * Every row whose values differ is reported, with both values,
   * and every reported line comes from such a row.
   */
  lemma {:induction false} MismatchesReportRows(prompt: string, l1: seq<Entry>, l2: seq<Entry>)
    requires |l1| == |l2|
    ensures forall k :: 0 <= k < |l1| && l1[k].value != l2[k].value ==>
      Mismatch(prompt, l1[k].name, l1[k].value, l2[k].value) in Mismatches(prompt, l1, l2)
    ensures forall m :: m in Mismatches(prompt, l1, l2) ==>
      exists k :: 0 <= k < |l1| && l1[k].value != l2[k].value &&
        m == Mismatch(prompt, l1[k].name, l1[k].value, l2[k].value)
  {
    if l1 != [] {
      var n := |l1| - 1;
      MismatchesReportRows(prompt, l1[..n], l2[..n]);
      forall m | m in Mismatches(prompt, l1, l2)
        ensures exists k :: (0 <= k < |l1| && l1[k].value != l2[k].value &&
          m == Mismatch(prompt, l1[k].name, l1[k].value, l2[k].value))
      {
        if m in Mismatches(prompt, l1[..n], l2[..n]) {
          var k :| 0 <= k < n && l1[..n][k].value != l2[..n][k].value &&
            m == Mismatch(prompt, l1[..n][k].name, l1[..n][k].value, l2[..n][k].value);
          assert l1[..n][k] == l1[k] && l2[..n][k] == l2[k];
        } else {
          assert m in Check(prompt, l1[n], l2[n]);
        }
      }
      forall k | 0 <= k < |l1| && l1[k].value != l2[k].value
        ensures Mismatch(prompt, l1[k].name, l1[k].value, l2[k].value) in Mismatches(prompt, l1, l2)
      {
        if k < n {
          assert l1[..n][k] == l1[k] && l2[..n][k] == l2[k];
        }
      }
    }
  }

  /**
   * diff_header as the program runs it: walk the table, and for every row
   * whose values differ count one and, unless quiet, report it.
   */
  method DiffHeader(prompt: string, l1: seq<Entry>, l2: seq<Entry>, quiet: bool)
    returns (differ: nat, report: seq<Mismatch>)
    requires |l1| == |l2|
    ensures differ == |Mismatches(prompt, l1, l2)|
    ensures report == if quiet then [] else Mismatches(prompt, l1, l2)
  {
    differ, report := 0, [];
    for i := 0 to |l1|
      invariant differ == |Mismatches(prompt, l1[..i], l2[..i])|
      invariant report == if quiet then [] else Mismatches(prompt, l1[..i], l2[..i])
    {
      MismatchesSnoc(prompt, l1, l2, i);
      if l1[i].value != l2[i].value {
        differ := differ + 1;
        if !quiet {
          report := report + Check(prompt, l1[i], l2[i]);
        }
      }
    }
    assert l1[..|l1|] == l1 && l2[..|l2|] == l2;
  }

  /** 1 when two field values differ, 0 when they are equal. */
  function Differs(a: int, b: int): nat {
    if a != b then 1 else 0
  }

  /** 1 when two section names differ, 0 when they are equal. */
  function NamesDiffer(a: seq<Byte>, b: seq<Byte>): nat {
    if a != b then 1 else 0
  }

  // ---------------------------------------------------------------------
  // The file header (diff_header on IMAGE_FILE_HEADER)

  /** The file header's table; with -t the TimeDateStamp row is left out. */
  function FileHeaderFields(h: FileHeader, ignoreTimeStamp: bool): (r: seq<Entry>)
    ensures |r| == if ignoreTimeStamp then 6 else 7
  {
    var machine, sections := Entry("Machine", MachineCode(h.machine)), Entry("NumberOfSections", Short(h.numberOfSections));
    var symbolTable, symbols := Entry("PointerToSymbolTable", Long(h.pointerToSymbolTable)), Entry("NumberOfSymbols", Long(h.numberOfSymbols));
    var optional, flags := Entry("SizeOfOptionalHeader", Short(h.sizeOfOptionalHeader)), Entry("Characteristics", ImageFlagWord(h.characteristics));
    if ignoreTimeStamp then [machine] + [sections] + [symbolTable] + [symbols] + [optional] + [flags]
    else [machine] + [sections] + [Entry("TimeDateStamp", TimeDate(h.timeDateStamp))] + [symbolTable] + [symbols] + [optional] + [flags]
  }

  /**
   * The number of the seven file-header fields whose raw values differ;
   * under -t TimeDateStamp is not looked at, so at most six.
   */
  function FileHeaderDifferences(h1: FileHeader, h2: FileHeader, ignoreTimeStamp: bool): (n: nat)
    ensures n <= if ignoreTimeStamp then 6 else 7
    ensures h1 == h2 ==> n == 0
  {
    Differs(h1.machine, h2.machine)
    + Differs(h1.numberOfSections, h2.numberOfSections)
    + (if ignoreTimeStamp then 0 else Differs(h1.timeDateStamp, h2.timeDateStamp))
    + Differs(h1.pointerToSymbolTable, h2.pointerToSymbolTable)
    + Differs(h1.numberOfSymbols, h2.numberOfSymbols)
    + Differs(h1.sizeOfOptionalHeader, h2.sizeOfOptionalHeader)
    + Differs(h1.characteristics, h2.characteristics)
  }

  /**
   * No file-header difference exactly when the headers are equal; under -t,
   * equal but for the timestamp.
   */
  lemma FileHeaderIdentical(h1: FileHeader, h2: FileHeader, ignoreTimeStamp: bool)
    ensures FileHeaderDifferences(h1, h2, ignoreTimeStamp) == 0 <==>
      if ignoreTimeStamp then h1.(timeDateStamp := h2.timeDateStamp) == h2 else h1 == h2
  {
  }

  /** With the timestamp row, the file-header table counts exactly the seven differing fields. */
  lemma FileHeaderCountWithTime(h1: FileHeader, h2: FileHeader)
    ensures Differing(FileHeaderFields(h1, false), FileHeaderFields(h2, false)) ==
      Differs(h1.machine, h2.machine)
      + Differs(h1.numberOfSections, h2.numberOfSections)
      + Differs(h1.timeDateStamp, h2.timeDateStamp)
      + Differs(h1.pointerToSymbolTable, h2.pointerToSymbolTable)
      + Differs(h1.numberOfSymbols, h2.numberOfSymbols)
      + Differs(h1.sizeOfOptionalHeader, h2.sizeOfOptionalHeader)
      + Differs(h1.characteristics, h2.characteristics)
  {
    var e0, f0 := Entry("Machine", MachineCode(h1.machine)), Entry("Machine", MachineCode(h2.machine));
    var e1, f1 := Entry("NumberOfSections", Short(h1.numberOfSections)), Entry("NumberOfSections", Short(h2.numberOfSections));
    var e3, f3 := Entry("PointerToSymbolTable", Long(h1.pointerToSymbolTable)), Entry("PointerToSymbolTable", Long(h2.pointerToSymbolTable));
    var e4, f4 := Entry("NumberOfSymbols", Long(h1.numberOfSymbols)), Entry("NumberOfSymbols", Long(h2.numberOfSymbols));
    var e5, f5 := Entry("SizeOfOptionalHeader", Short(h1.sizeOfOptionalHeader)), Entry("SizeOfOptionalHeader", Short(h2.sizeOfOptionalHeader));
    var e6, f6 := Entry("Characteristics", ImageFlagWord(h1.characteristics)), Entry("Characteristics", ImageFlagWord(h2.characteristics));
    DifferingSnoc([], [], e0, f0, Differs(h1.machine, h2.machine));
    assert [] + [e0] == [e0] && [] + [f0] == [f0];
    DifferingSnoc([e0], [f0], e1, f1, Differs(h1.numberOfSections, h2.numberOfSections));
    var e2, f2 := Entry("TimeDateStamp", TimeDate(h1.timeDateStamp)), Entry("TimeDateStamp", TimeDate(h2.timeDateStamp));
    DifferingSnoc([e0] + [e1], [f0] + [f1], e2, f2, Differs(h1.timeDateStamp, h2.timeDateStamp));
    DifferingSnoc([e0] + [e1] + [e2], [f0] + [f1] + [f2], e3, f3, Differs(h1.pointerToSymbolTable, h2.pointerToSymbolTable));
    DifferingSnoc([e0] + [e1] + [e2] + [e3], [f0] + [f1] + [f2] + [f3], e4, f4, Differs(h1.numberOfSymbols, h2.numberOfSymbols));
    DifferingSnoc([e0] + [e1] + [e2] + [e3] + [e4], [f0] + [f1] + [f2] + [f3] + [f4], e5, f5, Differs(h1.sizeOfOptionalHeader, h2.sizeOfOptionalHeader));
    DifferingSnoc([e0] + [e1] + [e2] + [e3] + [e4] + [e5], [f0] + [f1] + [f2] + [f3] + [f4] + [f5], e6, f6, Differs(h1.characteristics, h2.characteristics));
  }

  /** Without the timestamp row (-t), the file-header table counts exactly the six other differing fields. */
  lemma FileHeaderCountWithoutTime(h1: FileHeader, h2: FileHeader)
    ensures Differing(FileHeaderFields(h1, true), FileHeaderFields(h2, true)) == FileHeaderDifferences(h1, h2, true)
  {
    var e0, f0 := Entry("Machine", MachineCode(h1.machine)), Entry("Machine", MachineCode(h2.machine));
    var e1, f1 := Entry("NumberOfSections", Short(h1.numberOfSections)), Entry("NumberOfSections", Short(h2.numberOfSections));
    var e3, f3 := Entry("PointerToSymbolTable", Long(h1.pointerToSymbolTable)), Entry("PointerToSymbolTable", Long(h2.pointerToSymbolTable));
    var e4, f4 := Entry("NumberOfSymbols", Long(h1.numberOfSymbols)), Entry("NumberOfSymbols", Long(h2.numberOfSymbols));
    var e5, f5 := Entry("SizeOfOptionalHeader", Short(h1.sizeOfOptionalHeader)), Entry("SizeOfOptionalHeader", Short(h2.sizeOfOptionalHeader));
    var e6, f6 := Entry("Characteristics", ImageFlagWord(h1.characteristics)), Entry("Characteristics", ImageFlagWord(h2.characteristics));
    DifferingSnoc([], [], e0, f0, Differs(h1.machine, h2.machine));
    assert [] + [e0] == [e0] && [] + [f0] == [f0];
    DifferingSnoc([e0], [f0], e1, f1, Differs(h1.numberOfSections, h2.numberOfSections));
    DifferingSnoc([e0] + [e1], [f0] + [f1], e3, f3, Differs(h1.pointerToSymbolTable, h2.pointerToSymbolTable));
    DifferingSnoc([e0] + [e1] + [e3], [f0] + [f1] + [f3], e4, f4, Differs(h1.numberOfSymbols, h2.numberOfSymbols));
    DifferingSnoc([e0] + [e1] + [e3] + [e4], [f0] + [f1] + [f3] + [f4], e5, f5, Differs(h1.sizeOfOptionalHeader, h2.sizeOfOptionalHeader));
    DifferingSnoc([e0] + [e1] + [e3] + [e4] + [e5], [f0] + [f1] + [f3] + [f4] + [f5], e6, f6, Differs(h1.characteristics, h2.characteristics));
  }

  /** The file-header table counts exactly the differing fields. */
  lemma FileHeaderCount(h1: FileHeader, h2: FileHeader, ignoreTimeStamp: bool)
    ensures Differing(FileHeaderFields(h1, ignoreTimeStamp), FileHeaderFields(h2, ignoreTimeStamp)) ==
      FileHeaderDifferences(h1, h2, ignoreTimeStamp)
  {
    if ignoreTimeStamp {
      FileHeaderCountWithoutTime(h1, h2);
    } else {
      FileHeaderCountWithTime(h1, h2);
    }
  }


  /** A version row counts once when its major or its minor part differs. */
  function VersionDiffers(major1: Word, minor1: Word, major2: Word, minor2: Word): nat {
    if major1 != major2 || minor1 != minor2 then 1 else 0
  }

  /** The standard fields of the optional header (section 3.4.1 of the PE/COFF specification), Magic to BaseOfData. */
  function OptionalStandardFields(h: OptionalHeader): (r: seq<Entry>)
    ensures |r| == 8
  {
    [Entry("Magic", Short(h.magic))]
    + [Entry("LinkerVersion", Version(h.majorLinkerVersion, h.minorLinkerVersion))]
    + [Entry("SizeOfCode", Long(h.sizeOfCode))]
    + [Entry("SizeOfInitializedData", Long(h.sizeOfInitializedData))]
    + [Entry("SizeOfUninitializedData", Long(h.sizeOfUninitializedData))]
    + [Entry("AddressOfEntryPoint", Long(h.addressOfEntryPoint))]
    + [Entry("BaseOfCode", Long(h.baseOfCode))]
    + [Entry("BaseOfData", Long(h.baseOfData))]
  }

  /** Each standard row counts once when its raw values differ; LinkerVersion counts once when its major or its minor part differs. */
  lemma OptionalStandardFieldsCount(h1: OptionalHeader, h2: OptionalHeader)
    ensures Differing(OptionalStandardFields(h1), OptionalStandardFields(h2)) ==
      Differs(h1.magic, h2.magic)
      + VersionDiffers(h1.majorLinkerVersion, h1.minorLinkerVersion, h2.majorLinkerVersion, h2.minorLinkerVersion)
      + Differs(h1.sizeOfCode, h2.sizeOfCode)
      + Differs(h1.sizeOfInitializedData, h2.sizeOfInitializedData)
      + Differs(h1.sizeOfUninitializedData, h2.sizeOfUninitializedData)
      + Differs(h1.addressOfEntryPoint, h2.addressOfEntryPoint)
      + Differs(h1.baseOfCode, h2.baseOfCode)
      + Differs(h1.baseOfData, h2.baseOfData)
  {
    var e0, f0 := Entry("Magic", Short(h1.magic)), Entry("Magic", Short(h2.magic));
    var e1, f1 := Entry("LinkerVersion", Version(h1.majorLinkerVersion, h1.minorLinkerVersion)), Entry("LinkerVersion", Version(h2.majorLinkerVersion, h2.minorLinkerVersion));
    var e2, f2 := Entry("SizeOfCode", Long(h1.sizeOfCode)), Entry("SizeOfCode", Long(h2.sizeOfCode));
    var e3, f3 := Entry("SizeOfInitializedData", Long(h1.sizeOfInitializedData)), Entry("SizeOfInitializedData", Long(h2.sizeOfInitializedData));
    var e4, f4 := Entry("SizeOfUninitializedData", Long(h1.sizeOfUninitializedData)), Entry("SizeOfUninitializedData", Long(h2.sizeOfUninitializedData));
    var e5, f5 := Entry("AddressOfEntryPoint", Long(h1.addressOfEntryPoint)), Entry("AddressOfEntryPoint", Long(h2.addressOfEntryPoint));
    var e6, f6 := Entry("BaseOfCode", Long(h1.baseOfCode)), Entry("BaseOfCode", Long(h2.baseOfCode));
    var e7, f7 := Entry("BaseOfData", Long(h1.baseOfData)), Entry("BaseOfData", Long(h2.baseOfData));
    DifferingSnoc([], [], e0, f0, Differs(h1.magic, h2.magic));
    assert [] + [e0] == [e0] && [] + [f0] == [f0];
    DifferingSnoc([e0], [f0], e1, f1, VersionDiffers(h1.majorLinkerVersion, h1.minorLinkerVersion, h2.majorLinkerVersion, h2.minorLinkerVersion));
    DifferingSnoc([e0] + [e1], [f0] + [f1], e2, f2, Differs(h1.sizeOfCode, h2.sizeOfCode));
    DifferingSnoc([e0] + [e1] + [e2], [f0] + [f1] + [f2], e3, f3, Differs(h1.sizeOfInitializedData, h2.sizeOfInitializedData));
    DifferingSnoc([e0] + [e1] + [e2] + [e3], [f0] + [f1] + [f2] + [f3], e4, f4, Differs(h1.sizeOfUninitializedData, h2.sizeOfUninitializedData));
    DifferingSnoc([e0] + [e1] + [e2] + [e3] + [e4], [f0] + [f1] + [f2] + [f3] + [f4], e5, f5, Differs(h1.addressOfEntryPoint, h2.addressOfEntryPoint));
    DifferingSnoc([e0] + [e1] + [e2] + [e3] + [e4] + [e5], [f0] + [f1] + [f2] + [f3] + [f4] + [f5], e6, f6, Differs(h1.baseOfCode, h2.baseOfCode));
    DifferingSnoc([e0] + [e1] + [e2] + [e3] + [e4] + [e5] + [e6], [f0] + [f1] + [f2] + [f3] + [f4] + [f5] + [f6], e7, f7, Differs(h1.baseOfData, h2.baseOfData));
  }

  /** The Windows-specific fields (section 3.4.2) ImageBase to SubsystemVersion. */
  function OptionalLayoutFields(h: OptionalHeader): (r: seq<Entry>)
    ensures |r| == 6
  {
    [Entry("ImageBase", Long(h.imageBase))]
    + [Entry("SectionAlignment", Long(h.sectionAlignment))]
    + [Entry("FileAlignment", Long(h.fileAlignment))]
    + [Entry("OperatingSystemVersion", Version(h.majorOperatingSystemVersion, h.minorOperatingSystemVersion))]
    + [Entry("ImageVersion", Version(h.majorImageVersion, h.minorImageVersion))]
    + [Entry("SubsystemVersion", Version(h.majorSubsystemVersion, h.minorSubsystemVersion))]
  }

  /** Each of these rows counts once when its raw values differ; a version row counts once when its major or its minor part differs. */
  lemma OptionalLayoutFieldsCount(h1: OptionalHeader, h2: OptionalHeader)
    ensures Differing(OptionalLayoutFields(h1), OptionalLayoutFields(h2)) ==
      Differs(h1.imageBase, h2.imageBase)
      + Differs(h1.sectionAlignment, h2.sectionAlignment)
      + Differs(h1.fileAlignment, h2.fileAlignment)
      + VersionDiffers(h1.majorOperatingSystemVersion, h1.minorOperatingSystemVersion, h2.majorOperatingSystemVersion, h2.minorOperatingSystemVersion)
      + VersionDiffers(h1.majorImageVersion, h1.minorImageVersion, h2.majorImageVersion, h2.minorImageVersion)
      + VersionDiffers(h1.majorSubsystemVersion, h1.minorSubsystemVersion, h2.majorSubsystemVersion, h2.minorSubsystemVersion)
  {
    var e0, f0 := Entry("ImageBase", Long(h1.imageBase)), Entry("ImageBase", Long(h2.imageBase));
    var e1, f1 := Entry("SectionAlignment", Long(h1.sectionAlignment)), Entry("SectionAlignment", Long(h2.sectionAlignment));
    var e2, f2 := Entry("FileAlignment", Long(h1.fileAlignment)), Entry("FileAlignment", Long(h2.fileAlignment));
    var e3, f3 := Entry("OperatingSystemVersion", Version(h1.majorOperatingSystemVersion, h1.minorOperatingSystemVersion)), Entry("OperatingSystemVersion", Version(h2.majorOperatingSystemVersion, h2.minorOperatingSystemVersion));
    var e4, f4 := Entry("ImageVersion", Version(h1.majorImageVersion, h1.minorImageVersion)), Entry("ImageVersion", Version(h2.majorImageVersion, h2.minorImageVersion));
    var e5, f5 := Entry("SubsystemVersion", Version(h1.majorSubsystemVersion, h1.minorSubsystemVersion)), Entry("SubsystemVersion", Version(h2.majorSubsystemVersion, h2.minorSubsystemVersion));
    DifferingSnoc([], [], e0, f0, Differs(h1.imageBase, h2.imageBase));
    assert [] + [e0] == [e0] && [] + [f0] == [f0];
    DifferingSnoc([e0], [f0], e1, f1, Differs(h1.sectionAlignment, h2.sectionAlignment));
    DifferingSnoc([e0] + [e1], [f0] + [f1], e2, f2, Differs(h1.fileAlignment, h2.fileAlignment));
    DifferingSnoc([e0] + [e1] + [e2], [f0] + [f1] + [f2], e3, f3, VersionDiffers(h1.majorOperatingSystemVersion, h1.minorOperatingSystemVersion, h2.majorOperatingSystemVersion, h2.minorOperatingSystemVersion));
    DifferingSnoc([e0] + [e1] + [e2] + [e3], [f0] + [f1] + [f2] + [f3], e4, f4, VersionDiffers(h1.majorImageVersion, h1.minorImageVersion, h2.majorImageVersion, h2.minorImageVersion));
    DifferingSnoc([e0] + [e1] + [e2] + [e3] + [e4], [f0] + [f1] + [f2] + [f3] + [f4], e5, f5, VersionDiffers(h1.majorSubsystemVersion, h1.minorSubsystemVersion, h2.majorSubsystemVersion, h2.minorSubsystemVersion));
  }

  /** The Windows-specific fields Win32VersionValue to DllCharacteristics. */
  function OptionalImageFields(h: OptionalHeader): (r: seq<Entry>)
    ensures |r| == 6
  {
    [Entry("Win32VersionValue", Long(h.win32VersionValue))]
    + [Entry("SizeOfImage", Long(h.sizeOfImage))]
    + [Entry("SizeOfHeaders", Long(h.sizeOfHeaders))]
    + [Entry("CheckSum", Long(h.checkSum))]
    + [Entry("Subsystem", SubsystemCode(h.subsystem))]
    + [Entry("DllCharacteristics", Short(h.dllCharacteristics))]
  }

  /** Each of these rows counts once when its raw values differ. */
  lemma OptionalImageFieldsCount(h1: OptionalHeader, h2: OptionalHeader)
    ensures Differing(OptionalImageFields(h1), OptionalImageFields(h2)) ==
      Differs(h1.win32VersionValue, h2.win32VersionValue)
      + Differs(h1.sizeOfImage, h2.sizeOfImage)
      + Differs(h1.sizeOfHeaders, h2.sizeOfHeaders)
      + Differs(h1.checkSum, h2.checkSum)
      + Differs(h1.subsystem, h2.subsystem)
      + Differs(h1.dllCharacteristics, h2.dllCharacteristics)
  {
    var e0, f0 := Entry("Win32VersionValue", Long(h1.win32VersionValue)), Entry("Win32VersionValue", Long(h2.win32VersionValue));
    var e1, f1 := Entry("SizeOfImage", Long(h1.sizeOfImage)), Entry("SizeOfImage", Long(h2.sizeOfImage));
    var e2, f2 := Entry("SizeOfHeaders", Long(h1.sizeOfHeaders)), Entry("SizeOfHeaders", Long(h2.sizeOfHeaders));
    var e3, f3 := Entry("CheckSum", Long(h1.checkSum)), Entry("CheckSum", Long(h2.checkSum));
    var e4, f4 := Entry("Subsystem", SubsystemCode(h1.subsystem)), Entry("Subsystem", SubsystemCode(h2.subsystem));
    var e5, f5 := Entry("DllCharacteristics", Short(h1.dllCharacteristics)), Entry("DllCharacteristics", Short(h2.dllCharacteristics));
    DifferingSnoc([], [], e0, f0, Differs(h1.win32VersionValue, h2.win32VersionValue));
    assert [] + [e0] == [e0] && [] + [f0] == [f0];
    DifferingSnoc([e0], [f0], e1, f1, Differs(h1.sizeOfImage, h2.sizeOfImage));
    DifferingSnoc([e0] + [e1], [f0] + [f1], e2, f2, Differs(h1.sizeOfHeaders, h2.sizeOfHeaders));
    DifferingSnoc([e0] + [e1] + [e2], [f0] + [f1] + [f2], e3, f3, Differs(h1.checkSum, h2.checkSum));
    DifferingSnoc([e0] + [e1] + [e2] + [e3], [f0] + [f1] + [f2] + [f3], e4, f4, Differs(h1.subsystem, h2.subsystem));
    DifferingSnoc([e0] + [e1] + [e2] + [e3] + [e4], [f0] + [f1] + [f2] + [f3] + [f4], e5, f5, Differs(h1.dllCharacteristics, h2.dllCharacteristics));
  }

  /** The Windows-specific fields SizeOfStackReserve to NumberOfRvaAndSizes. */
  function OptionalMemoryFields(h: OptionalHeader): (r: seq<Entry>)
    ensures |r| == 6
  {
    [Entry("SizeOfStackReserve", Long(h.sizeOfStackReserve))]
    + [Entry("SizeOfStackCommit", Long(h.sizeOfStackCommit))]
    + [Entry("SizeOfHeapReserve", Long(h.sizeOfHeapReserve))]
    + [Entry("SizeOfHeapCommit", Long(h.sizeOfHeapCommit))]
    + [Entry("LoaderFlags", Long(h.loaderFlags))]
    + [Entry("NumberOfRvaAndSizes", Long(h.numberOfRvaAndSizes))]
  }

  /** Each of these rows counts once when its raw values differ. */
  lemma OptionalMemoryFieldsCount(h1: OptionalHeader, h2: OptionalHeader)
    ensures Differing(OptionalMemoryFields(h1), OptionalMemoryFields(h2)) ==
      Differs(h1.sizeOfStackReserve, h2.sizeOfStackReserve)
      + Differs(h1.sizeOfStackCommit, h2.sizeOfStackCommit)
      + Differs(h1.sizeOfHeapReserve, h2.sizeOfHeapReserve)
      + Differs(h1.sizeOfHeapCommit, h2.sizeOfHeapCommit)
      + Differs(h1.loaderFlags, h2.loaderFlags)
      + Differs(h1.numberOfRvaAndSizes, h2.numberOfRvaAndSizes)
  {
    var e0, f0 := Entry("SizeOfStackReserve", Long(h1.sizeOfStackReserve)), Entry("SizeOfStackReserve", Long(h2.sizeOfStackReserve));
    var e1, f1 := Entry("SizeOfStackCommit", Long(h1.sizeOfStackCommit)), Entry("SizeOfStackCommit", Long(h2.sizeOfStackCommit));
    var e2, f2 := Entry("SizeOfHeapReserve", Long(h1.sizeOfHeapReserve)), Entry("SizeOfHeapReserve", Long(h2.sizeOfHeapReserve));
    var e3, f3 := Entry("SizeOfHeapCommit", Long(h1.sizeOfHeapCommit)), Entry("SizeOfHeapCommit", Long(h2.sizeOfHeapCommit));
    var e4, f4 := Entry("LoaderFlags", Long(h1.loaderFlags)), Entry("LoaderFlags", Long(h2.loaderFlags));
    var e5, f5 := Entry("NumberOfRvaAndSizes", Long(h1.numberOfRvaAndSizes)), Entry("NumberOfRvaAndSizes", Long(h2.numberOfRvaAndSizes));
    DifferingSnoc([], [], e0, f0, Differs(h1.sizeOfStackReserve, h2.sizeOfStackReserve));
    assert [] + [e0] == [e0] && [] + [f0] == [f0];
    DifferingSnoc([e0], [f0], e1, f1, Differs(h1.sizeOfStackCommit, h2.sizeOfStackCommit));
    DifferingSnoc([e0] + [e1], [f0] + [f1], e2, f2, Differs(h1.sizeOfHeapReserve, h2.sizeOfHeapReserve));
    DifferingSnoc([e0] + [e1] + [e2], [f0] + [f1] + [f2], e3, f3, Differs(h1.sizeOfHeapCommit, h2.sizeOfHeapCommit));
    DifferingSnoc([e0] + [e1] + [e2] + [e3], [f0] + [f1] + [f2] + [f3], e4, f4, Differs(h1.loaderFlags, h2.loaderFlags));
    DifferingSnoc([e0] + [e1] + [e2] + [e3] + [e4], [f0] + [f1] + [f2] + [f3] + [f4], e5, f5, Differs(h1.numberOfRvaAndSizes, h2.numberOfRvaAndSizes));
  }

  /** The section header rows that place the section: Name, VirtualSize, VirtualAddress, SizeOfRawData, PointerToRawData. */
  function SectionPlacementFields(h: SectionHeader): (r: seq<Entry>)
    ensures |r| == 5
  {
    [Entry("Name", Name(SectionName(h)))]
    + [Entry("VirtualSize", Long(h.virtualSize))]
    + [Entry("VirtualAddress", Long(h.virtualAddress))]
    + [Entry("SizeOfRawData", Long(h.sizeOfRawData))]
    + [Entry("PointerToRawData", Long(h.pointerToRawData))]
  }

  /** Each of these rows counts once when its raw values differ; the names are compared as C strings of at most 8 bytes. */
  lemma SectionPlacementFieldsCount(h1: SectionHeader, h2: SectionHeader)
    ensures Differing(SectionPlacementFields(h1), SectionPlacementFields(h2)) ==
      NamesDiffer(SectionName(h1), SectionName(h2))
      + Differs(h1.virtualSize, h2.virtualSize)
      + Differs(h1.virtualAddress, h2.virtualAddress)
      + Differs(h1.sizeOfRawData, h2.sizeOfRawData)
      + Differs(h1.pointerToRawData, h2.pointerToRawData)
  {
    var e0, f0 := Entry("Name", Name(SectionName(h1))), Entry("Name", Name(SectionName(h2)));
    var e1, f1 := Entry("VirtualSize", Long(h1.virtualSize)), Entry("VirtualSize", Long(h2.virtualSize));
    var e2, f2 := Entry("VirtualAddress", Long(h1.virtualAddress)), Entry("VirtualAddress", Long(h2.virtualAddress));
    var e3, f3 := Entry("SizeOfRawData", Long(h1.sizeOfRawData)), Entry("SizeOfRawData", Long(h2.sizeOfRawData));
    var e4, f4 := Entry("PointerToRawData", Long(h1.pointerToRawData)), Entry("PointerToRawData", Long(h2.pointerToRawData));
    DifferingSnoc([], [], e0, f0, NamesDiffer(SectionName(h1), SectionName(h2)));
    assert [] + [e0] == [e0] && [] + [f0] == [f0];
    DifferingSnoc([e0], [f0], e1, f1, Differs(h1.virtualSize, h2.virtualSize));
    DifferingSnoc([e0] + [e1], [f0] + [f1], e2, f2, Differs(h1.virtualAddress, h2.virtualAddress));
    DifferingSnoc([e0] + [e1] + [e2], [f0] + [f1] + [f2], e3, f3, Differs(h1.sizeOfRawData, h2.sizeOfRawData));
    DifferingSnoc([e0] + [e1] + [e2] + [e3], [f0] + [f1] + [f2] + [f3], e4, f4, Differs(h1.pointerToRawData, h2.pointerToRawData));
  }

  /** The remaining section header rows, PointerToRelocations to Characteristics. */
  function SectionRelocationFields(h: SectionHeader): (r: seq<Entry>)
    ensures |r| == 5
  {
    [Entry("PointerToRelocations", Long(h.pointerToRelocations))]
    + [Entry("PointerToLinenumbers", Long(h.pointerToLinenumbers))]
    + [Entry("NumberOfRelocations", Short(h.numberOfRelocations))]
    + [Entry("NumberOfLinenumbers", Short(h.numberOfLinenumbers))]
    + [Entry("Characteristics", SectionFlagWord(h.characteristics))]
  }

  /** Each of these rows counts once when its raw values differ. */
  lemma SectionRelocationFieldsCount(h1: SectionHeader, h2: SectionHeader)
    ensures Differing(SectionRelocationFields(h1), SectionRelocationFields(h2)) ==
      Differs(h1.pointerToRelocations, h2.pointerToRelocations)
      + Differs(h1.pointerToLinenumbers, h2.pointerToLinenumbers)
      + Differs(h1.numberOfRelocations, h2.numberOfRelocations)
      + Differs(h1.numberOfLinenumbers, h2.numberOfLinenumbers)
      + Differs(h1.characteristics, h2.characteristics)
  {
    var e0, f0 := Entry("PointerToRelocations", Long(h1.pointerToRelocations)), Entry("PointerToRelocations", Long(h2.pointerToRelocations));
    var e1, f1 := Entry("PointerToLinenumbers", Long(h1.pointerToLinenumbers)), Entry("PointerToLinenumbers", Long(h2.pointerToLinenumbers));
    var e2, f2 := Entry("NumberOfRelocations", Short(h1.numberOfRelocations)), Entry("NumberOfRelocations", Short(h2.numberOfRelocations));
    var e3, f3 := Entry("NumberOfLinenumbers", Short(h1.numberOfLinenumbers)), Entry("NumberOfLinenumbers", Short(h2.numberOfLinenumbers));
    var e4, f4 := Entry("Characteristics", SectionFlagWord(h1.characteristics)), Entry("Characteristics", SectionFlagWord(h2.characteristics));
    DifferingSnoc([], [], e0, f0, Differs(h1.pointerToRelocations, h2.pointerToRelocations));
    assert [] + [e0] == [e0] && [] + [f0] == [f0];
    DifferingSnoc([e0], [f0], e1, f1, Differs(h1.pointerToLinenumbers, h2.pointerToLinenumbers));
    DifferingSnoc([e0] + [e1], [f0] + [f1], e2, f2, Differs(h1.numberOfRelocations, h2.numberOfRelocations));
    DifferingSnoc([e0] + [e1] + [e2], [f0] + [f1] + [f2], e3, f3, Differs(h1.numberOfLinenumbers, h2.numberOfLinenumbers));
    DifferingSnoc([e0] + [e1] + [e2] + [e3], [f0] + [f1] + [f2] + [f3], e4, f4, Differs(h1.characteristics, h2.characteristics));
  }

  // ---------------------------------------------------------------------
  // The three diff_header overloads

  /** The optional header's table: 26 rows; the data directory is not among them. */
  function OptionalFields(h: OptionalHeader): (r: seq<Entry>)
    ensures |r| == 26
  {
    OptionalStandardFields(h) + OptionalLayoutFields(h) + OptionalImageFields(h) + OptionalMemoryFields(h)
  }

  /**
   * The number of the 26 optional-header rows whose raw values differ: each
   * field counts at most once, a version pair once when its major or its
   * minor part differs, and the data directory not at all.
   */
  function OptionalHeaderDifferences(h1: OptionalHeader, h2: OptionalHeader): (n: nat)
    ensures n <= 26
    ensures h1 == h2 ==> n == 0
  {
    Differs(h1.magic, h2.magic)
    + VersionDiffers(h1.majorLinkerVersion, h1.minorLinkerVersion, h2.majorLinkerVersion, h2.minorLinkerVersion)
    + Differs(h1.sizeOfCode, h2.sizeOfCode)
    + Differs(h1.sizeOfInitializedData, h2.sizeOfInitializedData)
    + Differs(h1.sizeOfUninitializedData, h2.sizeOfUninitializedData)
    + Differs(h1.addressOfEntryPoint, h2.addressOfEntryPoint)
    + Differs(h1.baseOfCode, h2.baseOfCode)
    + Differs(h1.baseOfData, h2.baseOfData)
    + Differs(h1.imageBase, h2.imageBase)
    + Differs(h1.sectionAlignment, h2.sectionAlignment)
    + Differs(h1.fileAlignment, h2.fileAlignment)
    + VersionDiffers(h1.majorOperatingSystemVersion, h1.minorOperatingSystemVersion, h2.majorOperatingSystemVersion, h2.minorOperatingSystemVersion)
    + VersionDiffers(h1.majorImageVersion, h1.minorImageVersion, h2.majorImageVersion, h2.minorImageVersion)
    + VersionDiffers(h1.majorSubsystemVersion, h1.minorSubsystemVersion, h2.majorSubsystemVersion, h2.minorSubsystemVersion)
    + Differs(h1.win32VersionValue, h2.win32VersionValue)
    + Differs(h1.sizeOfImage, h2.sizeOfImage)
    + Differs(h1.sizeOfHeaders, h2.sizeOfHeaders)
    + Differs(h1.checkSum, h2.checkSum)
    + Differs(h1.subsystem, h2.subsystem)
    + Differs(h1.dllCharacteristics, h2.dllCharacteristics)
    + Differs(h1.sizeOfStackReserve, h2.sizeOfStackReserve)
    + Differs(h1.sizeOfStackCommit, h2.sizeOfStackCommit)
    + Differs(h1.sizeOfHeapReserve, h2.sizeOfHeapReserve)
    + Differs(h1.sizeOfHeapCommit, h2.sizeOfHeapCommit)
    + Differs(h1.loaderFlags, h2.loaderFlags)
    + Differs(h1.numberOfRvaAndSizes, h2.numberOfRvaAndSizes)
  }

  /** No optional-header difference exactly when the headers are equal but for the data directory. */
  lemma OptionalHeaderIdentical(h1: OptionalHeader, h2: OptionalHeader)
    ensures OptionalHeaderDifferences(h1, h2) == 0 <==> h1.(dataDirectory := h2.dataDirectory) == h2
  {
  }

  /** The optional-header table counts exactly the differing rows. */
  lemma OptionalHeaderCount(h1: OptionalHeader, h2: OptionalHeader)
    ensures Differing(OptionalFields(h1), OptionalFields(h2)) == OptionalHeaderDifferences(h1, h2)
  {
    var a1, b1, c1, d1 := OptionalStandardFields(h1), OptionalLayoutFields(h1), OptionalImageFields(h1), OptionalMemoryFields(h1);
    var a2, b2, c2, d2 := OptionalStandardFields(h2), OptionalLayoutFields(h2), OptionalImageFields(h2), OptionalMemoryFields(h2);
    OptionalStandardFieldsCount(h1, h2);
    OptionalLayoutFieldsCount(h1, h2);
    OptionalImageFieldsCount(h1, h2);
    OptionalMemoryFieldsCount(h1, h2);
    DifferingAppend(a1, b1, a2, b2);
    DifferingAppend(a1 + b1, c1, a2 + b2, c2);
    DifferingAppend(a1 + b1 + c1, d1, a2 + b2 + c2, d2);
  }

  /** A section header's table: its 10 rows. */
  function SectionFields(h: SectionHeader): (r: seq<Entry>)
    ensures |r| == 10
  {
    SectionPlacementFields(h) + SectionRelocationFields(h)
  }

  /**
   * The number of the 10 section-header rows whose raw values differ, the
   * names compared as C strings of at most 8 bytes.
   */
  function SectionHeaderDifferences(h1: SectionHeader, h2: SectionHeader): (n: nat)
    ensures n <= 10
    ensures h1 == h2 ==> n == 0
  {
    NamesDiffer(SectionName(h1), SectionName(h2))
    + Differs(h1.virtualSize, h2.virtualSize)
    + Differs(h1.virtualAddress, h2.virtualAddress)
    + Differs(h1.sizeOfRawData, h2.sizeOfRawData)
    + Differs(h1.pointerToRawData, h2.pointerToRawData)
    + Differs(h1.pointerToRelocations, h2.pointerToRelocations)
    + Differs(h1.pointerToLinenumbers, h2.pointerToLinenumbers)
    + Differs(h1.numberOfRelocations, h2.numberOfRelocations)
    + Differs(h1.numberOfLinenumbers, h2.numberOfLinenumbers)
    + Differs(h1.characteristics, h2.characteristics)
  }

  /**
   * No section-header difference exactly when the names agree up to the
   * first NUL and every other field is equal.
   */
  lemma SectionHeaderIdentical(h1: SectionHeader, h2: SectionHeader)
    ensures SectionHeaderDifferences(h1, h2) == 0 <==> SectionName(h1) == SectionName(h2) && h1.(name := h2.name) == h2
  {
  }

  lemma SectionHeaderCount(h1: SectionHeader, h2: SectionHeader)
    ensures Differing(SectionFields(h1), SectionFields(h2)) == SectionHeaderDifferences(h1, h2)
  {
    SectionPlacementFieldsCount(h1, h2);
    SectionRelocationFieldsCount(h1, h2);
    DifferingAppend(SectionPlacementFields(h1), SectionRelocationFields(h1), SectionPlacementFields(h2), SectionRelocationFields(h2));
  }

  /**
   * diff_header on two file headers: the count is the number of differing
   * fields whatever the quiet setting; the report lists them unless quiet.
   */
  method DiffFileHeader(h1: FileHeader, h2: FileHeader, ignoreTimeStamp: bool, quiet: bool)
    returns (differ: nat, report: seq<Mismatch>)
    ensures differ == FileHeaderDifferences(h1, h2, ignoreTimeStamp)
    ensures report == if quiet then [] else Mismatches("FileHeader", FileHeaderFields(h1, ignoreTimeStamp), FileHeaderFields(h2, ignoreTimeStamp))
  {
    var l1, l2 := FileHeaderFields(h1, ignoreTimeStamp), FileHeaderFields(h2, ignoreTimeStamp);
    differ, report := DiffHeader("FileHeader", l1, l2, quiet);
    MismatchesCount("FileHeader", l1, l2);
    FileHeaderCount(h1, h2, ignoreTimeStamp);
  }

  /** diff_header on two optional headers. */
  method DiffOptionalHeader(h1: OptionalHeader, h2: OptionalHeader, quiet: bool)
    returns (differ: nat, report: seq<Mismatch>)
    ensures differ == OptionalHeaderDifferences(h1, h2)
    ensures report == if quiet then [] else Mismatches("OptionalHeader", OptionalFields(h1), OptionalFields(h2))
  {
    var l1, l2 := OptionalFields(h1), OptionalFields(h2);
    differ, report := DiffHeader("OptionalHeader", l1, l2, quiet);
    MismatchesCount("OptionalHeader", l1, l2);
    OptionalHeaderCount(h1, h2);
  }

  /** diff_header on two section headers, under the given prompt. */
  method DiffSectionHeader(prompt: string, h1: SectionHeader, h2: SectionHeader, quiet: bool)
    returns (differ: nat, report: seq<Mismatch>)
    ensures differ == SectionHeaderDifferences(h1, h2)
    ensures report == if quiet then [] else Mismatches(prompt, SectionFields(h1), SectionFields(h2))
  {
    var l1, l2 := SectionFields(h1), SectionFields(h2);
    differ, report := DiffHeader(prompt, l1, l2, quiet);
    MismatchesCount(prompt, l1, l2);
    SectionHeaderCount(h1, h2);
  }
}
