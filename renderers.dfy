/**
 * Display strings for flag words and enumerated codes: the file
 * characteristics (section 3.3.2 of the PE/COFF specification), the section
 * characteristics (section 4.1), the machine type (section 3.3.1) and the
 * Windows subsystem (section 3.4.2); and the printable projection of a byte.
 */
module Renderers {
  import opened Text
  import opened PeImage

  /** One row of a flag table: the bits it tests and the label it prints. */
  datatype Flag = Flag(mask: bv32, name: string)

  /** The file characteristics table, in the order the labels are printed. */
  const ImageFlags: seq<Flag> := [
    Flag(0x0001, "relocations stripped"),
    Flag(0x0002, "executable image"),
    Flag(0x0004, "linenumbers stripped"),
    Flag(0x0008, "symbols stripped"),
    Flag(0x0010, "AGGRESIVE_WS_TRIM"),
    Flag(0x0020, "LARGE_ADDRESS_AWARE"),
    Flag(0x0080, "BYTES_REVERSED_LO"),
    Flag(0x0100, "32BIT_MACHINE"),
    Flag(0x0200, "debuginfo stripped"),
    Flag(0x0400, "REMOVABLE_RUN_FROM_SWAP"),
    Flag(0x0800, "NET_RUN_FROM_SWAP"),
    Flag(0x1000, "system file"),
    Flag(0x2000, "DLL file"),
    Flag(0x4000, "UP_SYSTEM_ONLY"),
    Flag(0x8000, "BYTES_REVERSED_HI")]

  /**
   * The section characteristics table, in the order the labels are printed.
   * The ALIGN values are 4-bit codes in bits 20..23, tested with `&` like
   * the single-bit flags; MEM_PURGEABLE and MEM_16BIT share one bit.
   */
  const SectionFlags: seq<Flag> := [
    Flag(0x0000_0008, "*no pad"),
    Flag(0x0000_0020, "code"),
    Flag(0x0000_0040, "data"),
    Flag(0x0000_0080, "bss"),
    Flag(0x0000_0200, "*info"),
    Flag(0x0000_1000, "comdat"),
    Flag(0x0000_8000, "*fardata"),
    Flag(0x0002_0000, "*purgeable"),
    Flag(0x0002_0000, "*16bit"),
    Flag(0x0004_0000, "*locked"),
    Flag(0x0008_0000, "*preload"),
    Flag(0x0010_0000, "1-byte align"),
    Flag(0x0020_0000, "2-byte align"),
    Flag(0x0030_0000, "4-byte align"),
    Flag(0x0040_0000, "8-byte align"),
    Flag(0x0050_0000, "16-byte align"),
    Flag(0x0060_0000, "32-byte align"),
    Flag(0x0070_0000, "64-byte align"),
    Flag(0x0100_0000, "extended relocations"),
    Flag(0x0200_0000, "discardable"),
    Flag(0x0400_0000, "cannot be cached"),
    Flag(0x0800_0000, "cannot be paged"),
    Flag(0x1000_0000, "shared"),
    Flag(0x2000_0000, "execute"),
    Flag(0x4000_0000, "read"),
    Flag(0x8000_0000, "write")]

  /** Whether the row's mask shares a bit with flags: the C test `flags & mask`. */
  predicate Shares(flags: bv32, mask: bv32) {
    flags & mask != 0
  }

  /** The labels of the table rows whose mask shares a bit with flags, in table order. */
  function Labels(flags: bv32, table: seq<Flag>): (r: seq<string>)
    ensures |r| <= |table|
  {
    if table == [] then []
    else
      var last := table[|table| - 1];
      Labels(flags, table[..|table| - 1]) + (if Shares(flags, last.mask) then [last.name] else [])
  }

  /** A row's label is printed when its mask shares a bit with flags. */
  lemma {:induction false} LabelsComplete(flags: bv32, table: seq<Flag>)
    ensures forall k :: 0 <= k < |table| && Shares(flags, table[k].mask) ==> table[k].name in Labels(flags, table)
  {
    if table != [] {
      var init := table[..|table| - 1];
      LabelsComplete(flags, init);
      forall k | 0 <= k < |table| && Shares(flags, table[k].mask)
        ensures table[k].name in Labels(flags, table)
      {
        if k < |init| {
          assert init[k] == table[k];
          assert table[k].name in Labels(flags, init);
        }
      }
    }
  }

  /** Every printed label belongs to a row whose mask shares a bit with flags. */
  lemma {:induction false} LabelsSound(flags: bv32, table: seq<Flag>)
    ensures forall l :: l in Labels(flags, table) ==>
      exists k :: 0 <= k < |table| && table[k].name == l && Shares(flags, table[k].mask)
  {
    if table != [] {
      var init := table[..|table| - 1];
      LabelsSound(flags, init);
      forall l | l in Labels(flags, table)
        ensures exists k :: 0 <= k < |table| && table[k].name == l && Shares(flags, table[k].mask)
      {
        if l in Labels(flags, init) {
          var k :| 0 <= k < |init| && init[k].name == l && Shares(flags, init[k].mask);
          assert table[k] == init[k];
        } else {
          assert table[|table| - 1].name == l;
        }
      }
    }
  }

  /** No label at all exactly when no mask shares a bit with flags. */
  lemma LabelsEmpty(flags: bv32, table: seq<Flag>)
    ensures Labels(flags, table) == [] <==> forall k :: 0 <= k < |table| ==> !Shares(flags, table[k].mask)
  {
    LabelsComplete(flags, table);
    LabelsSound(flags, table);
    if Labels(flags, table) != [] {
      assert Labels(flags, table)[0] in Labels(flags, table);
    }
  }

  /** "hex(" + the selected labels joined by ", " + ")". */
  function FlagsText(flags: nat, width: nat, table: seq<Flag>): string
    requires flags < Power16(width) && flags < 0x1_0000_0000
  {
    Hex(flags, width) + "(" + Join(Labels(flags as bv32, table), ", ") + ")"
  }

  /** Cutting "prefix" + "label, " * n at its last comma leaves "prefix" + the joined labels. */
  lemma CutAtLastComma(prefix: string, labels: seq<string>)
    requires forall k :: 0 <= k < |prefix| ==> prefix[k] != ','
    ensures var buf := prefix + Terminated(labels, ", ");
      var c := LastIndexOf(buf, ',');
      (if c >= 0 then buf[..c] else buf) == prefix + Join(labels, ", ")
  {
    var buf := prefix + Terminated(labels, ", ");
    var c := LastIndexOf(buf, ',');
    if labels == [] {
      assert buf == prefix;
    } else {
      TerminatedIsJoin(labels, ", ");
      var joined := prefix + Join(labels, ", ");
      assert buf == joined + ", ";
      assert buf[|joined|] == ',' && buf[|joined| + 1] == ' ';
      assert buf[..c] == joined;
    }
  }

  /** One more table row extends the label list by that row's label when it is selected. */
  lemma LabelsStep(prefix: string, bits: bv32, table: seq<Flag>, i: nat)
    requires i < |table|
    ensures prefix + Terminated(Labels(bits, table[..i + 1]), ", ") ==
      prefix + Terminated(Labels(bits, table[..i]), ", ") + (if Shares(bits, table[i].mask) then table[i].name + ", " else "")
  {
    var before := Labels(bits, table[..i]);
    var done := Terminated(before, ", ");
    var added := if Shares(bits, table[i].mask) then table[i].name + ", " else "";
    assert table[..i + 1][..i] == table[..i];
    if Shares(bits, table[i].mask) {
      var after := before + [table[i].name];
      assert Labels(bits, table[..i + 1]) == after;
      assert after[..|before|] == before;
      assert Terminated(after, ", ") == done + table[i].name + ", ";
    } else {
      assert Labels(bits, table[..i + 1]) == before;
    }
    assert Terminated(Labels(bits, table[..i + 1]), ", ") == done + added;
    assert prefix + (done + added) == prefix + done + added;
  }

  /**
   * The renderer as the program runs it: print the value, strcat each
   * selected label followed by ", ", cut the buffer at its last comma and
   * close the parenthesis.
   */
  method RenderFlags(flags: nat, width: nat, table: seq<Flag>) returns (s: string)
    requires flags < Power16(width) && flags < 0x1_0000_0000
    ensures s == FlagsText(flags, width, table)
  {
    var bits := flags as bv32;
    var prefix := Hex(flags, width) + "(";
    var buf := prefix;
    for i := 0 to |table|
      invariant buf == prefix + Terminated(Labels(bits, table[..i]), ", ")
    {
      LabelsStep(prefix, bits, table, i);
      buf := buf + if Shares(bits, table[i].mask) then table[i].name + ", " else "";
    }
    assert table[..|table|] == table;
    CutAtLastComma(prefix, Labels(bits, table));
    var lastComma := LastIndexOf(buf, ',');
    if lastComma >= 0 {
      buf := buf[..lastComma];
    }
    s := buf + ")";
  }

  function ImageCharacteristicsText(flags: Word): string {
    FlagsText(flags, 4, ImageFlags)
  }

  function SectionCharacteristicsText(flags: DWord): string {
    FlagsText(flags, 8, SectionFlags)
  }

  /** ImageCharacteristicsString: "%04X(" + labels + ")". */
  method ImageCharacteristicsString(flags: Word) returns (s: string)
    ensures s == ImageCharacteristicsText(flags)
  {
    s := RenderFlags(flags, 4, ImageFlags);
  }

  /** SectionCharacteristicsString: "%08X(" + labels + ")". */
  method SectionCharacteristicsString(flags: DWord) returns (s: string)
    ensures s == SectionCharacteristicsText(flags)
  {
    s := RenderFlags(flags, 8, SectionFlags);
  }

  /**
   * What a flag string says: its first `width` characters are the value in
   * hexadecimal, then the labels of exactly the rows whose mask shares a bit
   * with the value, and "()" when there is none.
   */
  lemma FlagsTextMeaning(flags: nat, bits: bv32, width: nat, table: seq<Flag>)
    requires flags < Power16(width) && flags < 0x1_0000_0000 && bits == flags as bv32
    ensures var r := FlagsText(flags, width, table);
      && |r| >= width + 2
      && ParseHex(r[..width]) == flags
      && r[width] == '(' && r[|r| - 1] == ')'
    ensures (forall k :: 0 <= k < |table| ==> !Shares(bits, table[k].mask)) ==>
      FlagsText(flags, width, table) == Hex(flags, width) + "()"
    ensures forall k :: 0 <= k < |table| && Shares(bits, table[k].mask) ==>
      table[k].name in Labels(bits, table)
    ensures forall l :: l in Labels(bits, table) ==>
      exists k :: 0 <= k < |table| && table[k].name == l && Shares(bits, table[k].mask)
  {
    var r := FlagsText(flags, width, table);
    assert r[..width] == Hex(flags, width);
    HexRoundTrip(flags, width);
    LabelsComplete(bits, table);
    LabelsSound(bits, table);
    LabelsEmpty(bits, table);
  }

  /**
   * The ALIGN codes are tested with `&` like single bits, so one code prints
   * every ALIGN label whose code overlaps it: 0x00500000 (16-byte alignment)
   * also prints the 1-, 4-, 8-, 32- and 64-byte labels, but not the 2-byte one.
   */
  lemma AlignCodesOverlap()
    ensures Labels(0x0050_0000, SectionFlags) ==
      ["1-byte align", "4-byte align", "8-byte align", "16-byte align", "32-byte align", "64-byte align"]
    ensures "2-byte align" !in Labels(0x0050_0000, SectionFlags)
  {
    var t := SectionFlags;
    assert t == t[..11] + t[11..18] + t[18..];
    LabelsAppend(0x0050_0000, t[..11] + t[11..18], t[18..]);
    LabelsAppend(0x0050_0000, t[..11], t[11..18]);
    OtherRowsSilent();
    AlignRowsLabels();
  }

  /** No section-flag row outside the ALIGN codes shares a bit with 0x00500000. */
  lemma OtherRowsSilent()
    ensures Labels(0x0050_0000, SectionFlags[..11]) == []
    ensures Labels(0x0050_0000, SectionFlags[18..]) == []
  {
    LabelsEmpty(0x0050_0000, SectionFlags[..11]);
    LabelsEmpty(0x0050_0000, SectionFlags[18..]);
  }

  /** Of the seven ALIGN rows, all but the 2-byte one share a bit with 0x00500000. */
  lemma AlignRowsLabels()
    ensures Labels(0x0050_0000, SectionFlags[11..18]) ==
      ["1-byte align", "4-byte align", "8-byte align", "16-byte align", "32-byte align", "64-byte align"]
  {
    var align := SectionFlags[11..18];
    assert align[..0] == [] && align[..7] == align;
    LabelsSnoc(0x0050_0000, align, 0);
    LabelsSnoc(0x0050_0000, align, 1);
    LabelsSnoc(0x0050_0000, align, 2);
    LabelsSnoc(0x0050_0000, align, 3);
    LabelsSnoc(0x0050_0000, align, 4);
    LabelsSnoc(0x0050_0000, align, 5);
    LabelsSnoc(0x0050_0000, align, 6);
  }

  /** The labels of a table prefix one row longer gain that row's label when it matches. */
  lemma LabelsSnoc(flags: bv32, table: seq<Flag>, k: nat)
    requires k < |table|
    ensures Labels(flags, table[..k + 1]) ==
      Labels(flags, table[..k]) + (if Shares(flags, table[k].mask) then [table[k].name] else [])
  {
    assert table[..k + 1][..k] == table[..k];
  }

  /** The labels of two tables one after the other are the labels of each, in order. */
  lemma {:induction false} LabelsAppend(flags: bv32, a: seq<Flag>, b: seq<Flag>)
    ensures Labels(flags, a + b) == Labels(flags, a) + Labels(flags, b)
    decreases |b|
  {
    if b == [] {
      assert a + b == a;
    } else {
      var init := b[..|b| - 1];
      assert (a + b)[..|a + b| - 1] == a + init;
      LabelsAppend(flags, a, init);
    }
  }

  /** The switch of MachineString; "?" for every other code. */
  function MachineLabel(v: Word): string {
    if v == 0x014C then "32-bit Intel"
    else if v == 0x0200 then "64-bit Intel"
    else if v == 0x0184 then "DEC Alpha"
    else if v == 0x01F0 then "Power PC"
    else "?"
  }

  /** The switch of SubsystemString; "?" for every other code. */
  function SubsystemLabel(v: Word): string {
    if v == 0 then "unknown"
    else if v == 1 then "native"
    else if v == 3 then "WIN32 console"
    else if v == 7 then "POSIX console"
    else if v == 9 then "Windows CE"
    else "?"
  }

  /** MachineString: "%04X(name)"; the name is "?" exactly for codes the switch does not list. */
  function MachineString(v: Word): (r: string)
    ensures |r| >= 7 && forall i :: 0 <= i < 4 ==> IsHexDigit(r[i])
    ensures ParseHex(r[..4]) == v && r[4] == '(' && r[|r| - 1] == ')'
    ensures r[5..|r| - 1] == "?" <==> v !in {0x014C, 0x0200, 0x0184, 0x01F0}
  {
    HexRoundTrip(v, 4);
    var r := Hex(v, 4) + "(" + MachineLabel(v) + ")";
    assert r[..4] == Hex(v, 4) && r[5..|r| - 1] == MachineLabel(v);
    r
  }

  /** SubsystemString: "%04X(name)"; the name is "?" exactly for codes the switch does not list. */
  function SubsystemString(v: Word): (r: string)
    ensures |r| >= 7 && forall i :: 0 <= i < 4 ==> IsHexDigit(r[i])
    ensures ParseHex(r[..4]) == v && r[4] == '(' && r[|r| - 1] == ')'
    ensures r[5..|r| - 1] == "?" <==> v !in {0, 1, 3, 7, 9}
  {
    HexRoundTrip(v, 4);
    var r := Hex(v, 4) + "(" + SubsystemLabel(v) + ")";
    assert r[..4] == Hex(v, 4) && r[5..|r| - 1] == SubsystemLabel(v);
    r
  }

  /**
   * ascii: the byte itself when it is printable, '.' otherwise. Bytes from
   * 0x80 up are printable or not according to the locale, given here as the
   * set of high bytes the locale calls printable.
   */
  function Ascii(c: Byte, highPrintable: set<Byte>): (r: char)
    ensures r == '.' || r == c as char
    ensures c < 0x20 || c == 0x7F ==> r == '.'
    ensures 0x20 <= c < 0x7F ==> r == c as char
  {
    if c < 0x20 || c == 0x7F then '.'
    else if c < 0x7F || c in highPrintable then c as char
    else '.'
  }
}
