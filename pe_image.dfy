/**
 * The loaded image of one PE (Portable Executable) file, as the image loader
 * hands it to the comparison: the COFF file header (section 3.3 of the
 * Microsoft PE/COFF specification), the optional header (section 3.4), the
 * section table (section 4) and the mapped file bytes. Field widths follow
 * the specification: BYTE, WORD and DWORD fields are bounded integers.
 */
module PeImage {

  type Byte = x: int | 0 <= x < 0x100
  type Word = x: int | 0 <= x < 0x1_0000
  type DWord = x: int | 0 <= x < 0x1_0000_0000

  function Min(a: int, b: int): int { if a <= b then a else b }
  function Max(a: int, b: int): int { if a >= b then a else b }

  /** IMAGE_FILE_HEADER (COFF file header). */
  datatype FileHeader = FileHeader(
    machine: Word,
    numberOfSections: Word,
    timeDateStamp: DWord,
    pointerToSymbolTable: DWord,
    numberOfSymbols: DWord,
    sizeOfOptionalHeader: Word,
    characteristics: Word)

  /** One IMAGE_DATA_DIRECTORY entry: an (address, size) pair. */
  datatype DataDirectory = DataDirectory(virtualAddress: DWord, size: DWord)

  /** IMAGE_OPTIONAL_HEADER (the 32-bit form). */
  datatype OptionalHeader = OptionalHeader(
    magic: Word,
    majorLinkerVersion: Byte,
    minorLinkerVersion: Byte,
    sizeOfCode: DWord,
    sizeOfInitializedData: DWord,
    sizeOfUninitializedData: DWord,
    addressOfEntryPoint: DWord,
    baseOfCode: DWord,
    baseOfData: DWord,
    imageBase: DWord,
    sectionAlignment: DWord,
    fileAlignment: DWord,
    majorOperatingSystemVersion: Word,
    minorOperatingSystemVersion: Word,
    majorImageVersion: Word,
    minorImageVersion: Word,
    majorSubsystemVersion: Word,
    minorSubsystemVersion: Word,
    win32VersionValue: DWord,
    sizeOfImage: DWord,
    sizeOfHeaders: DWord,
    checkSum: DWord,
    subsystem: Word,
    dllCharacteristics: Word,
    sizeOfStackReserve: DWord,
    sizeOfStackCommit: DWord,
    sizeOfHeapReserve: DWord,
    sizeOfHeapCommit: DWord,
    loaderFlags: DWord,
    numberOfRvaAndSizes: DWord,
    dataDirectory: seq<DataDirectory>)

  /** IMAGE_SECTION_HEADER; `name` holds the raw bytes of the 8-byte Name field. */
  datatype SectionHeader = SectionHeader(
    name: seq<Byte>,
    virtualSize: DWord,
    virtualAddress: DWord,
    sizeOfRawData: DWord,
    pointerToRawData: DWord,
    pointerToRelocations: DWord,
    pointerToLinenumbers: DWord,
    numberOfRelocations: Word,
    numberOfLinenumbers: Word,
    characteristics: DWord)

  /** A loaded image: module name, headers, section table in file order, mapped bytes. */
  datatype Image = Image(
    moduleName: string,
    fileHeader: FileHeader,
    optionalHeader: OptionalHeader,
    sections: seq<SectionHeader>,
    mapped: seq<Byte>)

  /**
   * The section name as a C string: at most the 8 bytes of the field, cut at
   * the first NUL.
   */
  function SectionName(s: SectionHeader): seq<Byte> {
    CutAtNul(s.name[..Min(8, |s.name|)])
  }

  /**
   * The name is a prefix of at most 8 bytes of the field, holds no NUL, and
   * ends at the eighth byte, at the end of the field or at a NUL.
   */
  lemma SectionNameMeaning(s: SectionHeader)
    ensures var r := SectionName(s);
      && |r| <= 8 && |r| <= |s.name| && r == s.name[..|r|]
      && (forall k :: 0 <= k < |r| ==> r[k] != 0)
      && (|r| < Min(8, |s.name|) ==> s.name[|r|] == 0)
  {
    var b := s.name[..Min(8, |s.name|)];
    var r := CutAtNul(b);
    assert r == b[..|r|];
  }

  function CutAtNul(b: seq<Byte>): (r: seq<Byte>)
    ensures |r| <= |b| && r == b[..|r|]
    ensures forall k :: 0 <= k < |r| ==> r[k] != 0
    ensures |r| < |b| ==> b[|r|] == 0
  {
    if b == [] || b[0] == 0 then [] else [b[0]] + CutAtNul(b[1..])
  }

  /**
   * size_of_rawdata: the number of bytes of a section that are compared,
   * the smaller of its virtual size and its size on disk.
   */
  function SizeOfRawData(s: SectionHeader): (n: DWord)
    ensures n <= s.virtualSize && n <= s.sizeOfRawData
    ensures n == s.virtualSize || n == s.sizeOfRawData
  {
    Min(s.virtualSize, s.sizeOfRawData)
  }

  /**
   * Every section's compared bytes lie inside the mapped file. The program
   * does not check this; the model assumes it, leaving out images whose
   * section data runs past the end of the file.
   */
  predicate RawDataInFile(img: Image) {
    forall i :: 0 <= i < |img.sections| ==>
      img.sections[i].pointerToRawData + SizeOfRawData(img.sections[i]) <= |img.mapped|
  }

  /** The compared bytes of section i: [PointerToRawData, +SizeOfRawData). */
  function RawData(img: Image, i: nat): (r: seq<Byte>)
    requires RawDataInFile(img) && i < |img.sections|
    ensures |r| == SizeOfRawData(img.sections[i])
    ensures |r| <= img.sections[i].sizeOfRawData && |r| <= img.sections[i].virtualSize
  {
    var s := img.sections[i];
    img.mapped[s.pointerToRawData .. s.pointerToRawData + SizeOfRawData(s)]
  }
}
