# exediff comparison engine, modelled in Dafny

exediff compares two Windows PE (exe/dll) images structurally. It works in this order:

1. It diffs the COFF file header and the optional header field by field.
2. It pairs the sections by position.
3. For every section present in both images, it diffs the section header and the compared raw bytes.
4. It prints a closing verdict.

Compare turns the count into 0 (identical), 1 (differs) or 2 (a file failed to load).

In the folder mode, every file listed in DIR2 is compared with the file of the same name in DIR1. The per-pair results are ORed into the exit status.

The model covers the following, all from `src/exediff.cpp`:

| Area | Files |
|---|---|
| Images: loaded file header, optional header, section table and mapped bytes | pe_image.dfy |
| Configuration set by the options | settings.dfy |
| Hex and decimal rendering, joining, `strrchr` | text.dfy |
| Flag and enum renderers, `ascii` | renderers.dfy |
| The three `diff_header` overloads, as ordered field tables | field_diff.dfy |
| The raw byte differ `diff_rawdata` | raw_diff.dfy |
| The 16-byte rows of `dump_rawdata` | dump.dfy |
| The section differ `diff` | section_diff.dfy |
| Both `Compare` overloads and the `ret \|=` folder fold | compare.dfy |
| The option loop and operand dispatch in `main` | options.dfy |
| `has_wildcard`, `IsFolder` and `IsDotFolder` | paths.dfy |

How the model stands in for the program:

- Output is modelled as values rather than text:
  - `diff` returns its count together with the list of lines it prints (`SectionDiff.Line`);
  - `diff_rawdata` returns its bit together with its events (heading, differences, snip notice);
  - `dump_rawdata` returns its rows.
- The imperative parts are methods with loops, proved against specification functions:
  - the raw-byte loop;
  - the section loop;
  - the field tables;
  - the row buffers of `dump_rawdata`, which are arrays filled in place;
  - the strcat renderers;
  - the option loop;
  - the folder loop.
- Lemmas state what the program promises about those functions.

## Model

| member | source | states |
|---|---|---|
| PeImage.SizeOfRawData | src/exediff.cpp:661-664 | the compared size is the smaller of VirtualSize and SizeOfRawData: it is at most both and equal to one of them |
| PeImage.RawData | src/exediff.cpp:715-717 | section i's compared bytes are the mapped bytes from PointerToRawData on, exactly size_of_rawdata of them, so never more than VirtualSize or SizeOfRawData |
| PeImage.CutAtNul | src/exediff.cpp:473 | a C string read from bytes is a prefix free of NUL that ends at the first NUL or at the end |
| PeImage.SectionNameMeaning | src/exediff.cpp:599 | the section name compared by DIFFSTR has at most 8 bytes and no NUL; it is a prefix of the Name field ending at the 8th byte, the field's end or a NUL |
| Text.LastIndexOf | src/exediff.cpp:350-351 | strrchr: -1 or the index of a c with no c after it |
| Text.TerminatedIsJoin | src/exediff.cpp:332-347 | appending "label, " per matching row equals the labels joined by ", " plus one trailing ", " |
| Renderers.Labels | src/exediff.cpp:332-347 | at most one label per table row |
| Renderers.LabelsComplete | src/exediff.cpp:332 | every row whose mask shares a bit with the flags contributes its label |
| Renderers.LabelsSound | src/exediff.cpp:332 | every label comes from a row whose mask shares a bit with the flags |
| Renderers.LabelsEmpty | src/exediff.cpp:332-347 | no label exactly when no mask shares a bit with the flags |
| Renderers.LabelsAppend | src/exediff.cpp:332-347 | the labels of two tables run one after the other are the labels of the first followed by those of the second |
| Renderers.CutAtLastComma | src/exediff.cpp:350-352 | cutting the buffer at its last comma leaves the hex prefix plus the labels joined by ", ", and the same when nothing matched |
| Renderers.LabelsStep | src/exediff.cpp:332 | one M(...) step appends "label, " exactly when `flags & mask` is nonzero |
| Renderers.RenderFlags | src/exediff.cpp:326-355 | the strcat loop over the table and the final cut build exactly FlagsText |
| Renderers.ImageCharacteristicsString | src/exediff.cpp:326-355 | the file characteristics text: 4 hex digits, then "(", then the labels of the 15-row table, then ")" |
| Renderers.SectionCharacteristicsString | src/exediff.cpp:357-409 | the section characteristics text: 8 hex digits, then "(", then the labels of the 26-row table, then ")" |
| Renderers.FlagsTextMeaning | src/exediff.cpp:326-409 | the text starts with the flags in hex (it parses back to them) followed by "(" and ends with ")"; it is hex + "()" when no row matches; the labels are exactly the rows sharing a bit |
| Renderers.AlignCodesOverlap | src/exediff.cpp:386-392 | because masks are tested with `&`, the 16-byte ALIGN code 0x00500000 prints exactly the 1-, 4-, 8-, 16-, 32- and 64-byte ALIGN labels, and not the 2-byte one |
| Renderers.MachineString | src/exediff.cpp:430-447 | 4 hex digits that parse back to the value, then "(" and ")"; the label is "?" exactly for values outside I386, IA64, ALPHA and POWERPC |
| Renderers.SubsystemString | src/exediff.cpp:411-428 | 4 hex digits that parse back to the value, then "(" and ")"; the label is "?" exactly for values outside 0, 1, 3, 7 and 9 |
| Renderers.Ascii | src/exediff.cpp:321-324 | the result is the byte itself or '.'; control bytes 0x00-0x1F and 0x7F give '.'; printable ASCII bytes give themselves |
| FieldDiff.Check | src/exediff.cpp:467-474 | one DIFF* macro reports one mismatch exactly when the raw values differ |
| FieldDiff.MismatchesSnoc | src/exediff.cpp:487-498 | the report of a table grows field by field in table order |
| FieldDiff.MismatchesCount | src/exediff.cpp:466-474 | the number of reported mismatches equals the number of differing fields (`++differ` per mismatch) |
| FieldDiff.MismatchesEmptyIff | src/exediff.cpp:466-474 | no mismatch exactly when the two field tables are equal |
| FieldDiff.MismatchesReportRows | src/exediff.cpp:466-474 | every differing field is reported with its name and both values, and nothing else is reported |
| FieldDiff.DiffHeader | src/exediff.cpp:466-474 | the straight-line DIFF* sequence as a loop: the count is the number of mismatches; the report is empty in quiet mode and the full mismatch list otherwise |
| FieldDiff.FileHeaderFields | src/exediff.cpp:487-498 | the file-header table has 7 fields, or 6 under -t |
| FieldDiff.FileHeaderDifferences | src/exediff.cpp:487-498 | the file-header count is at most 7, at most 6 under -t, and 0 for identical headers |
| FieldDiff.FileHeaderIdentical | src/exediff.cpp:487-498 | the count is 0 exactly when the headers are equal, apart from TimeDateStamp under -t |
| FieldDiff.FileHeaderCountWithTime | src/exediff.cpp:490-496 | without -t the table counts Machine, NumberOfSections, TimeDateStamp, PointerToSymbolTable, NumberOfSymbols, SizeOfOptionalHeader and Characteristics, one each |
| FieldDiff.FileHeaderCountWithoutTime | src/exediff.cpp:492 | under -t the table count equals the count without TimeDateStamp |
| FieldDiff.FileHeaderCount | src/exediff.cpp:487-498 | the table count is the per-field count, with or without -t |
| FieldDiff.OptionalStandardFields | src/exediff.cpp:539-546 | the first 8 optional-header fields, Magic through BaseOfData |
| FieldDiff.OptionalStandardFieldsCount | src/exediff.cpp:539-546 | Magic, LinkerVersion (1 if major or minor differs) and SizeOfCode through BaseOfData count one each |
| FieldDiff.OptionalLayoutFields | src/exediff.cpp:547-552 | the next 6 optional-header fields, ImageBase through SubsystemVersion |
| FieldDiff.OptionalLayoutFieldsCount | src/exediff.cpp:547-552 | ImageBase, SectionAlignment, FileAlignment and the three version pairs count one each |
| FieldDiff.OptionalImageFields | src/exediff.cpp:553-558 | the next 6 optional-header fields, Win32VersionValue through DllCharacteristics |
| FieldDiff.OptionalImageFieldsCount | src/exediff.cpp:553-558 | Win32VersionValue, SizeOfImage, SizeOfHeaders, CheckSum, Subsystem and DllCharacteristics count one each |
| FieldDiff.OptionalMemoryFields | src/exediff.cpp:559-564 | the last 6 optional-header fields, SizeOfStackReserve through NumberOfRvaAndSizes |
| FieldDiff.OptionalMemoryFieldsCount | src/exediff.cpp:559-564 | the stack and heap sizes, LoaderFlags and NumberOfRvaAndSizes count one each |
| FieldDiff.OptionalFields | src/exediff.cpp:536-573 | the optional-header table has 26 entries |
| FieldDiff.OptionalHeaderDifferences | src/exediff.cpp:536-573 | the optional-header count is at most 26 and 0 for identical headers |
| FieldDiff.OptionalHeaderIdentical | src/exediff.cpp:536-573 | the count is 0 exactly when the headers agree apart from DataDirectory, which is never compared |
| FieldDiff.OptionalHeaderCount | src/exediff.cpp:536-573 | the table count is the per-field count |
| FieldDiff.SectionPlacementFields | src/exediff.cpp:599-603 | the first 5 section-header fields, Name through PointerToRawData |
| FieldDiff.SectionPlacementFieldsCount | src/exediff.cpp:599-603 | Name (compared as C strings), VirtualSize, VirtualAddress, SizeOfRawData and PointerToRawData count one each |
| FieldDiff.SectionRelocationFields | src/exediff.cpp:604-608 | the last 5 section-header fields |
| FieldDiff.SectionRelocationFieldsCount | src/exediff.cpp:604-608 | PointerToRelocations, PointerToLinenumbers, the two counts and Characteristics count one each |
| FieldDiff.SectionFields | src/exediff.cpp:589-610 | the section-header table has 10 entries |
| FieldDiff.SectionHeaderDifferences | src/exediff.cpp:589-610 | the section-header count is at most 10 and 0 for identical headers |
| FieldDiff.SectionHeaderIdentical | src/exediff.cpp:589-610 | the count is 0 exactly when the names agree as C strings and every other field is equal |
| FieldDiff.SectionHeaderCount | src/exediff.cpp:589-610 | the table count is the per-field count |
| FieldDiff.DiffFileHeader | src/exediff.cpp:487-498 | diff_header on file headers: the count is FileHeaderDifferences whatever the quiet setting; the report lists the mismatches unless quiet |
| FieldDiff.DiffOptionalHeader | src/exediff.cpp:536-573 | diff_header on optional headers: the count is OptionalHeaderDifferences whatever the quiet setting; the report lists the mismatches unless quiet |
| FieldDiff.DiffSectionHeader | src/exediff.cpp:589-610 | diff_header on section headers: the count is SectionHeaderDifferences whatever the quiet setting; the report lists the mismatches unless quiet |
| RawDiff.At | src/exediff.cpp:638-639 | a position reads as absent exactly when it is past the end |
| RawDiff.Sentinel | src/exediff.cpp:638-639 | the C reading is a byte 0..255 or the sentinel -1 |
| RawDiff.SentinelAgrees | src/exediff.cpp:638-641 | comparing the C readings (with -1) is the same as comparing byte-or-absent cells, so the sentinel equals no byte |
| RawDiff.DiffPositions | src/exediff.cpp:637-641 | at most k differing positions below k |
| RawDiff.DiffPositionsSound | src/exediff.cpp:637-641 | every listed position is below k and the two sides differ there |
| RawDiff.DiffPositionsComplete | src/exediff.cpp:637-641 | every position below k where the sides differ is listed |
| RawDiff.DiffPositionsSorted | src/exediff.cpp:637 | the positions are listed in strictly increasing order |
| RawDiff.DiffPositionsMeaning | src/exediff.cpp:637-641 | the list is sound, complete and strictly increasing |
| RawDiff.DiffPositionsPrefix | src/exediff.cpp:637 | scanning further only extends the list |
| RawDiff.DifferencesEmptyIff | src/exediff.cpp:637-641 | no differing position up to max(n1, n2) exactly when the byte ranges are equal, so a length difference counts |
| RawDiff.SingleByteChange | src/exediff.cpp:637-641 | changing one byte gives exactly that one differing position |
| RawDiff.ReportedEmptyIff | src/exediff.cpp:643-656 | nothing is reported exactly when the ranges are equal |
| RawDiff.ReportedLayout | src/exediff.cpp:643-656 | for unequal ranges: the heading, then the first min(M, cap) differences, then the snip notice when M > cap |
| RawDiff.ReportedShape | src/exediff.cpp:643-656 | the heading appears once, first; the differences are the first min(M, cap) differing offsets in increasing order, each with differing sides; there is exactly one snip, and it comes last, exactly when M > cap |
| RawDiff.ReportedSoFarStep | src/exediff.cpp:641-656 | a difference within the cap appends its event, preceded by the heading when it is the first |
| RawDiff.ReportedComplete | src/exediff.cpp:637-657 | with at most cap differences the full scan reports everything it found |
| RawDiff.ReportedSnipped | src/exediff.cpp:646-648 | at the (cap+1)-th difference the scan stops with exactly the final report plus one snip |
| RawDiff.ScanAt | src/exediff.cpp:637-657 | one loop pass keeps the count and the events equal to the scan so far, or stops exactly at the (cap+1)-th difference with the final report |
| RawDiff.DiffRawData | src/exediff.cpp:634-659 | diff_rawdata returns 1 exactly when the ranges differ, whatever the cap and the quiet setting; its events are Reported unless quiet; it stops at max(n1, n2) or at the (cap+1)-th difference |
| Dump.Cell | src/exediff.cpp:620 | each byte is a 3-character cell |
| Dump.CellMeaning | src/exediff.cpp:620 | a cell is the byte in two upper-case hex digits (which parse back to it), then '-' after the 8th byte of the row and ' ' otherwise |
| Dump.HexCells | src/exediff.cpp:620 | the hex column of bytes a..b is 3 characters per byte |
| Dump.HexCellsColumns | src/exediff.cpp:620 | cell k of the hex column is the cell of byte a+k at column k |
| Dump.AsciiText | src/exediff.cpp:621 | the text column has one character per byte |
| Dump.AsciiTextSplit | src/exediff.cpp:621 | the text column of a range is the concatenation of the columns of its parts |
| Dump.FullRows | src/exediff.cpp:618-627 | m complete rows |
| Dump.FullRowsText | src/exediff.cpp:618-627 | the text columns of the full rows spell the first 16m bytes |
| Dump.DumpShape | src/exediff.cpp:612-632 | ceil(n/16) rows; row r starts at offset 16r; every row but the last is full (16 bytes, 48 hex characters); the last has 1 to 16 bytes |
| Dump.DumpCoversRange | src/exediff.cpp:612-632 | the rows together show every byte once, in order |
| Dump.PutByte | src/exediff.cpp:619-621 | writing one byte extends both buffers by its cell and its character |
| Dump.RowComplete | src/exediff.cpp:622-626 | a full buffer adds exactly the next full row |
| Dump.EmitRow | src/exediff.cpp:622-626 | printing a full buffer extends the rows by the next row |
| Dump.NextByte | src/exediff.cpp:618-627 | one loop pass keeps the buffers equal to the current partial row and the rows equal to the full rows so far |
| Dump.RowsComplete | src/exediff.cpp:628-631 | the full rows plus the partial row (when i != 0) are the whole dump |
| Dump.DumpRawData | src/exediff.cpp:612-632 | the buffer loop prints exactly ChunkRows |
| SectionDiff.SectionDifferenceBound | src/exediff.cpp:705-717 | each index adds at most 11, and exactly 1 when only one image has it |
| SectionDiff.SectionDifferenceZero | src/exediff.cpp:705-717 | an index adds 0 exactly when both images have it, with equal headers (names as C strings) and equal compared bytes |
| SectionDiff.SectionsDifferenceTotal | src/exediff.cpp:700-718 | the section count is the sum of the per-index shares |
| SectionDiff.SectionsDifferenceZero | src/exediff.cpp:700-718 | the section count is 0 exactly when every index adds 0 |
| SectionDiff.DiffCountZeroIff | src/exediff.cpp:689-726 | diff counts 0 exactly when the file headers are equal (apart from TimeDateStamp under -t), the optional headers are equal apart from DataDirectory, the section counts match and every section has the same header and bytes |
| SectionDiff.DiffCountSelf | src/exediff.cpp:689-726 | an image compared with itself counts 0 |
| SectionDiff.SectionsLinesQuiet | src/exediff.cpp:705-717 | in quiet mode the section loop prints only the "section is only in" notices |
| SectionDiff.ReportQuiet | src/exediff.cpp:693-723 | in quiet mode diff prints only the "only in" notices and then the verdict, which says identical exactly when the count is 0 |
| SectionDiff.ReportVerdict | src/exediff.cpp:720-723 | the last line is always the verdict, identical exactly when the count is 0 |
| SectionDiff.DiffSectionAt | src/exediff.cpp:701-717 | one pass adds the index's share and prints its lines |
| SectionDiff.SectionsStep | src/exediff.cpp:700-718 | one more index extends the count and the lines by that index's share |
| SectionDiff.NextSection | src/exediff.cpp:700-718 | the loop body keeps the totals equal to the indices scanned so far |
| SectionDiff.DiffSections | src/exediff.cpp:700-718 | the section loop counts SectionsDifference over max(n1, n2) indices |
| SectionDiff.Diff | src/exediff.cpp:689-726 | diff returns DiffCount, which does not depend on quiet mode or the cap, and prints Report |
| Compare.ImageDump | src/exediff.cpp:677-686 | print dumps one raw-data block per section |
| Compare.PrintImage | src/exediff.cpp:666-687 | print's section loop dumps every section's compared bytes in table order |
| Compare.CompareImages | src/exediff.cpp:734-741 | dumps both images under -d, then returns 1 when diff counts something and 0 otherwise |
| Compare.FilesOutcome | src/exediff.cpp:748-753 | the code is 0, 1 or 2 |
| Compare.CompareFiles | src/exediff.cpp:748-753 | loading in order, returning 2 at the first failed load, matches FilesOutcome |
| Compare.FilesOutcomeCode | src/exediff.cpp:734-753 | 2 exactly when a file fails to load, with one failure reported and nothing dumped or diffed; 0 exactly when both load and diff counts 0; otherwise the verdict line agrees with the code |
| Compare.SecondNotLoaded | src/exediff.cpp:750 | when the first file fails, the second is not looked at: the outcome does not depend on it, and only the first is reported |
| Compare.CompareSelf | src/exediff.cpp:748-753 | a loadable file compared with itself gives 0 |
| Compare.Or | src/exediff.cpp:827 | `ret \|= code` stays within 0..3 |
| Compare.OrIsBitwise | src/exediff.cpp:827 | Or is C's bitwise OR on 2-bit values |
| Compare.BatchOutcomes | src/exediff.cpp:820-828 | at most one outcome per listing entry, each 0, 1 or 2 |
| Compare.BatchCode | src/exediff.cpp:798-830 | the folder status lies in 0..3 |
| Compare.BatchCodeMeaning | src/exediff.cpp:798-830 | bit 0 of the status is set exactly when some pair differs; it is 2 or more exactly when some load failed; it is 0 exactly when every pair is identical |
| Compare.NextEntry | src/exediff.cpp:820-828 | one loop pass skips a folder, or compares the pair and ORs in its code |
| Compare.CompareFolders | src/exediff.cpp:816-828 | the folder loop compares every non-folder entry in batch mode and returns the OR of the codes |
| CommandLine.SkipSpaces | src/exediff.cpp:767 | %i skips a prefix of white space and stops at the first other character |
| CommandLine.DigitRunMeaning | src/exediff.cpp:767 | %i reads the longest run of digits valid in the base |
| CommandLine.DecimalDigitsRead | src/exediff.cpp:767 | an all-decimal string is read in full as its decimal value |
| CommandLine.ScanUnsignedDecimal | src/exediff.cpp:767 | the unsigned part of %i reads a decimal rendering back as its value |
| CommandLine.ScanDecimal | src/exediff.cpp:767 | %i reads a decimal rendering back as its value |
| CommandLine.ToSizeT | src/exediff.cpp:768 | assigning the int to size_t keeps values in 0..2^32-1 and adds 2^32 to negative ones |
| CommandLine.LettersFlags | src/exediff.cpp:770-788 | a run of t, d and q letters sets exactly the flags it names, in any order and with repeats |
| CommandLine.ParseRun | src/exediff.cpp:762-796 | on success, the operands are the last 2 or more arguments; the first operand does not start with '-', and every argument before it does |
| CommandLine.ParseOption | src/exediff.cpp:762-793 | one option argument either applies and the loop goes on, or requests help, or aborts naming the unknown letter |
| CommandLine.BareDash | src/exediff.cpp:770-785 | a bare "-" aborts as an unknown option (its letter is the terminating NUL) |
| CommandLine.NumberOption | src/exediff.cpp:767-768 | "-n<N>" sets the cap to N |
| CommandLine.ScanMinusOne | src/exediff.cpp:767 | %i reads "-1" as -1 |
| CommandLine.NegativeNumberOption | src/exediff.cpp:767-768 | "-n-1" sets the cap to 2^32-1 (size_t wrap-around) |
| CommandLine.HelpOption | src/exediff.cpp:765-766 | "-help" shows the help |
| CommandLine.HelpLetters | src/exediff.cpp:772-773 | "-h" and "-?" show the help, and so does "h" after other letters |
| CommandLine.ScanLetters | src/exediff.cpp:770-788 | the do-while letter loop computes Letters |
| CommandLine.ParseCommandLine | src/exediff.cpp:762-796 | the option loop and the operand check compute Parse from the default configuration |
| CommandLine.DispatchOperands | src/exediff.cpp:800-813 | with three or more operands, main uses folder mode with the third operand as the pattern, and later operands are ignored |
| CommandLine.DispatchTwoOperands | src/exediff.cpp:811-813 | with two operands in folder mode the pattern is "*"; DIR2 is split exactly when it contains '*' or '?' |
| Paths.FirstWildcard | src/exediff.cpp:141-144 | strpbrk: -1 or an index inside the string |
| Paths.FirstWildcardMeaning | src/exediff.cpp:141-144 | a non-negative result is the first '*' or '?'; -1 means there is none |
| Paths.HasWildcardIff | src/exediff.cpp:141-144 | has_wildcard holds exactly when the name contains '*' or '?' |
| Paths.IsDotFolderIff | src/exediff.cpp:256-261 | for a C-string name: a dot folder is exactly a folder (subdirectory bit set) named "." or ".." |

## Left out

- Loading and unloading an image through MapAndLoad and UnMapAndLoad is a foreign call.
  - The loader is a map from file locations to loaded images: a missing key is a failed load.
  - Every image is assumed to hold each section's compared bytes, [PointerToRawData, +size_of_rawdata), inside the mapped file (`RawDataInFile`, and `Loadable` for the file map); the diff and Compare members require it. A truncated or corrupt image whose section runs past the end of the file is excluded: the program does not check this and reads past the mapping (src/exediff.cpp:685 and 715-717), which the model does not capture.
- The file system is not modelled:
  - `IsExistFile` is the `firstIsFile` parameter of `Dispatch`.
  - The `FindFile` listing of DIR2 is the `entries` parameter of `CompareFolders`.
  - `ValidateFolder`, `IsExistFolder` and the path-length aborts in `FindFile::Open` are not modelled.
- `separate_pathname`, `_makepath` and `_splitpath` are not modelled.
  - A path is a `Location` pair of folder and file name.
  - `Dispatch` records only whether DIR2 is split, not how.
- `FindFile::IsDotFolder` is modelled, although `main` does not call it: it skips every folder with `IsFolder`.
- The text of `print_win32error` and the `error_abort` family is not modelled. A failed load is recorded in `Outcome.failed`. Every abort is a `Command` alternative, exiting with `ExitFailure`, which is 1.
  - A usage error therefore exits with the same status as "differ". The PE images are not involved.
- The header part of `ExeFileImage::print` (`dump_header`, src/exediff.cpp:476-587) is not modelled. The model keeps only the raw-data dumps of the sections.
- `TimeDateString` depends on ctime, the time zone and the locale. Timestamps are compared as raw integers, as the program does.
- Exact printf formatting is not modelled: column widths, `%p` offsets and the prompt strings of the dump rows. Reports are values, not text.
- `Renderers.Ascii`: bytes 0x80 and above depend on `setlocale(LC_ALL, "")`.
  - They are printable exactly when they are in the `highPrintable` parameter.
  - Only the control and ASCII ranges are fixed.
- `CommandLine.ScanInteger`: "%i" values beyond the range of int are not modelled. The value is kept unbounded before the size_t wrap-around.
  - `isspace` is taken in the C locale.
- Two C artefacts are not reproduced:
  - the `Sections[i]` reference of the missing side, taken before the bounds checks at src/exediff.cpp:701-702; only the existing side is read;
  - `strcmp` reading past the 8-byte Name field when it has no NUL; names are at most 8 bytes, cut at the first NUL.
- `CommandLine.ToSizeT` models the `int` to `size_t` conversion of `-n` for a 32-bit build only: it wraps modulo 2^32, so "-n-1" sets the cap to 2^32-1. A 64-bit build would wrap modulo 2^64.
- Help is requested with "-help", as the code checks `strcmp(sw, "help")`.
  - "--help" reaches the letter loop and aborts as unknown option '-'.
  - The model follows the code.
