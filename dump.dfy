/**
 * The hex dump of a section's raw data (dump_rawdata), printed in -d mode:
 * 16 bytes per row, each row giving the offset of its first byte, the bytes
 * as two-digit hexadecimal cells (a '-' after the eighth, a blank after the
 * others) and the printable-character column. The last row may be partial.
 */
module Dump {
  import opened Text
  import opened PeImage
  import opened Renderers

  /** One printed row: the offset of its first byte, its hexadecimal cells and its text column. */
  datatype DumpRow = DumpRow(offset: nat, hex: string, text: string)

  /** The cell written for the byte in column k of a row: "%02X", then '-' in column 7 and ' ' elsewhere. */
  function Cell(b: Byte, k: nat): (s: string)
    ensures |s| == 3
  {
    [HexDigit(b / 16), HexDigit(b % 16), if k == 7 then '-' else ' ']
  }

  /** A cell is the byte as two hexadecimal digits, which read back as the byte, and its separator. */
  lemma CellMeaning(b: Byte, k: nat)
    ensures Cell(b, k)[..2] == Hex(b, 2)
    ensures ParseHex(Cell(b, k)[..2]) == b
    ensures Cell(b, k)[2] == if k == 7 then '-' else ' '
  {
    HexRoundTrip(b, 2);
  }

  /** The cells of the bytes p[a..b], the first in column 0. */
  function HexCells(p: seq<Byte>, a: nat, b: nat): (s: string)
    requires a <= b <= |p|
    ensures |s| == 3 * (b - a)
    decreases b
  {
    if b == a then [] else HexCells(p, a, b - 1) + Cell(p[b - 1], b - 1 - a)
  }

  /** Each column's cell holds that column's byte. */
  lemma {:induction false} HexCellsColumns(p: seq<Byte>, a: nat, b: nat)
    requires a <= b <= |p|
    ensures forall k :: 0 <= k < b - a ==> HexCells(p, a, b)[3 * k .. 3 * k + 3] == Cell(p[a + k], k)
    decreases b
  {
    if b > a {
      HexCellsColumns(p, a, b - 1);
      var s := HexCells(p, a, b);
      forall k | 0 <= k < b - a
        ensures s[3 * k .. 3 * k + 3] == Cell(p[a + k], k)
      {
        if k < b - 1 - a {
          assert s[3 * k .. 3 * k + 3] == HexCells(p, a, b - 1)[3 * k .. 3 * k + 3];
        }
      }
    }
  }

  /** The text column of the bytes p[a..b]: every byte through ascii. */
  function AsciiText(p: seq<Byte>, a: nat, b: nat, highPrintable: set<Byte>): (s: string)
    requires a <= b <= |p|
    ensures |s| == b - a
    decreases b
  {
    if b == a then [] else AsciiText(p, a, b - 1, highPrintable) + [Ascii(p[b - 1], highPrintable)]
  }

  /** The text of a range is the text of its two halves. */
  lemma {:induction false} AsciiTextSplit(p: seq<Byte>, a: nat, b: nat, c: nat, highPrintable: set<Byte>)
    requires a <= b <= c <= |p|
    ensures AsciiText(p, a, c, highPrintable) == AsciiText(p, a, b, highPrintable) + AsciiText(p, b, c, highPrintable)
    decreases c
  {
    if c > b {
      AsciiTextSplit(p, a, b, c - 1, highPrintable);
    }
  }

  /** The row for the len bytes of p starting at start. */
  function Row(p: seq<Byte>, start: nat, len: nat, highPrintable: set<Byte>): DumpRow
    requires start + len <= |p|
  {
    DumpRow(start, HexCells(p, start, start + len), AsciiText(p, start, start + len, highPrintable))
  }

  /** The first m full rows of 16 bytes. */
  function FullRows(p: seq<Byte>, m: nat, highPrintable: set<Byte>): (rows: seq<DumpRow>)
    requires 16 * m <= |p|
    ensures |rows| == m
  {
    seq(m, r requires 0 <= r < m => Row(p, 16 * r, 16, highPrintable))
  }

  /** The rows printed for p: every full row of 16 bytes, then the rest, if any, as one partial row. */
  function ChunkRows(p: seq<Byte>, highPrintable: set<Byte>): seq<DumpRow> {
    var m := |p| / 16;
    FullRows(p, m, highPrintable)
      + (if |p| % 16 != 0 then [Row(p, 16 * m, |p| % 16, highPrintable)] else [])
  }

  /** The text columns of the rows, one after the other. */
  function TextColumns(rows: seq<DumpRow>): string {
    if rows == [] then [] else TextColumns(rows[..|rows| - 1]) + rows[|rows| - 1].text
  }

  lemma {:induction false} FullRowsText(p: seq<Byte>, m: nat, highPrintable: set<Byte>)
    requires 16 * m <= |p|
    ensures TextColumns(FullRows(p, m, highPrintable)) == AsciiText(p, 0, 16 * m, highPrintable)
  {
    if m > 0 {
      FullRowsText(p, m - 1, highPrintable);
      assert FullRows(p, m, highPrintable)[..m - 1] == FullRows(p, m - 1, highPrintable);
      AsciiTextSplit(p, 0, 16 * (m - 1), 16 * m, highPrintable);
    }
  }

  /** Splitting a length into m full rows and i more bytes. */
  lemma RowSplit(n: nat, m: nat, i: nat)
    requires n == 16 * m + i && i < 16
    ensures n / 16 == m && n % 16 == i
  {
  }

  /**
   * The shape of the dump: row r starts at offset 16 * r; every row but the
   * last holds 16 bytes, the last between 1 and 16.
   */
  lemma DumpShape(p: seq<Byte>, highPrintable: set<Byte>)
    ensures var rows := ChunkRows(p, highPrintable);
      && |rows| == (|p| + 15) / 16
      && (forall r :: 0 <= r < |rows| ==> rows[r].offset == 16 * r)
      && (forall r :: 0 <= r < |rows| - 1 ==> |rows[r].text| == 16 && |rows[r].hex| == 48)
      && (rows != [] ==> 1 <= |rows[|rows| - 1].text| <= 16)
  {
  }

  /** The text columns, read in order, are the whole range through ascii. */
  lemma DumpCoversRange(p: seq<Byte>, highPrintable: set<Byte>)
    ensures TextColumns(ChunkRows(p, highPrintable)) == AsciiText(p, 0, |p|, highPrintable)
  {
    var m, i := |p| / 16, |p| % 16;
    var full := FullRows(p, m, highPrintable);
    FullRowsText(p, m, highPrintable);
    if i != 0 {
      var rows := full + [Row(p, 16 * m, i, highPrintable)];
      assert rows == ChunkRows(p, highPrintable);
      assert rows[..|rows| - 1] == full;
      AsciiTextSplit(p, 0, 16 * m, |p|, highPrintable);
      assert 16 * m + i == |p|;
    } else {
      assert full == ChunkRows(p, highPrintable);
      assert 16 * m == |p|;
    }
  }

  /**
   * One byte into column i of both buffers: sprintf of its cell into the
   * cell buffer, its character into the text buffer.
   */
  method PutByte(p: seq<Byte>, ghost start: nat, i: nat, j: nat, dump: array<char>, asc: array<char>, highPrintable: set<Byte>)
    requires j == start + i < |p| && i < 16
    requires dump.Length == 48 && asc.Length == 16 && dump != asc
    requires dump[..3 * i] == HexCells(p, start, j)
    requires asc[..i] == AsciiText(p, start, j, highPrintable)
    modifies dump, asc
    ensures dump[..3 * (i + 1)] == HexCells(p, start, j + 1)
    ensures asc[..i + 1] == AsciiText(p, start, j + 1, highPrintable)
  {
    var cell := Cell(p[j], i);
    dump[3 * i], dump[3 * i + 1], dump[3 * i + 2] := cell[0], cell[1], cell[2];
    assert dump[..3 * i + 3] == HexCells(p, start, start + i) + cell;
    asc[i] := Ascii(p[j], highPrintable);
    assert asc[..i + 1] == AsciiText(p, start, start + i, highPrintable) + [Ascii(p[j], highPrintable)];
  }

  /** A completed row of 16 buffered bytes is the next full row. */
  lemma RowComplete(p: seq<Byte>, m: nat, rows: seq<DumpRow>, cells: string, text: string, highPrintable: set<Byte>)
    requires 16 * m + 16 <= |p| && rows == FullRows(p, m, highPrintable)
    requires cells == HexCells(p, 16 * m, 16 * m + 16) && text == AsciiText(p, 16 * m, 16 * m + 16, highPrintable)
    ensures FullRows(p, m + 1, highPrintable) == rows + [DumpRow(16 * m, cells, text)]
  {
    var next := FullRows(p, m + 1, highPrintable);
    assert next[..m] == rows;
    assert next[m] == DumpRow(16 * m, cells, text);
    assert next == next[..m] + [next[m]];
  }

  /** Emitting the buffers once they hold 16 bytes: the row of the bytes from offset 16 * m. */
  method EmitRow(p: seq<Byte>, start: nat, ghost m: nat, rows: seq<DumpRow>, dump: array<char>, asc: array<char>, highPrintable: set<Byte>)
    returns (rows': seq<DumpRow>)
    requires start == 16 * m && start + 16 <= |p| && rows == FullRows(p, m, highPrintable)
    requires dump.Length == 48 && asc.Length == 16
    requires dump[..] == HexCells(p, 16 * m, 16 * m + 16) && asc[..] == AsciiText(p, 16 * m, 16 * m + 16, highPrintable)
    ensures rows' == FullRows(p, m + 1, highPrintable)
  {
    RowComplete(p, m, rows, dump[..], asc[..], highPrintable);
    rows' := rows + [DumpRow(start, dump[..], asc[..])];
  }

  /**
   * One pass of dump_rawdata's loop: the byte at j goes into column i of both
   * buffers; when that fills them, they are emitted as the next row and the
   * column starts again at 0.
   */
  method NextByte(p: seq<Byte>, dump: array<char>, asc: array<char>, highPrintable: set<Byte>,
                  i0: nat, j0: nat, ghost m0: nat, rows0: seq<DumpRow>)
    returns (i: nat, j: nat, ghost m: nat, rows: seq<DumpRow>)
    requires dump.Length == 48 && asc.Length == 16 && dump != asc
    requires i0 < 16 && j0 == 16 * m0 + i0 < |p| && rows0 == FullRows(p, m0, highPrintable)
    requires dump[..3 * i0] == HexCells(p, 16 * m0, j0) && asc[..i0] == AsciiText(p, 16 * m0, j0, highPrintable)
    modifies dump, asc
    ensures i < 16 && j == j0 + 1 && j == 16 * m + i && rows == FullRows(p, m, highPrintable)
    ensures dump[..3 * i] == HexCells(p, 16 * m, j) && asc[..i] == AsciiText(p, 16 * m, j, highPrintable)
  {
    PutByte(p, 16 * m0, i0, j0, dump, asc, highPrintable);
    i, j, m, rows := i0 + 1, j0 + 1, m0, rows0;
    if i >= 16 {
      assert dump[..] == dump[..3 * i] && asc[..] == asc[..i];
      rows := EmitRow(p, j - i, m, rows, dump, asc, highPrintable);
      i, m := 0, m + 1;
      assert dump[..0] == [] && asc[..0] == [];
    }
  }

  /** After the last byte: the full rows, then the i buffered bytes as a partial row when i is not 0, are the whole dump. */
  lemma RowsComplete(p: seq<Byte>, m: nat, i: nat, rows: seq<DumpRow>, cells: string, text: string, highPrintable: set<Byte>)
    requires |p| == 16 * m + i && i < 16 && rows == FullRows(p, m, highPrintable)
    requires cells == HexCells(p, 16 * m, |p|) && text == AsciiText(p, 16 * m, |p|, highPrintable)
    ensures ChunkRows(p, highPrintable) == rows + (if i != 0 then [DumpRow(16 * m, cells, text)] else [])
  {
    RowSplit(|p|, m, i);
  }

  /**
   * dump_rawdata: bytes are written one at a time into the cell buffer and
   * the text buffer at column i; when i reaches 16 the row is emitted and i
   * starts again at 0; a partial last row is emitted after the loop.
   */
  method DumpRawData(p: seq<Byte>, highPrintable: set<Byte>) returns (rows: seq<DumpRow>)
    ensures rows == ChunkRows(p, highPrintable)
  {
    var dump := new char[48];
    var asc := new char[16];
    var i: nat, j: nat := 0, 0;
    ghost var m: nat := 0;
    rows := [];
    while j < |p|
      invariant i < 16 && j == 16 * m + i && j <= |p| && rows == FullRows(p, m, highPrintable)
      invariant dump[..3 * i] == HexCells(p, 16 * m, j) && asc[..i] == AsciiText(p, 16 * m, j, highPrintable)
    {
      i, j, m, rows := NextByte(p, dump, asc, highPrintable, i, j, m, rows);
    }
    RowsComplete(p, m, i, rows, dump[..3 * i], asc[..i], highPrintable);
    if i != 0 {
      rows := rows + [DumpRow(j - i, dump[..3 * i], asc[..i])];
    }
  }
}
