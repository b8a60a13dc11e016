/**
 * Text rendering used by the report: fixed-width upper-case hexadecimal
 * (printf "%0<w>X"), unsigned decimal (printf "%d" / "%u"), joining labels,
 * and the last-occurrence search that strrchr performs.
 */
module Text {

  predicate IsHexDigit(c: char) {
    '0' <= c <= '9' || 'A' <= c <= 'F' || 'a' <= c <= 'f'
  }

  predicate IsDecimalDigit(c: char) {
    '0' <= c <= '9'
  }

  function HexDigitValue(c: char): (d: nat)
    requires IsHexDigit(c)
    ensures d < 16
  {
    if '0' <= c <= '9' then c as int - '0' as int
    else if 'A' <= c <= 'F' then c as int - 'A' as int + 10
    else c as int - 'a' as int + 10
  }

  /** The upper-case digit that "%X" writes for d. */
  function HexDigit(d: nat): (c: char)
    requires d < 16
    ensures IsHexDigit(c) && HexDigitValue(c) == d && c != ','
  {
    if d < 10 then ('0' as int + d) as char else ('A' as int + d - 10) as char
  }

  function Power16(n: nat): (r: nat)
    ensures r >= 1
  {
    if n == 0 then 1 else 16 * Power16(n - 1)
  }

  /** "%0<width>X": v in exactly `width` upper-case hexadecimal digits. */
  function Hex(v: nat, width: nat): (s: string)
    requires v < Power16(width)
    ensures |s| == width
    ensures forall i :: 0 <= i < |s| ==> IsHexDigit(s[i]) && s[i] != ','
  {
    if width == 0 then []
    else
      assert v / 16 < Power16(width - 1);
      Hex(v / 16, width - 1) + [HexDigit(v % 16)]
  }

  /** Reads a string of hexadecimal digits back into its value. */
  function ParseHex(s: string): nat
    requires forall i :: 0 <= i < |s| ==> IsHexDigit(s[i])
  {
    if s == [] then 0 else 16 * ParseHex(s[..|s| - 1]) + HexDigitValue(s[|s| - 1])
  }

  /** The hexadecimal rendering loses nothing: reading it back gives the value. */
  lemma {:induction false} HexRoundTrip(v: nat, width: nat)
    requires v < Power16(width)
    ensures ParseHex(Hex(v, width)) == v
  {
    if width > 0 {
      assert v / 16 < Power16(width - 1);
      var s := Hex(v, width);
      assert s[..|s| - 1] == Hex(v / 16, width - 1);
      HexRoundTrip(v / 16, width - 1);
    }
  }

  function DecimalDigitValue(c: char): (d: nat)
    requires IsDecimalDigit(c)
    ensures d < 10
  {
    c as int - '0' as int
  }

  function DecimalDigit(d: nat): (c: char)
    requires d < 10
    ensures IsDecimalDigit(c) && DecimalDigitValue(c) == d
  {
    ('0' as int + d) as char
  }

  /** "%d" of a non-negative value: no leading zeros, "0" for zero. */
  function Decimal(n: nat): (s: string)
    ensures 1 <= |s|
    ensures forall i :: 0 <= i < |s| ==> IsDecimalDigit(s[i])
    ensures |s| > 1 ==> s[0] != '0'
  {
    if n < 10 then [DecimalDigit(n)] else Decimal(n / 10) + [DecimalDigit(n % 10)]
  }

  /** Reads a string of decimal digits back into its value. */
  function ParseDecimal(s: string): nat
    requires forall i :: 0 <= i < |s| ==> IsDecimalDigit(s[i])
  {
    if s == [] then 0 else 10 * ParseDecimal(s[..|s| - 1]) + DecimalDigitValue(s[|s| - 1])
  }

  lemma {:induction false} DecimalRoundTrip(n: nat)
    ensures ParseDecimal(Decimal(n)) == n
  {
    if n >= 10 {
      var s := Decimal(n);
      assert s[..|s| - 1] == Decimal(n / 10);
      DecimalRoundTrip(n / 10);
    }
  }

  /** The labels joined by sep, in order. */
  function Join(labels: seq<string>, sep: string): string {
    if |labels| == 0 then []
    else if |labels| == 1 then labels[0]
    else Join(labels[..|labels| - 1], sep) + sep + labels[|labels| - 1]
  }

  /** Every label followed by sep, in order: what repeated strcat(buf, label + sep) appends. */
  function Terminated(labels: seq<string>, sep: string): string {
    if labels == [] then [] else Terminated(labels[..|labels| - 1], sep) + labels[|labels| - 1] + sep
  }

  /** Appending "label, " for each label is the join followed by one trailing separator. */
  lemma {:induction false} TerminatedIsJoin(labels: seq<string>, sep: string)
    requires labels != []
    ensures Terminated(labels, sep) == Join(labels, sep) + sep
  {
    if |labels| > 1 {
      var init := labels[..|labels| - 1];
      assert init[..|init| - 1] == labels[..|labels| - 2];
      TerminatedIsJoin(init, sep);
    } else {
      assert labels[..0] == [];
    }
  }

  /** strrchr: the index of the last occurrence of c in s, or -1 when there is none. */
  function LastIndexOf(s: string, c: char): (r: int)
    ensures -1 <= r < |s|
    ensures r >= 0 ==> s[r] == c
    ensures forall k :: r < k < |s| ==> s[k] != c
  {
    if s == [] then -1
    else if s[|s| - 1] == c then |s| - 1
    else LastIndexOf(s[..|s| - 1], c)
  }
}
