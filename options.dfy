/**
 * The command line of main: the option loop, which sets the run
 * configuration from the leading "-" arguments, and the choice between the
 * file mode (FILE1 FILE2) and the folder mode (DIR1 DIR2 [WILD]).
 */
module CommandLine {
  import opened Text
  import opened Settings
  import opened Paths

  datatype Option<T> = None | Some(value: T)

  /** isspace in the C locale: blank, tab, newline, vertical tab, form feed, carriage return. */
  predicate IsSpace(c: char) {
    c == ' ' || c == '\t' || c == '\n' || c as int == 11 || c as int == 12 || c == '\r'
  }

  /** The white space that "%i" skips before the number. */
  function SkipSpaces(s: string): (r: string)
    ensures |r| <= |s| && r == s[|s| - |r|..]
    ensures r != [] ==> !IsSpace(r[0])
    ensures forall k :: 0 <= k < |s| - |r| ==> IsSpace(s[k])
  {
    if s != [] && IsSpace(s[0]) then
      var r := SkipSpaces(s[1..]);
      assert forall k :: 1 <= k < |s| - |r| ==> s[k] == s[1..][k - 1];
      r
    else s
  }

  /** The value of c as a digit of a base up to 16, and 16 for a character that is no digit. */
  function DigitValue(c: char): (d: nat)
    ensures d <= 16
  {
    if IsHexDigit(c) then HexDigitValue(c) else 16
  }

  /** The number of leading characters of s that are digits of base. */
  function DigitRun(s: string, base: nat): (n: nat)
    ensures n <= |s|
  {
    if s == [] || DigitValue(s[0]) >= base then 0 else 1 + DigitRun(s[1..], base)
  }

  /** The run is exactly the longest prefix of digits of base. */
  lemma {:induction false} DigitRunMeaning(s: string, base: nat)
    ensures forall k :: 0 <= k < DigitRun(s, base) ==> DigitValue(s[k]) < base
    ensures DigitRun(s, base) < |s| ==> DigitValue(s[DigitRun(s, base)]) >= base
  {
    if s != [] && DigitValue(s[0]) < base {
      DigitRunMeaning(s[1..], base);
      forall k | 1 <= k < DigitRun(s, base)
        ensures DigitValue(s[k]) < base
      {
        assert s[k] == s[1..][k - 1];
      }
      if DigitRun(s, base) < |s| {
        assert s[DigitRun(s, base)] == s[1..][DigitRun(s[1..], base)];
      }
    }
  }

  /** The value of the digits of s in base, most significant first. */
  function DigitsValue(s: string, base: nat): nat {
    if s == [] then 0 else base * DigitsValue(s[..|s| - 1], base) + DigitValue(s[|s| - 1])
  }

  /**
   * The number "%i" reads after the sign: a hexadecimal number after "0x" or
   * "0X", an octal number after a leading "0", or else a decimal number;
   * None when no digit comes first.
   */
  function ScanUnsigned(u: string): Option<nat> {
    var hex := |u| >= 3 && u[0] == '0' && (u[1] == 'x' || u[1] == 'X') && IsHexDigit(u[2]);
    var base := if hex then 16 else if u != [] && u[0] == '0' then 8 else 10;
    var digits := if hex then u[2..] else u;
    var n := DigitRun(digits, base);
    if n == 0 then None else Some(DigitsValue(digits[..n], base))
  }

  /** What "%i" reads at the start of s: white space, an optional sign, then the number. */
  function ScanInteger(s: string): Option<int> {
    var t := SkipSpaces(s);
    if t != [] && (t[0] == '-' || t[0] == '+') then
      match ScanUnsigned(t[1..])
      case None => None
      case Some(v) => var w: int := v; Some(if t[0] == '-' then -w else w)
    else
      match ScanUnsigned(t)
      case None => None
      case Some(v) => Some(v)
  }

  /** A run of decimal digits is read in full, as the number it spells. */
  lemma {:induction false} DecimalDigitsRead(s: string)
    requires forall k :: 0 <= k < |s| ==> IsDecimalDigit(s[k])
    ensures DigitRun(s, 10) == |s|
    ensures DigitsValue(s, 10) == ParseDecimal(s)
  {
    if s != [] {
      DecimalDigitsRead(s[1..]);
      DecimalDigitsValue(s);
    }
  }

  lemma {:induction false} DecimalDigitsValue(s: string)
    requires forall k :: 0 <= k < |s| ==> IsDecimalDigit(s[k])
    ensures DigitsValue(s, 10) == ParseDecimal(s)
  {
    if s != [] {
      DecimalDigitsValue(s[..|s| - 1]);
    }
  }

  /** The digits "%d" writes for a non-negative number read back as that number. */
  lemma ScanUnsignedDecimal(n: nat)
    ensures ScanUnsigned(Decimal(n)) == Some(n)
  {
    var s := Decimal(n);
    DecimalDigitsRead(s);
    DecimalRoundTrip(n);
    if s[0] == '0' {
      assert |s| == 1 && n == 0;
      assert DigitRun(s, 8) == 1;
      assert DigitsValue(s[..1], 8) == 0;
    } else {
      assert s[..|s|] == s;
    }
  }

  /** "%i" reads back what "%d" writes for a non-negative number. */
  lemma ScanDecimal(n: nat)
    ensures ScanInteger(Decimal(n)) == Some(n)
  {
    var s := Decimal(n);
    assert !IsSpace(s[0]) && s[0] != '-' && s[0] != '+';
    assert SkipSpaces(s) == s;
    ScanUnsignedDecimal(n);
  }

  /** The conversion of the scanned int to gDiffLength's size_t, 32 bits wide. */
  function ToSizeT(v: int): (r: nat)
    ensures r < 0x1_0000_0000
    ensures 0 <= v < 0x1_0000_0000 ==> r == v
    ensures -0x1_0000_0000 <= v < 0 ==> r == v + 0x1_0000_0000
  {
    v % 0x1_0000_0000
  }

  /** The effect of one option letter t, d or q. */
  function SetLetter(cfg: Config, c: char): Config {
    if c == 't' then cfg.(ignoreTimeStamp := true)
    else if c == 'd' then cfg.(dumpImage := true)
    else if c == 'q' then cfg.(quiet := true)
    else cfg
  }

  /** What one option argument does: set the configuration, request the help text, or name an unknown letter. */
  datatype Switch = Applied(cfg: Config) | HelpRequested | Unknown(letter: char)

  /**
   * The letter loop: `do { switch (*sw) ... } while (*++sw)`. The first
   * character is examined even when the string is empty, where it is the
   * terminating NUL and so unknown.
   */
  function Letters(cfg: Config, sw: string): Switch
    decreases |sw|
  {
    var c := if sw == [] then '\0' else sw[0];
    if c == 'h' || c == '?' then HelpRequested
    else if c == 't' || c == 'd' || c == 'q' then
      if |sw| <= 1 then Applied(SetLetter(cfg, c)) else Letters(SetLetter(cfg, c), sw[1..])
    else Unknown(c)
  }

  /**
   * A run of the letters t, d and q sets exactly the flags it names, in any
   * order and with any repetition.
   */
  lemma {:induction false} LettersFlags(cfg: Config, sw: string)
    requires sw != [] && forall k :: 0 <= k < |sw| ==> sw[k] in "tdq"
    decreases |sw|
    ensures Letters(cfg, sw) == Applied(cfg.(
      ignoreTimeStamp := cfg.ignoreTimeStamp || 't' in sw,
      dumpImage := cfg.dumpImage || 'd' in sw,
      quiet := cfg.quiet || 'q' in sw))
  {
    assert sw[0] in "tdq";
    if |sw| > 1 {
      var rest := sw[1..];
      assert forall k :: 0 <= k < |rest| ==> rest[k] == sw[k + 1];
      LettersFlags(SetLetter(cfg, sw[0]), rest);
      InRest(sw, 't');
      InRest(sw, 'd');
      InRest(sw, 'q');
    }
  }

  /** A character occurs in a non-empty string exactly when it is the first or occurs in the rest. */
  lemma InRest(sw: string, c: char)
    requires sw != []
    ensures c in sw <==> c == sw[0] || c in sw[1..]
  {
    assert sw == [sw[0]] + sw[1..];
  }

  /** One option argument, the text after its "-": "help", then "n%i", then the letter loop. */
  function ApplySwitch(cfg: Config, sw: string): Switch {
    if sw == "help" then HelpRequested
    else if sw != [] && sw[0] == 'n' && ScanInteger(sw[1..]).Some? then
      Applied(cfg.(diffLength := ToSizeT(ScanInteger(sw[1..]).value)))
    else Letters(cfg, sw)
  }

  /** How the command line ends up: a run with its configuration and operands, or one of the aborts. */
  datatype Command =
    | Run(cfg: Config, operands: seq<string>)
    | ShowHelp                                  // -help, -h, -?: usage and the option help
    | UnknownOption(arg: string, letter: char)  // "<arg>: unknown option '<letter>'."
    | MissingOperands                           // "please specify FILE or DIR"

  /** The exit status: every abort goes through exit(EXIT_FAILURE). */
  const ExitFailure := 1

  /** An argument the option loop takes: one that starts with '-'. */
  predicate IsOption(arg: string) {
    arg != [] && arg[0] == '-'
  }

  /** The option loop from cfg over the remaining arguments, then the operand count check. */
  function Parse(cfg: Config, args: seq<string>): Command
    decreases |args|
  {
    if args != [] && IsOption(args[0]) then
      match ApplySwitch(cfg, args[0][1..])
      case Applied(next) => Parse(next, args[1..])
      case HelpRequested => ShowHelp
      case Unknown(c) => UnknownOption(args[0], c)
    else if |args| < 2 then MissingOperands
    else Run(cfg, args)
  }

  /**
   * A run's operands are the arguments after the options, at least two of
   * them, and the first of them is not an option.
   */
  lemma {:induction false} ParseRun(cfg: Config, args: seq<string>)
    ensures Parse(cfg, args).Run? ==>
      var ops := Parse(cfg, args).operands;
      && 2 <= |ops| <= |args| && ops == args[|args| - |ops|..] && !IsOption(ops[0])
      && forall k :: 0 <= k < |args| - |ops| ==> IsOption(args[k])
    decreases |args|
  {
    if args != [] && IsOption(args[0]) {
      var s := ApplySwitch(cfg, args[0][1..]);
      if s.Applied? {
        var rest := args[1..];
        assert Parse(cfg, args) == Parse(s.cfg, rest);
        ParseRun(s.cfg, rest);
        if Parse(s.cfg, rest).Run? {
          var ops := Parse(s.cfg, rest).operands;
          assert rest[|rest| - |ops|..] == args[|args| - |ops|..];
          forall k | 0 <= k < |args| - |ops|
            ensures IsOption(args[k])
          {
            if k > 0 {
              assert args[k] == rest[k - 1];
            }
          }
        }
      }
    }
  }

  /** The option loop's step: an option argument in front of the rest is applied, then the loop goes on. */
  lemma ParseOption(cfg: Config, arg: string, rest: seq<string>)
    requires IsOption(arg)
    ensures var s := ApplySwitch(cfg, arg[1..]);
      Parse(cfg, [arg] + rest) ==
        if s.Applied? then Parse(s.cfg, rest)
        else if s.HelpRequested? then ShowHelp
        else UnknownOption(arg, s.letter)
  {
    assert ([arg] + rest)[0] == arg && ([arg] + rest)[1..] == rest;
  }

  /** A bare "-" is an unknown option: the letter loop meets the terminating NUL. */
  lemma BareDash(cfg: Config, rest: seq<string>)
    ensures Parse(cfg, ["-"] + rest) == UnknownOption("-", '\0')
  {
    ParseOption(cfg, "-", rest);
    assert "-"[1..] == [];
  }

  /** "-n" followed by a number in decimal sets the cap on reported raw differences to that number. */
  lemma NumberOption(cfg: Config, n: nat, rest: seq<string>)
    requires n < 0x1_0000_0000
    ensures Parse(cfg, ["-n" + Decimal(n)] + rest) == Parse(cfg.(diffLength := n), rest)
  {
    var arg := "-n" + Decimal(n);
    ParseOption(cfg, arg, rest);
    var sw := arg[1..];
    assert sw == "n" + Decimal(n) && sw[1..] == Decimal(n);
    ScanDecimal(n);
    assert sw != "help" by {
      assert |sw| == 4 ==> sw[1] == Decimal(n)[0] != 'e';
    }
    assert ApplySwitch(cfg, sw) == Applied(cfg.(diffLength := n));
  }

  /** "%i" reads "-1" as minus one. */
  lemma ScanMinusOne()
    ensures ScanInteger("-1") == Some(-1)
  {
    assert SkipSpaces("-1") == "-1" && "-1"[1..] == "1";
    ScanUnsignedDecimal(1);
    assert Decimal(1) == "1";
  }

  /** A negative -n wraps around in size_t: "-n-1" lifts the cap to 2^32 - 1. */
  lemma NegativeNumberOption(cfg: Config, rest: seq<string>)
    ensures Parse(cfg, ["-n-1"] + rest) == Parse(cfg.(diffLength := 0xFFFF_FFFF), rest)
  {
    ParseOption(cfg, "-n-1", rest);
    var sw := "-n-1"[1..];
    assert sw == "n-1" && sw[1..] == "-1";
    ScanMinusOne();
    assert ApplySwitch(cfg, sw) == Applied(cfg.(diffLength := 0xFFFF_FFFF));
  }

  /** "-help" ends the run with the help text. */
  lemma HelpOption(cfg: Config, rest: seq<string>)
    ensures Parse(cfg, ["-help"] + rest) == ShowHelp
  {
    ParseOption(cfg, "-help", rest);
    assert "-help"[1..] == "help";
  }

  /** So does a letter run that reaches 'h' or '?' before an unknown letter: "-h", "-?", "-th". */
  lemma HelpLetters(cfg: Config, rest: seq<string>)
    ensures Parse(cfg, ["-h"] + rest) == ShowHelp
    ensures Parse(cfg, ["-?"] + rest) == ShowHelp
    ensures Parse(cfg, ["-th"] + rest) == ShowHelp
  {
    ParseOption(cfg, "-h", rest);
    ParseOption(cfg, "-?", rest);
    ParseOption(cfg, "-th", rest);
    assert "-h"[1..] == "h" && "-?"[1..] == "?" && "-th"[1..] == "th" && "th"[1..] == "h";
    assert Letters(cfg, "th") == Letters(SetLetter(cfg, 't'), "h");
  }

  /** The letter loop: the imperative reading of Letters. */
  method ScanLetters(cfg0: Config, sw: string) returns (r: Switch)
    ensures r == Letters(cfg0, sw)
  {
    var cfg := cfg0;
    var p := 0;
    while true
      invariant p < |sw| || (p == 0 && sw == [])
      invariant Letters(cfg0, sw) == Letters(cfg, sw[p..])
      decreases |sw| - p
    {
      var c := if p < |sw| then sw[p] else '\0';
      if c == 'h' || c == '?' {
        return HelpRequested;
      } else if c == 't' {
        cfg := cfg.(ignoreTimeStamp := true);
      } else if c == 'd' {
        cfg := cfg.(dumpImage := true);
      } else if c == 'q' {
        cfg := cfg.(quiet := true);
      } else {
        return Unknown(c);
      }
      p := p + 1;
      if p >= |sw| {
        return Applied(cfg);
      }
      assert sw[p - 1..][1..] == sw[p..];
    }
  }

  /**
   * The option loop of main: while the next argument starts with '-', apply
   * it to the configuration and drop it; then at least two operands must
   * remain.
   */
  method ParseCommandLine(args: seq<string>) returns (cmd: Command)
    ensures cmd == Parse(Default, args)
  {
    var cfg := Default;
    var k := 0;
    while k < |args| && IsOption(args[k])
      invariant k <= |args|
      invariant Parse(Default, args) == Parse(cfg, args[k..])
    {
      var sw := args[k][1..];
      assert args[k..][0] == args[k] && args[k..][1..] == args[k + 1..];
      if sw == "help" {
        return ShowHelp;
      }
      var scanned := if sw != [] && sw[0] == 'n' then ScanInteger(sw[1..]) else None;
      if scanned.Some? {
        cfg := cfg.(diffLength := ToSizeT(scanned.value));
      } else {
        var r := ScanLetters(cfg, sw);
        match r
        case HelpRequested =>
          return ShowHelp;
        case Unknown(c) =>
          return UnknownOption(args[k], c);
        case Applied(next) =>
          cfg := next;
      }
      k := k + 1;
    }
    if |args| - k < 2 {
      return MissingOperands;
    }
    cmd := Run(cfg, args[k..]);
  }

  /** What main does with its operands: compare two files, or the files of two folders. */
  datatype Mode =
    | FileMode(file1: string, file2: string)
    | FolderMode(dir1: string, dir2: string, wild: string, splitDir2: bool) // splitDir2: DIR2 is DIR\WILD

  /**
   * The choice of main: two operands whose first is an existing file are
   * compared as files; otherwise the operands are DIR1 DIR2 and the pattern,
   * which is the third operand, or "*" and, when DIR2 has a wildcard, the
   * name part of DIR2.
   */
  function Dispatch(operands: seq<string>, firstIsFile: bool): Mode
    requires |operands| >= 2
  {
    if |operands| == 2 && firstIsFile then FileMode(operands[0], operands[1])
    else
      FolderMode(operands[0], operands[1], if |operands| <= 2 then "*" else operands[2],
        |operands| <= 2 && HasWildcard(operands[1]))
  }

  /**
   * Operands after the third never matter, and a third operand always means
   * the folder mode with that pattern, whatever the first operand is.
   */
  lemma DispatchOperands(operands: seq<string>, firstIsFile: bool)
    requires |operands| >= 3
    ensures Dispatch(operands, firstIsFile) == Dispatch(operands[..3], firstIsFile)
    ensures Dispatch(operands, firstIsFile) == FolderMode(operands[0], operands[1], operands[2], false)
  {
  }

  /** With two operands the pattern is "*" unless DIR2 carries one, which is then split off. */
  lemma DispatchTwoOperands(dir1: string, dir2: string)
    ensures Dispatch([dir1, dir2], false).wild == "*"
    ensures Dispatch([dir1, dir2], false).splitDir2 <==> exists k :: 0 <= k < |dir2| && IsWildcard(dir2[k])
  {
    HasWildcardIff(dir2);
  }
}
