/** The Python driver's `writeLine`: the scan configuration is rewritten line by
    line, the `zoom` and `centre` directives replaced by the box's values printed
    with one decimal (`:.1f`). */
module ConfigRewrite {
  import opened Wrappers
  import opened RoiBox

  /** Python's rounding of an exactly known value to an integer: to the nearest,
      ties to the even neighbour. */
  function RoundHalfEven(x: real): (n: int)
    ensures x - 0.5 <= n as real <= x + 0.5
    ensures (n as real - x == 0.5 || x - n as real == 0.5) ==> n % 2 == 0
  {
    var f := x.Floor;
    var frac := x - f as real;
    if frac < 0.5 then f
    else if frac > 0.5 then f + 1
    else if f % 2 == 0 then f
    else f + 1
  }

  /** Nearest with ties to even picks exactly one integer. */
  lemma RoundHalfEvenUnique(x: real, k: int)
    requires x - 0.5 <= k as real <= x + 0.5
    requires (k as real - x == 0.5 || x - k as real == 0.5) ==> k % 2 == 0
    ensures k == RoundHalfEven(x)
  {
  }

  predicate IsDigit(c: char)
  {
    '0' <= c <= '9'
  }

  function Digit(d: nat): (c: char)
    requires d < 10
    ensures IsDigit(c) && (c as int) - ('0' as int) == d
  {
    ['0', '1', '2', '3', '4', '5', '6', '7', '8', '9'][d]
  }

  /** The decimal digits of `n`, without leading zeros. */
  function NatString(n: nat): (s: string)
    ensures |s| >= 1 && (|s| == 1 || s[0] != '0')
    ensures forall k :: 0 <= k < |s| ==> IsDigit(s[k])
  {
    if n < 10 then [Digit(n)] else NatString(n / 10) + [Digit(n % 10)]
  }

  function DigitValue(c: char): (d: nat)
    requires IsDigit(c)
    ensures d < 10 && Digit(d) == c
  {
    (c as int) - ('0' as int)
  }

  /** The number a string of digits denotes. */
  function DigitsValue(s: string): nat
    requires forall k :: 0 <= k < |s| ==> IsDigit(s[k])
  {
    if s == [] then 0 else 10 * DigitsValue(s[..|s| - 1]) + DigitValue(s[|s| - 1])
  }

  /** Reading the digits back gives the number. */
  lemma {:induction false} NatStringValue(n: nat)
    ensures DigitsValue(NatString(n)) == n
  {
    if n >= 10 {
      NatStringValue(n / 10);
      var s := NatString(n);
      assert s[..|s| - 1] == NatString(n / 10);
    }
  }

  /** |v| in tenths, rounded half to even. */
  function Tenths(v: real): (n: nat)
    ensures var a := if v < 0.0 then -v else v;
            a * 10.0 - 0.5 <= n as real <= a * 10.0 + 0.5 &&
            ((n as real - a * 10.0 == 0.5 || a * 10.0 - n as real == 0.5) ==> n % 2 == 0)
  {
    RoundHalfEven(if v < 0.0 then -v * 10.0 else v * 10.0)
  }

  /** Python's `format(v, '.1f')` for an exactly known value: the sign of a
      negative value (kept even when the digits round to zero), the integral
      digits, a point and one decimal. */
  function Fixed1(v: real): (s: string)
    ensures |s| >= 3 && s[|s| - 2] == '.' && IsDigit(s[|s| - 1])
  {
    (if v < 0.0 then "-" else "") + NatString(Tenths(v) / 10) + "." + [Digit(Tenths(v) % 10)]
  }

  /** The value of a string `[-]digits.digit`, or None. */
  function DecimalValue(s: string): (r: Option<real>)
  {
    if |s| >= 1 && s[0] == '-' then
      match UnsignedValue(s[1..])
      case None => None
      case Some(u) => Some(-u)
    else UnsignedValue(s)
  }

  function UnsignedValue(s: string): (r: Option<real>)
  {
    if |s| >= 3 && s[|s| - 2] == '.' && IsDigit(s[|s| - 1]) &&
       forall k :: 0 <= k < |s| - 2 ==> IsDigit(s[k])
    then Some((10 * DigitsValue(s[..|s| - 2]) + DigitValue(s[|s| - 1])) as real / 10.0)
    else None
  }

  /** `Fixed1(v)` reads back as `v` rounded to the nearest tenth, ties to the even
      tenth, with the sign of `v`. */
  lemma Fixed1Value(v: real)
    ensures DecimalValue(Fixed1(v)) == Some(if v < 0.0 then -(Tenths(v) as real / 10.0) else Tenths(v) as real / 10.0)
  {
    var n := Tenths(v);
    var u := NatString(n / 10) + "." + [Digit(n % 10)];
    UnsignedFixed(n);
    FixedParts(v, n, u);
    if v < 0.0 {
      NegatedValue(u, n as real / 10.0);
    } else {
      PlainValue(u, n as real / 10.0);
    }
  }

  lemma FixedParts(v: real, n: nat, u: string)
    requires n == Tenths(v) && u == NatString(n / 10) + "." + [Digit(n % 10)]
    ensures Fixed1(v) == (if v < 0.0 then "-" + u else u)
    ensures u[0] != '-'
  {
    assert u[0] == NatString(n / 10)[0];
  }

  lemma PlainValue(u: string, w: real)
    requires UnsignedValue(u) == Some(w) && u[0] != '-'
    ensures DecimalValue(u) == Some(w)
  {
  }

  lemma NegatedValue(u: string, w: real)
    requires UnsignedValue(u) == Some(w)
    ensures DecimalValue("-" + u) == Some(-w)
  {
    assert ("-" + u)[1..] == u;
  }

  lemma UnsignedFixed(n: nat)
    ensures UnsignedValue(NatString(n / 10) + "." + [Digit(n % 10)]) == Some(n as real / 10.0)
  {
    var d, c := NatString(n / 10), Digit(n % 10);
    NatStringValue(n / 10);
    assert DigitValue(c) == n % 10;
    UnsignedParts(d, c, n);
  }

  /** `digits.digit` reads as ten times the digits' number plus the last digit,
      in tenths. */
  lemma UnsignedParts(d: string, c: char, t: int)
    requires |d| >= 1 && IsDigit(c) && forall k :: 0 <= k < |d| ==> IsDigit(d[k])
    requires t == 10 * DigitsValue(d) + DigitValue(c)
    ensures UnsignedValue(d + "." + [c]) == Some(t as real / 10.0)
  {
    var u := d + "." + [c];
    assert u[..|u| - 2] == d;
    assert forall k :: 0 <= k < |u| - 2 ==> u[k] == d[k];
  }

  /** `s` occurs in `line` at position `i`. */
  predicate At(line: string, s: string, i: int)
  {
    0 <= i <= |line| - |s| && line[i..i + |s|] == s
  }

  /** `s` occurs in `line` (Python's `s in line`). */
  ghost predicate Contains(line: string, s: string)
  {
    exists i :: At(line, s, i)
  }

  /** `Contains`, computed by trying each start position in turn. */
  function Occurs(line: string, s: string): bool
    decreases |line|
  {
    if |line| < |s| then false
    else if line[..|s|] == s then true
    else Occurs(line[1..], s)
  }

  /** The computed search agrees with the definition. */
  lemma {:induction false} OccursIsContains(line: string, s: string)
    ensures Occurs(line, s) <==> Contains(line, s)
    decreases |line|
  {
    if |line| >= |s| && line[..|s|] != s {
      OccursIsContains(line[1..], s);
      if Occurs(line[1..], s) {
        var i :| At(line[1..], s, i);
        assert line[i + 1..i + 1 + |s|] == line[1..][i..i + |s|];
        assert At(line, s, i + 1);
      } else {
        forall i | At(line, s, i) ensures false {
          if i > 0 {
            assert line[1..][i - 1..i - 1 + |s|] == line[i..i + |s|];
            assert At(line[1..], s, i - 1);
          }
        }
      }
    } else if |line| >= |s| {
      assert At(line, s, 0);
    }
  }

  /** `f'--zoom {box.zoom():.1f}um\n'`. */
  function ZoomLine(b: Box): string
  {
    "--zoom " + Fixed1(Zoom(b)) + "um\n"
  }

  /** `f'--centre {centre[0]:.1f}um {centre[1]:.1f}um\n'`. */
  function CentreLine(b: Box): string
  {
    "--centre " + Fixed1(Centre(b).0) + "um " + Fixed1(Centre(b).1) + "um\n"
  }

  /** One pass of `writeLine`'s loop: the zoom test first, then the centre test on
      the line as it now stands. */
  function RewriteLine(line: string, b: Box): (r: string)
  {
    var l1 := if Occurs(line, "zoom") then ZoomLine(b) else line;
    if Occurs(l1, "centre") then CentreLine(b) else l1
  }

  /** `writeLine(file, box)` over the file's lines. */
  function WriteLine(lines: seq<string>, b: Box): (out: seq<string>)
    ensures |out| == |lines|
    ensures forall k :: 0 <= k < |lines| ==> out[k] == RewriteLine(lines[k], b)
  {
    if lines == [] then [] else [RewriteLine(lines[0], b)] + WriteLine(lines[1..], b)
  }

  /** A line without the letter `c` cannot contain "centre". */
  lemma NoCNoCentre(line: string)
    requires forall k :: 0 <= k < |line| ==> line[k] != 'c'
    ensures !Contains(line, "centre")
  {
    forall i | 0 <= i <= |line| - 6 ensures !At(line, "centre", i) {
      assert line[i..i + 6][0] == line[i];
    }
  }

  lemma ZoomLineHasNoC(b: Box)
    ensures forall k :: 0 <= k < |ZoomLine(b)| ==> ZoomLine(b)[k] != 'c'
  {
    var f := Fixed1(Zoom(b));
    FixedHasNoC(Zoom(b));
    var z := ZoomLine(b);
    forall k | 0 <= k < |z| ensures z[k] != 'c' {
      if k < 7 {
        assert z[k] == "--zoom "[k];
      } else if k < 7 + |f| {
        assert z[k] == f[k - 7];
      } else {
        assert z[k] == "um\n"[k - 7 - |f|];
      }
    }
  }

  lemma FixedHasNoC(v: real)
    ensures forall k :: 0 <= k < |Fixed1(v)| ==> Fixed1(v)[k] != 'c'
  {
    var n := Tenths(v);
    var s := Fixed1(v);
    var p := if v < 0.0 then "-" else "";
    var d := NatString(n / 10);
    assert s == p + d + "." + [Digit(n % 10)];
    forall k | 0 <= k < |s| ensures s[k] != 'c' {
      if k < |p| {
      } else if k < |p| + |d| {
        assert s[k] == d[k - |p|];
      }
    }
  }

  /** The rewrite of each line: a line mentioning `zoom` becomes the zoom directive
      (even when it also mentions `centre`), otherwise a line mentioning `centre`
      becomes the centre directive, and any other line is kept. */
  lemma RewriteCases(line: string, b: Box)
    ensures Contains(line, "zoom") ==> RewriteLine(line, b) == ZoomLine(b)
    ensures !Contains(line, "zoom") && Contains(line, "centre") ==> RewriteLine(line, b) == CentreLine(b)
    ensures !Contains(line, "zoom") && !Contains(line, "centre") ==> RewriteLine(line, b) == line
  {
    OccursIsContains(line, "zoom");
    OccursIsContains(line, "centre");
    OccursIsContains(ZoomLine(b), "centre");
    ZoomLineHasNoC(b);
    NoCNoCentre(ZoomLine(b));
  }

  /** The centre (2.75, 1.25) and zoom 4.0 of the box with north 10, east 20,
      south 2 and west 4 print as 2.8, 1.2 and 4.0: ties round to even, and
      a negative value keeps its sign. */
  lemma FormatExample()
    ensures Fixed1(4.0) == "4.0"
    ensures Fixed1(2.75) == "2.8"
    ensures Fixed1(1.25) == "1.2"
    ensures Fixed1(-0.125) == "-0.1"
  {
    assert RoundHalfEven(40.0) == 40 by { RoundHalfEvenUnique(40.0, 40); }
    assert RoundHalfEven(27.5) == 28 by { RoundHalfEvenUnique(27.5, 28); }
    assert RoundHalfEven(12.5) == 12 by { RoundHalfEvenUnique(12.5, 12); }
    assert RoundHalfEven(1.25) == 1 by { RoundHalfEvenUnique(1.25, 1); }
  }
}
