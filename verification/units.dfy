/** Lengths written with a unit: the four SI prefixes the configuration
    understands, the `_nanometer`/`_micrometer` literals, and `StrToDist`, which
    reads a number and a unit word from a string the way `stream >> double >>
    string` does and scales the number by the unit's factor. */
module Units {
  import opened Wrappers
  import opened ConfigRewrite

  const Nanometer: real := 1.0 / 1000000000.0
  const Micrometer: real := 1.0 / 1000000.0
  const Millimeter: real := 1.0 / 1000.0
  const Meter: real := 1.0

  /** `UnitMap.at(u)`: the factor of one of the four unit words, or the
      `std::out_of_range` that `at` throws for any other word. */
  function Factor(u: string): (f: Option<real>)
    ensures f.Some? <==> u == "nm" || u == "um" || u == "mm" || u == "m"
    ensures u == "nm" ==> f == Some(Nanometer)
    ensures u == "um" ==> f == Some(Micrometer)
    ensures u == "mm" ==> f == Some(Millimeter)
    ensures u == "m" ==> f == Some(Meter)
    ensures f.Some? ==> f.value > 0.0
  {
    if u == "nm" then Some(Nanometer)
    else if u == "um" then Some(Micrometer)
    else if u == "mm" then Some(Millimeter)
    else if u == "m" then Some(Meter)
    else None
  }

  /** The literal `v_nanometer`. */
  function Nanometers(v: real): real
  {
    Scale(v, Nanometer)
  }

  /** The literal `v_micrometer`. */
  function Micrometers(v: real): real
  {
    Scale(v, Micrometer)
  }

  /** The characters `isspace` accepts. */
  predicate IsSpace(c: char)
  {
    c == ' ' || c == '\t' || c == '\n' || c == '\r' || c == '\U{0B}' || c == '\U{0C}'
  }

  predicate NotSpace(c: char)
  {
    !IsSpace(c)
  }

  /** The classes of characters the stream skips or collects. */
  datatype Class = Spaces | Digits | Word

  predicate Accepts(p: Class, c: char)
  {
    match p
    case Spaces => IsSpace(c)
    case Digits => IsDigit(c)
    case Word => NotSpace(c)
  }

  /** The end of the run of characters of class `p` that starts at `i`. */
  function Run(s: string, i: nat, p: Class): (j: nat)
    requires i <= |s|
    ensures i <= j <= |s|
    ensures forall k :: i <= k < j ==> Accepts(p, s[k])
    ensures j < |s| ==> !Accepts(p, s[j])
    decreases |s| - i
  {
    if i == |s| || !Accepts(p, s[i]) then i else Run(s, i + 1, p)
  }

  /** A run that stops inside `s`, or at its end where `t` starts with a
      character the run rejects, stops at the same place in `s + t`. */
  lemma {:induction false} RunExtend(s: string, t: string, i: nat, p: Class)
    requires i <= |s|
    requires Run(s, i, p) < |s| || (t != [] && !Accepts(p, t[0]))
    ensures Run(s + t, i, p) == Run(s, i, p)
    decreases |s| - i
  {
    if i < |s| && Accepts(p, s[i]) {
      RunExtend(s, t, i + 1, p);
    }
  }

  /** `10^n`. */
  function Pow10(n: nat): (p: nat)
    ensures p >= 1
  {
    if n == 0 then 1 else 10 * Pow10(n - 1)
  }

  /** Past an optional sign at `a`. */
  function SignEnd(s: string, a: nat): (b: nat)
    requires a <= |s|
    ensures a <= b <= |s|
  {
    if a < |s| && (s[a] == '-' || s[a] == '+') then a + 1 else a
  }

  /** Past an optional decimal point at `c`. */
  function PointEnd(s: string, c: nat): (d: nat)
    requires c <= |s|
    ensures c <= d <= |s|
  {
    if c < |s| && s[c] == '.' then c + 1 else c
  }

  /** Past the fraction digits that follow a decimal point at `c`. */
  function FractionEnd(s: string, c: nat): (e: nat)
    requires c <= |s|
    ensures PointEnd(s, c) <= e <= |s|
    ensures forall k :: PointEnd(s, c) <= k < e ==> IsDigit(s[k])
  {
    if PointEnd(s, c) == c then c else Run(s, c + 1, Digits)
  }

  /** A number as the stream reads it: a sign, the whole digits' value, the
      fraction digits' value over `10^places`, and the power of ten of the
      exponent part. */
  datatype Decimal = Decimal(negative: bool, whole: nat, fraction: nat, places: nat, exponent: int)

  /** `m * 10^x`. */
  function TimesPow10(m: real, x: int): real
  {
    if x >= 0 then m * Pow10(x) as real else m / Pow10(-x) as real
  }

  /** The value of a decimal. */
  function DecimalValue(d: Decimal): real
  {
    var m := TimesPow10(d.whole as real + d.fraction as real / Pow10(d.places) as real, d.exponent);
    if d.negative then -m else m
  }

  predicate IsExponentMark(c: char)
  {
    c == 'e' || c == 'E'
  }

  /** The exponent part at `e`, after the digits of a number: without an `e`
      or `E` there it is 0 and nothing is read; with one, the mark, an optional
      sign and at least one digit are read, and a mark without digits makes
      the whole read fail (`None`), as the stream's conversion of the text it
      collected then does. */
  function ReadExponent(s: string, e: nat): (r: Option<(int, nat)>)
    requires e <= |s|
    ensures r.Some? ==> e <= r.value.1 <= |s|
    ensures r.Some? && r.value.1 == e <==> e == |s| || !IsExponentMark(s[e])
    ensures r.Some? && r.value.1 == e ==> r.value.0 == 0
    ensures r.None? <==> e < |s| && IsExponentMark(s[e]) && Run(s, SignEnd(s, e + 1), Digits) == SignEnd(s, e + 1)
    ensures r.Some? && r.value.1 > e ==> forall k :: SignEnd(s, e + 1) <= k < r.value.1 ==> IsDigit(s[k])
  {
    if e == |s| || !IsExponentMark(s[e]) then Some((0, e))
    else
      var f := SignEnd(s, e + 1);
      var g := Run(s, f, Digits);
      if g == f then None
      else
        var v := DigitsValue(s[f..g]) as int;
        Some((if f > e + 1 && s[e + 1] == '-' then -v else v, g))
  }

  /** `>> lVal` from position `i`: leading white space, an optional sign, digits,
      an optional point with more digits, at least one digit in all, and an
      optional exponent part. The number and the position after it, or None
      when no number is there (the stream fails, and the unit is never read). */
  function ReadNumber(s: string, i: nat): (r: Option<(Decimal, nat)>)
    requires i <= |s|
    ensures r.Some? ==> i < r.value.1 <= |s|
    ensures r.Some? ==> var a := Run(s, i, Spaces);
                        var b := SignEnd(s, a);
                        (Run(s, b, Digits) > b || FractionEnd(s, Run(s, b, Digits)) > PointEnd(s, Run(s, b, Digits))) &&
                        r.value.0.negative == (b > a && s[a] == '-') &&
                        (r.value.1 < |s| ==> !IsDigit(s[r.value.1]))
  {
    var a := Run(s, i, Spaces);
    var b := SignEnd(s, a);
    var c := Run(s, b, Digits);
    var d := PointEnd(s, c);
    var e := FractionEnd(s, c);
    if c == b && e == d then None
    else
      match ReadExponent(s, e)
      case None => None
      case Some((x, n)) => Some((Decimal(b > a && s[a] == '-', DigitsValue(s[b..c]), DigitsValue(s[d..e]), e - d, x), n))
  }

  /** The scan of a number that ends inside `s` stops at the same places in
      `s + t`. */
  lemma NumberStopsExtend(s: string, t: string)
    requires ReadNumber(s, 0).Some? && ReadNumber(s, 0).value.1 < |s|
    ensures var a := Run(s, 0, Spaces);
            var b := SignEnd(s, a);
            var c := Run(s, b, Digits);
            c < |s| && Run(s + t, 0, Spaces) == a && SignEnd(s + t, a) == b && Run(s + t, b, Digits) == c &&
            PointEnd(s + t, c) == PointEnd(s, c) && FractionEnd(s + t, c) == FractionEnd(s, c)
  {
    var a := Run(s, 0, Spaces);
    var b := SignEnd(s, a);
    var c := Run(s, b, Digits);
    assert c < |s|;
    RunExtend(s, t, 0, Spaces);
    RunExtend(s, t, b, Digits);
    if PointEnd(s, c) != c {
      RunExtend(s, t, c + 1, Digits);
    }
  }

  /** An exponent part that ends inside `s` is read the same way from `s + t`. */
  lemma ExponentExtend(s: string, t: string, e: nat)
    requires e <= |s| && ReadExponent(s, e).Some? && ReadExponent(s, e).value.1 < |s|
    ensures ReadExponent(s + t, e) == ReadExponent(s, e)
  {
    if IsExponentMark(s[e]) {
      var f := SignEnd(s, e + 1);
      assert e + 1 < |s|;
      RunExtend(s, t, f, Digits);
      SliceExtend(s, t, f, Run(s, f, Digits));
    }
  }

  /** A slice of `s` is the same slice of `s + t`. */
  lemma SliceExtend(s: string, t: string, i: nat, j: nat)
    requires i <= j <= |s|
    ensures (s + t)[i..j] == s[i..j]
  {
  }

  /** A number that ends inside `s` is read the same way from `s + t`. */
  lemma ReadNumberExtend(s: string, t: string)
    requires ReadNumber(s, 0).Some? && ReadNumber(s, 0).value.1 < |s|
    ensures ReadNumber(s + t, 0) == ReadNumber(s, 0)
  {
    var a := Run(s, 0, Spaces);
    var b := SignEnd(s, a);
    var c := Run(s, b, Digits);
    var e := FractionEnd(s, c);
    NumberStopsExtend(s, t);
    assert b > a ==> (s + t)[a] == s[a];
    SliceExtend(s, t, b, c);
    SliceExtend(s, t, PointEnd(s, c), e);
    ExponentExtend(s, t, e);
  }

  /** `>> lUnits` after the number: the next word, empty at the end of the
      string. */
  function ReadWord(s: string, i: nat): (w: string)
    requires i <= |s|
    ensures forall k :: 0 <= k < |w| ==> NotSpace(w[k])
  {
    var a := Run(s, i, Spaces);
    s[a..Run(s, a, Word)]
  }

  /** The two tokens `StrToDist` extracts: the number, and the word after it. */
  function Tokens(s: string): Option<(Decimal, string)>
  {
    match ReadNumber(s, 0)
    case None => None
    case Some((v, e)) => Some((v, ReadWord(s, e)))
  }

  /** `lVal * UnitMap.at(lUnits)`. */
  function Scale(v: real, f: real): real
  {
    v * f
  }

  /** The error `StrToDist` raises. */
  datatype UnitError = UnknownUnit(word: string)

  /** `StrToDist`: the number times its unit's factor; a missing number leaves the
      unit empty, and an empty or unknown unit throws. */
  function StrToDist(s: string): Result<real, UnitError>
  {
    Distance(Tokens(s))
  }

  /** The length two tokens denote. */
  function Distance(tokens: Option<(Decimal, string)>): Result<real, UnitError>
  {
    match tokens
    case None => Err(UnknownUnit(""))
    case Some((v, u)) =>
      match Factor(u)
      case None => Err(UnknownUnit(u))
      case Some(f) => Ok(Scale(DecimalValue(v), f))
  }

  /** A word that ends inside `s`, or at its end where `t` starts with a space,
      is read the same way from `s + t`. */
  lemma ReadWordExtend(s: string, t: string, e: nat)
    requires e < |s| && ReadWord(s, e) != [] && t != [] && IsSpace(t[0])
    ensures ReadWord(s + t, e) == ReadWord(s, e)
  {
    var a := Run(s, e, Spaces);
    RunExtend(s, t, e, Spaces);
    RunExtend(s, t, a, Word);
    SliceExtend(s, t, a, Run(s, a, Word));
  }

  /** The tokens of a string with a non-empty unit word are the tokens of the
      string extended after a space. */
  lemma TokensExtend(s: string, t: string)
    requires Tokens(s).Some? && Tokens(s).value.1 != [] && t != [] && IsSpace(t[0])
    ensures Tokens(s + t) == Tokens(s)
  {
    var e := ReadNumber(s, 0).value.1;
    assert ReadWord(s, |s|) == [];
    ReadNumberExtend(s, t);
    ReadWordExtend(s, t, e);
  }

  /** Only the number and the unit word are read: anything after a white space
      that follows the unit is ignored. */
  lemma OnlyTwoTokens(s: string, c: char, rest: string)
    requires StrToDist(s).Ok? && IsSpace(c)
    ensures StrToDist(s + [c] + rest) == StrToDist(s)
  {
    assert s + [c] + rest == s + ([c] + rest);
    TokensExtend(s, [c] + rest);
  }

  /** A non-empty string of decimal digits, as `NatString` writes. */
  predicate IsDigits(ds: string)
  {
    ds != [] && forall k :: 0 <= k < |ds| ==> IsDigit(ds[k])
  }

  /** A unit word: non-empty, with no white space. */
  predicate IsWord(u: string)
  {
    u != [] && forall k :: 0 <= k < |u| ==> NotSpace(u[k])
  }

  /** A digit string is one run of digits that stops at a space. */
  lemma DigitsThenSpace(ds: string, u: string)
    requires IsDigits(ds)
    ensures var s := ds + " " + u;
            Run(s, 0, Spaces) == 0 && Run(s, 0, Digits) == |ds|
  {
    var s := ds + " " + u;
    assert s[0] == ds[0];
    DigitsRun(s, 0, |ds|);
  }

  lemma {:induction false} DigitsRun(s: string, i: nat, m: nat)
    requires i <= m < |s| && (forall k :: i <= k < m ==> IsDigit(s[k])) && !IsDigit(s[m])
    ensures Run(s, i, Digits) == m
    decreases m - i
  {
    if i < m {
      DigitsRun(s, i + 1, m);
    }
  }

  /** Writing digits and a known unit, and reading them back, gives the
      digits' value times the unit's factor. */
  lemma StrToDistWritten(ds: string, u: string, f: real)
    requires IsDigits(ds) && Factor(u) == Some(f)
    ensures StrToDist(ds + " " + u) == Ok(Scale(DigitsValue(ds) as real, f))
  {
    var d := Decimal(false, DigitsValue(ds), 0, 0, 0);
    UnitIsWord(u);
    WrittenTokens(ds, u);
    WholeValue(DigitsValue(ds));
    StrToDistOf(ds + " " + u, d, u, f);
  }

  lemma WholeValue(n: nat)
    ensures DecimalValue(Decimal(false, n, 0, 0, 0)) == n as real
  {
  }

  /** A unit is one word. */
  lemma UnitIsWord(u: string)
    requires Factor(u).Some?
    ensures IsWord(u)
  {
  }

  /** The length a string denotes, from its tokens. */
  lemma StrToDistOf(s: string, d: Decimal, u: string, f: real)
    requires Tokens(s) == Some((d, u)) && Factor(u) == Some(f)
    ensures StrToDist(s) == Ok(Scale(DecimalValue(d), f))
  {
  }

  /** The tokens of written digits and a unit word are that number and that
      word. */
  lemma WrittenTokens(ds: string, u: string)
    requires IsDigits(ds) && IsWord(u)
    ensures Tokens(ds + " " + u) == Some((Decimal(false, DigitsValue(ds), 0, 0, 0), u))
  {
    WrittenNumber(ds, u);
    WrittenWord(ds, u);
  }

  /** Digits up to a space are read back as a whole number. */
  lemma DigitsBeforeSpace(s: string, m: nat)
    requires 0 < m < |s| && s[m] == ' ' && IsDigits(s[..m])
    ensures ReadNumber(s, 0) == Some((Decimal(false, DigitsValue(s[0..m]), 0, 0, 0), m))
  {
    assert forall k :: 0 <= k < m ==> IsDigit(s[k]) by {
      forall k | 0 <= k < m ensures IsDigit(s[k]) {
        assert s[..m][k] == s[k];
      }
    }
    assert Run(s, 0, Spaces) == 0;
    DigitsRun(s, 0, m);
    assert SignEnd(s, 0) == 0;
    assert FractionEnd(s, m) == m;
    assert ReadExponent(s, m) == Some((0, m));
    assert s[m..m] == [];
  }

  /** The number of written digits is read back. */
  lemma WrittenNumber(ds: string, u: string)
    requires IsDigits(ds)
    ensures ReadNumber(ds + " " + u, 0) == Some((Decimal(false, DigitsValue(ds), 0, 0, 0), |ds|))
  {
    var s := ds + " " + u;
    assert s[..|ds|] == ds && s[0..|ds|] == ds;
    DigitsBeforeSpace(s, |ds|);
  }

  /** The unit after written digits is read back. */
  lemma WrittenWord(ds: string, u: string)
    requires IsWord(u)
    ensures ReadWord(ds + " " + u, |ds|) == u
  {
    var s := ds + " " + u;
    var m := |ds|;
    assert Run(s, m, Spaces) == m + 1 by {
      assert IsSpace(s[m]) && NotSpace(s[m + 1]);
    }
    WordRun(s, m + 1);
    assert s[m + 1..|s|] == u;
  }

  lemma {:induction false} WordRun(s: string, i: nat)
    requires i <= |s| && forall k :: i <= k < |s| ==> NotSpace(s[k])
    ensures Run(s, i, Word) == |s|
    decreases |s| - i
  {
    if i < |s| {
      WordRun(s, i + 1);
    }
  }

  /** The exponent part counts: `"1e3 nm"` is a thousand nanometres. */
  lemma ExponentRead()
    ensures StrToDist("1e3 nm") == Ok(Nanometers(1000.0))
  {
    var d := Decimal(false, 1, 0, 0, 3);
    ExponentTokens();
    StrToDistOf("1e3 nm", d, "nm", Nanometer);
    ThousandValue();
  }

  lemma ExponentTokens()
    ensures Tokens("1e3 nm") == Some((Decimal(false, 1, 0, 0, 3), "nm"))
  {
    ExponentNumber();
    ExponentWord();
  }

  lemma ThousandValue()
    ensures DecimalValue(Decimal(false, 1, 0, 0, 3)) == 1000.0
  {
    assert Pow10(3) == 1000;
  }

  lemma ExponentNumber()
    ensures ReadNumber("1e3 nm", 0) == Some((Decimal(false, 1, 0, 0, 3), 3))
  {
    var s := "1e3 nm";
    assert Run(s, 0, Spaces) == 0 && SignEnd(s, 0) == 0;
    DigitsRun(s, 0, 1);
    assert FractionEnd(s, 1) == 1;
    assert SignEnd(s, 2) == 2;
    DigitsRun(s, 2, 3);
    assert s[2..3] == "3" && s[0..1] == "1" && s[1..1] == [];
    assert DigitsValue("3") == 3 && DigitsValue("1") == 1 by {
      assert "3"[..0] == [] && "1"[..0] == [];
    }
    assert ReadExponent(s, 1) == Some((3, 3));
  }

  lemma ExponentWord()
    ensures ReadWord("1e3 nm", 3) == "nm"
  {
    var s := "1e3 nm";
    assert Run(s, 3, Spaces) == 4;
    WordRun(s, 4);
    assert s[4..6] == "nm";
  }

  /** An exponent mark without digits makes the number fail, and the empty
      unit then throws. */
  lemma DanglingExponentFails()
    ensures StrToDist("1e nm") == Err(UnknownUnit(""))
  {
    var s := "1e nm";
    assert Run(s, 0, Spaces) == 0 && SignEnd(s, 0) == 0;
    DigitsRun(s, 0, 1);
    assert FractionEnd(s, 1) == 1;
    assert SignEnd(s, 2) == 2;
    assert Run(s, 2, Digits) == 2;
    assert ReadExponent(s, 1) == None;
  }

  /** The literals agree with the unit words: `n_nanometer` is what
      `StrToDist("n nm")` reads. */
  lemma NanometersAgree(n: nat)
    ensures StrToDist(NatString(n) + " " + "nm") == Ok(Nanometers(n as real))
  {
    StrToDistWritten(NatString(n), "nm", Nanometer);
    NatStringValue(n);
  }

  /** `n_micrometer` is what `StrToDist("n um")` reads. */
  lemma MicrometersAgree(n: nat)
    ensures StrToDist(NatString(n) + " " + "um") == Ok(Micrometers(n as real))
  {
    StrToDistWritten(NatString(n), "um", Micrometer);
    NatStringValue(n);
  }
}
