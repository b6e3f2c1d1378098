/**
 The textual form of a Decimal: the parser `_fromString`, the exact printer
 and the rounding printer.
 */
module DecimalText {
  import opened Arithmetic
  import opened Decimal
  import opened Outcomes

  // ----- Digit strings

  predicate IsDigit(c: char) {
    '0' <= c <= '9'
  }

  predicate AllDigits(s: string) {
    forall i :: 0 <= i < |s| ==> IsDigit(s[i])
  }

  function DigitValue(c: char): (v: nat)
    requires IsDigit(c)
    ensures v < 10
  {
    c as int - '0' as int
  }

  function DigitChar(v: nat): (c: char)
    requires v < 10
    ensures IsDigit(c) && DigitValue(c) == v
  {
    ('0' as int + v) as char
  }

  /** The number a digit string denotes; `BigNumber.from` on digits. */
  function Val(s: string): nat
    requires AllDigits(s)
  {
    if s == [] then 0 else 10 * Val(s[..|s| - 1]) + DigitValue(s[|s| - 1])
  }

  /** `BigNumber.toString` */
  function NatToString(n: nat): (s: string)
    ensures AllDigits(s) && s != []
  {
    if n < 10 then [DigitChar(n)] else NatToString(n / 10) + [DigitChar(n % 10)]
  }

  function Zeros(n: nat): (s: string)
    ensures |s| == n && AllDigits(s)
    ensures forall i :: 0 <= i < n ==> s[i] == '0'
  {
    seq(n, _ => '0')
  }

  lemma ValSnoc(s: string, c: char)
    requires AllDigits(s) && IsDigit(c)
    ensures AllDigits(s + [c])
    ensures Val(s + [c]) == 10 * Val(s) + DigitValue(c)
  {
    assert (s + [c])[..|s + [c]| - 1] == s;
  }

  lemma {:induction false} ValConcat(a: string, b: string)
    requires AllDigits(a) && AllDigits(b)
    ensures AllDigits(a + b)
    ensures Val(a + b) == Val(a) * Pow10(|b|) + Val(b)
  {
    if b == [] {
      assert a + b == a;
    } else {
      var b', c := b[..|b| - 1], b[|b| - 1];
      ValConcat(a, b');
      assert a + b == (a + b') + [c];
      ValSnoc(a + b', c);
      MulAssoc(Val(a), Pow10(|b'|), 10);
      assert Pow10(|b|) == 10 * Pow10(|b'|);
    }
  }

  lemma {:induction false} ValBound(s: string)
    requires AllDigits(s)
    ensures Val(s) < Pow10(|s|)
  {
    if s != [] {
      ValBound(s[..|s| - 1]);
    }
  }

  lemma {:induction false} ValZeros(n: nat)
    ensures Val(Zeros(n)) == 0
  {
    if n > 0 {
      ValZeros(n - 1);
      assert Zeros(n)[..n - 1] == Zeros(n - 1);
    }
  }

  lemma {:induction false} ValOfNatToString(n: nat)
    ensures Val(NatToString(n)) == n
  {
    if n < 10 {
      ValSnoc([], DigitChar(n));
      assert [] + [DigitChar(n)] == [DigitChar(n)];
    } else {
      ValOfNatToString(n / 10);
      ValSnoc(NatToString(n / 10), DigitChar(n % 10));
    }
  }

  /** A number below 10^k prints with at most k digits. */
  lemma {:induction false} NatToStringLength(n: nat, k: nat)
    requires k >= 1
    requires n < Pow10(k)
    ensures |NatToString(n)| <= k
  {
    if n >= 10 {
      assert k > 1 by { assert Pow10(1) == 10 * Pow10(0) == 10; }
      assert n / 10 < Pow10(k - 1);
      NatToStringLength(n / 10, k - 1);
    }
  }

  // ----- The accepted format: /^[0-9]*(\.[0-9]*)?(e[-+]?[0-9]+)?$/

  predicate IsSign(s: string) {
    s == "" || s == "-" || s == "+"
  }

  datatype Exponent = Exponent(sign: string, digits: string)

  datatype Numeral = Numeral(whole: string, fraction: Option<string>, exponent: Option<Exponent>) {
    predicate WellFormed() {
      && AllDigits(whole)
      && (fraction.Some? ==> AllDigits(fraction.value))
      && (exponent.Some? ==>
            && IsSign(exponent.value.sign)
            && AllDigits(exponent.value.digits)
            && exponent.value.digits != [])
    }

    function Coefficient(): string {
      whole + FractionText(fraction)
    }

    function Text(): string {
      Coefficient() + ExponentText(exponent)
    }
  }

  lemma FirstDigit(s: string, digits: string, rest: string)
    requires s != "" && IsDigit(s[0]) && s[1..] == digits + rest && AllDigits(digits)
    ensures s == ([s[0]] + digits) + rest && AllDigits([s[0]] + digits)
  {
    assert s == [s[0]] + s[1..];
  }

  /** The longest run of digits that `s` starts with, and what follows it. */
  function TakeDigits(s: string): (r: (string, string))
    ensures s == r.0 + r.1
    ensures AllDigits(r.0)
  {
    if s != "" && IsDigit(s[0]) then
      var (digits, rest) := TakeDigits(s[1..]);
      FirstDigit(s, digits, rest);
      ([s[0]] + digits, rest)
    else ("", s)
  }

  function ScanFraction(s: string): (Option<string>, string) {
    if s != "" && s[0] == '.' then
      var (digits, rest) := TakeDigits(s[1..]);
      (Some(digits), rest)
    else (None, s)
  }

  function ScanExponent(s: string): Option<Exponent> {
    if s != "" && s[0] == 'e' then
      var signed := s[1..] != "" && (s[1] == '-' || s[1] == '+');
      var (digits, rest) := TakeDigits(if signed then s[2..] else s[1..]);
      if digits != "" && rest == "" then Some(Exponent(if signed then [s[1]] else "", digits)) else None
    else None
  }

  /** Matches the whole of `s` against the format and returns its groups. */
  function Scan(s: string): Option<Numeral> {
    var (whole, afterWhole) := TakeDigits(s);
    var (fraction, tail) := ScanFraction(afterWhole);
    if tail == "" then Some(Numeral(whole, fraction, None))
    else
      match ScanExponent(tail)
      case Some(e) => Some(Numeral(whole, fraction, Some(e)))
      case None => None
  }

  function FractionText(fraction: Option<string>): string {
    if fraction.Some? then "." + fraction.value else ""
  }

  function ExponentText(exponent: Option<Exponent>): string {
    if exponent.Some? then "e" + (exponent.value.sign + exponent.value.digits) else ""
  }

  lemma DotThenRest(s: string)
    requires s != "" && s[0] == '.'
    ensures s == "." + s[1..]
  {
  }

  lemma ScanFractionSound(s: string)
    ensures ScanFraction(s).0.Some? ==> AllDigits(ScanFraction(s).0.value)
    ensures s == FractionText(ScanFraction(s).0) + ScanFraction(s).1
  {
    if s != "" && s[0] == '.' {
      var (digits, rest) := TakeDigits(s[1..]);
      DotThenRest(s);
      ConcatAssoc(".", digits, rest);
    } else {
      assert "" + s == s;
    }
  }

  lemma ScanExponentSound(s: string)
    requires ScanExponent(s).Some?
    ensures var e := ScanExponent(s).value;
            IsSign(e.sign) && AllDigits(e.digits) && e.digits != [] && s == ExponentText(Some(e))
  {
    assert s == "e" + s[1..];
    if s[1..] != "" && (s[1] == '-' || s[1] == '+') {
      assert s[1..] == [s[1]] + s[2..];
    }
  }

  lemma ConcatAssoc(a: string, b: string, c: string)
    ensures (a + b) + c == a + (b + c)
  {
  }

  lemma ScanSound(s: string)
    requires Scan(s).Some?
    ensures Scan(s).value.WellFormed() && Scan(s).value.Text() == s
  {
    var n := Scan(s).value;
    var afterWhole := TakeDigits(s).1;
    var tail := ScanFraction(afterWhole).1;
    ScanFractionSound(afterWhole);
    if tail != "" {
      ScanExponentSound(tail);
    }
    assert ExponentText(n.exponent) == tail;
    ConcatAssoc(n.whole, FractionText(n.fraction), tail);
  }

  lemma {:induction false} TakeDigitsUnique(digits: string, rest: string)
    requires AllDigits(digits)
    requires rest != "" ==> !IsDigit(rest[0])
    ensures TakeDigits(digits + rest) == (digits, rest)
  {
    if digits == "" {
      assert digits + rest == rest;
    } else {
      assert (digits + rest)[1..] == digits[1..] + rest;
      TakeDigitsUnique(digits[1..], rest);
      assert digits == [digits[0]] + digits[1..];
    }
  }

  lemma ScanUnsignedExponent(digits: string)
    requires AllDigits(digits) && digits != []
    ensures ScanExponent("e" + digits) == Some(Exponent("", digits))
  {
    var s := "e" + digits;
    assert s[1..] == digits == digits + "" && s[1] == digits[0];
    TakeDigitsUnique(digits, "");
  }

  lemma ScanSignedExponent(sign: char, digits: string)
    requires (sign == '-' || sign == '+') && AllDigits(digits) && digits != []
    ensures ScanExponent("e" + ([sign] + digits)) == Some(Exponent([sign], digits))
  {
    var s := "e" + ([sign] + digits);
    assert s[2..] == digits == digits + "" && s[1] == sign;
    TakeDigitsUnique(digits, "");
  }

  lemma ScanExponentOfText(e: Exponent)
    requires IsSign(e.sign) && AllDigits(e.digits) && e.digits != []
    ensures ScanExponent(ExponentText(Some(e))) == Some(e)
  {
    if e.sign == "" {
      assert e.sign + e.digits == e.digits;
      ScanUnsignedExponent(e.digits);
    } else {
      assert e.sign == [e.sign[0]];
      ScanSignedExponent(e.sign[0], e.digits);
    }
  }

  lemma ScanFractionOfText(fraction: Option<string>, tail: string)
    requires fraction.Some? ==> AllDigits(fraction.value)
    requires tail != "" ==> tail[0] == 'e'
    ensures ScanFraction(FractionText(fraction) + tail) == (fraction, tail)
  {
    if fraction.Some? {
      assert (FractionText(fraction) + tail)[1..] == fraction.value + tail;
      TakeDigitsUnique(fraction.value, tail);
    } else {
      assert FractionText(fraction) + tail == tail;
    }
  }

  /** The format is unambiguous: every well-formed numeral is recognised with exactly its own groups. */
  lemma ScanOfText(n: Numeral)
    requires n.WellFormed()
    ensures Scan(n.Text()) == Some(n)
  {
    var fraction, tail := FractionText(n.fraction), ExponentText(n.exponent);
    assert n.Text() == n.whole + (fraction + tail);
    TakeDigitsUnique(n.whole, fraction + tail);
    ScanFractionOfText(n.fraction, tail);
    if n.exponent.Some? {
      ScanExponentOfText(n.exponent.value);
    }
  }

  // ----- What a numeral means

  /** The digits of a numeral as one integer. */
  function Significand(n: Numeral): nat
    requires n.WellFormed()
  {
    var f := if n.fraction.Some? then n.fraction.value else "";
    ValConcat(n.whole, f);
    Val(n.whole + f)
  }

  function FractionLength(n: Numeral): nat {
    if n.fraction.Some? then |n.fraction.value| else 0
  }

  /** `v` shifted k decimal places to the right, truncating. */
  function ShiftRight(v: nat, k: nat): nat {
    DivNonneg(v, Pow10(k));
    v / Pow10(k)
  }

  /** `v` shifted k decimal places to the left. */
  function ShiftLeft(v: nat, k: nat): nat {
    v * Pow10(k)
  }

  /** The exact value truncated to 18 decimals, then scaled up when the exponent is positive. */
  function Meaning(n: Numeral): Result<nat>
    requires n.WellFormed()
  {
    var scaled := ShiftLeft(Significand(n), PRECISION);
    var f := FractionLength(n);
    if n.Coefficient() == "" then Err
    else if n.exponent.None? then Ok(ShiftRight(scaled, f))
    else
      var k := Val(n.exponent.value.digits);
      if n.exponent.value.sign == "-" then Ok(ShiftRight(scaled, f + k))
      else Ok(ShiftLeft(ShiftRight(scaled, f), k))
  }

  function Parse(s: string): Result<nat> {
    match Scan(s)
    case Some(n) => ScanSound(s); Meaning(n)
    case None => Err
  }

  lemma DigitsIsPow10()
    ensures Pow10(PRECISION) == DIGITS
  {
    assert Pow10(9) == 1_000_000_000;
    Pow10Adds(9, 9);
  }

  lemma ShiftRightBounds(v: nat, k: nat)
    ensures ShiftLeft(ShiftRight(v, k), k) <= v < ShiftLeft(ShiftRight(v, k), k) + Pow10(k)
  {
    DivBounds(v, Pow10(k));
  }

  lemma ShiftRightUnique(v: nat, k: nat, q: nat)
    requires ShiftLeft(q, k) <= v < ShiftLeft(q, k) + Pow10(k)
    ensures ShiftRight(v, k) == q
  {
    DivUnique(v, Pow10(k), q);
  }

  lemma ShiftLeftMono(v: nat, w: nat, k: nat)
    requires v <= w
    ensures ShiftLeft(v, k) <= ShiftLeft(w, k)
  {
    MulMono(v, w, Pow10(k));
  }

  lemma ShiftLeftZero(v: nat)
    ensures ShiftLeft(v, 0) == v
    ensures ShiftRight(v, 0) == v
  {
  }

  lemma ShiftLeftAdd(v: nat, w: nat, k: nat)
    ensures ShiftLeft(v + w, k) == ShiftLeft(v, k) + ShiftLeft(w, k)
  {
  }

  lemma ShiftLeftTwice(v: nat, j: nat, k: nat)
    ensures ShiftLeft(ShiftLeft(v, j), k) == ShiftLeft(v, j + k)
  {
    Pow10Adds(j, k);
    MulAssoc(v, Pow10(j), Pow10(k));
  }

  lemma ShiftRightTwice(v: nat, j: nat, k: nat)
    ensures ShiftRight(ShiftRight(v, j), k) == ShiftRight(v, j + k)
  {
    Pow10Adds(j, k);
    DivDiv(v, Pow10(j), Pow10(k));
  }

  lemma ShiftLeftRight(v: nat, j: nat, k: nat)
    requires k <= j
    ensures ShiftRight(ShiftLeft(v, j), k) == ShiftLeft(v, j - k)
  {
    ShiftLeftTwice(v, j - k, k);
    ShiftRightUnique(ShiftLeft(v, j), k, ShiftLeft(v, j - k));
  }

  /** Truncating f places before scaling up k places loses less than 10^k. */
  lemma ShiftRightThenLeft(v: nat, f: nat, k: nat)
    ensures var r := ShiftLeft(ShiftRight(v, f), k);
            ShiftLeft(r, f) <= ShiftLeft(v, k) < ShiftLeft(r + Pow10(k), f)
  {
    var q := ShiftRight(v, f);
    ShiftRightBounds(v, f);
    ShiftLeftAdd(q, 1, f);
    ShiftLeftAdd(q, 1, k);
    ShiftLeftMono(ShiftLeft(q, f), v, k);
    ShiftLeftMono(v + 1, ShiftLeft(q + 1, f), k);
    ShiftLeftAdd(v, 1, k);
    ShiftLeftTwice(q, f, k);
    ShiftLeftTwice(q, k, f);
    ShiftLeftTwice(q + 1, f, k);
    ShiftLeftTwice(q + 1, k, f);
  }

  /** Of a value r with f fractional digits still to be cut: at most `exact` units, and short by less than 10^k. */
  ghost predicate IsCutAt(r: nat, exact: nat, f: nat, k: nat) {
    && ShiftLeft(r, f) <= exact < ShiftLeft(r + Pow10(k), f)
    && (f <= PRECISION ==> ShiftLeft(r, f) == exact)
  }

  /** A significand v with f fractional digits, cut to 18 of them and then shifted k to the left. */
  lemma ShiftedMeaning(v: nat, f: nat, k: nat)
    ensures IsCutAt(ShiftLeft(ShiftRight(ShiftLeft(v, PRECISION), f), k), ShiftLeft(v, PRECISION + k), f, k)
  {
    ShiftLeftTwice(v, PRECISION, k);
    ShiftRightThenLeft(ShiftLeft(v, PRECISION), f, k);
    if f <= PRECISION {
      ShiftLeftRight(v, PRECISION, f);
      ShiftLeftTwice(v, PRECISION - f, k);
      ShiftLeftTwice(v, PRECISION - f + k, f);
    }
  }

  lemma HoldsOfMeaning(holds: (nat, nat, nat, nat) -> bool, n: Numeral)
    requires n.WellFormed() && n.Coefficient() != "" && n.exponent.Some? && n.exponent.value.sign != "-"
    requires var v, f, k := Significand(n), FractionLength(n), Val(n.exponent.value.digits);
             holds(ShiftLeft(ShiftRight(ShiftLeft(v, PRECISION), f), k), ShiftLeft(v, PRECISION + k), f, k)
    ensures var k := Val(n.exponent.value.digits);
            holds(Meaning(n).value, ShiftLeft(Significand(n), PRECISION + k), FractionLength(n), k)
  {
  }

  /**
   A positive exponent k is exact for at most 18 fractional digits, and
   otherwise the result is low by less than 10^k units.
   */
  lemma PositiveExponentMeaning(n: Numeral)
    requires n.WellFormed() && n.Coefficient() != "" && n.exponent.Some? && n.exponent.value.sign != "-"
    ensures var k := Val(n.exponent.value.digits);
            IsCutAt(Meaning(n).value, ShiftLeft(Significand(n), PRECISION + k), FractionLength(n), k)
  {
    ShiftedMeaning(Significand(n), FractionLength(n), Val(n.exponent.value.digits));
    HoldsOfMeaning(IsCutAt, n);
  }

  // ----- The parser

  /** `split(c)` of a string that contains one `c`. */
  function IndexOf(s: string, c: char): (i: nat)
    requires c in s
    ensures i < |s| && s[i] == c
    ensures forall j :: 0 <= j < i ==> s[j] != c
  {
    if s[0] == c then 0 else
      assert s == [s[0]] + s[1..];
      1 + IndexOf(s[1..], c)
  }

  /** `BigNumber.from(whole).mul(DIGITS).add(mantissa)` */
  function FromParts(whole: nat, mantissa: nat): nat {
    whole * DIGITS + mantissa
  }

  lemma TimesDigits(whole: nat, mantissa: nat)
    ensures FromParts(whole, mantissa) == ShiftLeft(whole, PRECISION) + mantissa
  {
    DigitsIsPow10();
  }

  /** The fraction padded with zeros, or cut, to 18 digits. */
  function CutOrPad(fraction: string): (mantissa: string)
    requires AllDigits(fraction)
    ensures AllDigits(mantissa) && |mantissa| == PRECISION
  {
    if |fraction| < PRECISION then fraction + Zeros(PRECISION - |fraction|) else fraction[..PRECISION]
  }

  lemma ValAppendZeros(s: string, k: nat)
    requires AllDigits(s)
    ensures AllDigits(s + Zeros(k))
    ensures Val(s + Zeros(k)) == ShiftLeft(Val(s), k)
  {
    ValConcat(s, Zeros(k));
    ValZeros(k);
  }

  lemma PaddedMeaning(whole: string, fraction: string)
    requires AllDigits(whole) && AllDigits(fraction) && |fraction| < PRECISION
    ensures AllDigits(whole + fraction) && AllDigits(whole + CutOrPad(fraction))
    ensures ShiftRight(ShiftLeft(Val(whole + fraction), PRECISION), |fraction|) == Val(whole + CutOrPad(fraction))
  {
    var k := PRECISION - |fraction|;
    ValAppendZeros(whole + fraction, k);
    assert whole + fraction + Zeros(k) == whole + CutOrPad(fraction);
    ShiftLeftRight(Val(whole + fraction), PRECISION, |fraction|);
  }

  lemma CutMeaning(whole: string, fraction: string)
    requires AllDigits(whole) && AllDigits(fraction) && |fraction| >= PRECISION
    ensures AllDigits(whole + fraction) && AllDigits(whole + CutOrPad(fraction))
    ensures ShiftRight(ShiftLeft(Val(whole + fraction), PRECISION), |fraction|) == Val(whole + CutOrPad(fraction))
  {
    var mantissa, rest := CutOrPad(fraction), fraction[PRECISION..];
    ValConcat(whole + mantissa, rest);
    assert whole + mantissa + rest == whole + fraction;
    var v := Val(whole + fraction);
    ValBound(rest);
    ShiftRightUnique(v, |rest|, Val(whole + mantissa));
    ShiftRightTwice(ShiftLeft(v, PRECISION), PRECISION, |rest|);
    ShiftLeftRight(v, PRECISION, PRECISION);
    ShiftLeftZero(v);
  }

  lemma CutOrPadMeaning(whole: string, fraction: string)
    requires AllDigits(whole) && AllDigits(fraction)
    ensures AllDigits(whole + fraction)
    ensures ShiftRight(ShiftLeft(Val(whole + fraction), PRECISION), |fraction|)
         == FromParts(Val(whole), Val(CutOrPad(fraction)))
  {
    ValConcat(whole, CutOrPad(fraction));
    TimesDigits(Val(whole), Val(CutOrPad(fraction)));
    if |fraction| < PRECISION {
      PaddedMeaning(whole, fraction);
    } else {
      CutMeaning(whole, fraction);
    }
  }

  /** Cutting the fraction to 18 digits, or padding it, yields the truncated value. */
  lemma PointedMeaning(whole: string, fraction: string)
    requires AllDigits(whole) && AllDigits(fraction)
    ensures Meaning(Numeral(whole, Some(fraction), None)) == Ok(FromParts(Val(whole), Val(CutOrPad(fraction))))
  {
    CutOrPadMeaning(whole, fraction);
    var n := Numeral(whole, Some(fraction), None);
    assert n.Coefficient()[|whole|] == '.';
  }

  lemma PlainMeaning(whole: string)
    requires AllDigits(whole) && whole != []
    ensures Meaning(Numeral(whole, None, None)) == Ok(FromParts(Val(whole), 0))
  {
    assert whole + "" == whole;
    TimesDigits(Val(whole), 0);
    ShiftLeftRight(Val(whole), PRECISION, 0);
  }

  /** An exponent acts on the coefficient's own meaning; nested truncations collapse. */
  lemma ExponentMeaning(n: Numeral)
    requires n.WellFormed() && n.exponent.Some?
    ensures var coefficient := Meaning(n.(exponent := None));
            var k := Val(n.exponent.value.digits);
            Meaning(n) == match coefficient
                          case Ok(v) => Ok(if n.exponent.value.sign == "-" then ShiftRight(v, k) else ShiftLeft(v, k))
                          case Err => Err
  {
    ShiftRightTwice(ShiftLeft(Significand(n), PRECISION), FractionLength(n), Val(n.exponent.value.digits));
  }

  lemma NotInDigits(s: string, c: char)
    requires AllDigits(s) && !IsDigit(c)
    ensures c !in s
  {
  }

  lemma NotInConcat(a: string, b: string, c: char)
    requires c !in a && c !in b
    ensures c !in a + b
  {
  }

  /** A separator that does not occur before it is found where it stands. */
  lemma FirstIndex(a: string, c: char, b: string)
    requires c !in a
    ensures var s := a + ([c] + b); c in s && IndexOf(s, c) == |a|
  {
    var s := a + ([c] + b);
    assert s[|a|] == c;
    assert forall i :: 0 <= i < |a| ==> s[i] == a[i];
  }

  lemma NoExponentSign(n: Numeral)
    requires n.WellFormed()
    ensures 'e' !in n.Coefficient()
  {
    NotInDigits(n.whole, 'e');
    if n.fraction.Some? {
      NotInDigits(n.fraction.value, 'e');
      NotInConcat(".", n.fraction.value, 'e');
    }
    NotInConcat(n.whole, FractionText(n.fraction), 'e');
  }

  /** The only 'e' and '.' of a numeral are those that introduce its groups. */
  lemma GroupPositions(n: Numeral)
    requires n.WellFormed()
    ensures 'e' in n.Text() <==> n.exponent.Some?
    ensures n.exponent.Some? ==> IndexOf(n.Text(), 'e') == |n.Coefficient()|
    ensures n.exponent.None? ==> ('.' in n.Text() <==> n.fraction.Some?)
    ensures n.exponent.None? && n.fraction.Some? ==> IndexOf(n.Text(), '.') == |n.whole|
  {
    NoExponentSign(n);
    NotInDigits(n.whole, '.');
    if n.exponent.Some? {
      FirstIndex(n.Coefficient(), 'e', n.exponent.value.sign + n.exponent.value.digits);
    } else {
      assert n.Text() == n.Coefficient();
      if n.fraction.Some? {
        FirstIndex(n.whole, '.', n.fraction.value);
      } else {
        assert n.Coefficient() == n.whole;
      }
    }
  }

  lemma ParseOfText(n: Numeral)
    requires n.WellFormed()
    ensures Parse(n.Text()) == Meaning(n)
  {
    ScanOfText(n);
  }

  /** How `split("e")` takes a numeral apart. */
  lemma ExponentSlices(n: Numeral)
    requires n.WellFormed() && n.exponent.Some?
    ensures var e := n.exponent.value;
            var at := |n.Coefficient()|;
            && n.Text()[..at] == n.(exponent := None).Text()
            && n.Text()[at + 1..] == e.sign + e.digits
  {
    var e := n.exponent.value;
    assert n.(exponent := None).Text() == n.Coefficient();
    assert ExponentText(n.exponent)[1..] == e.sign + e.digits;
  }

  /** The digits that follow the optional sign of an exponent. */
  function Unsigned(exponent: string): string {
    if exponent != "" && (exponent[0] == '-' || exponent[0] == '+') then exponent[1..] else exponent
  }

  lemma UnsignedExponent(e: Exponent)
    requires IsSign(e.sign) && AllDigits(e.digits) && e.digits != []
    ensures var text := e.sign + e.digits;
            text != "" && Unsigned(text) == e.digits && (text[0] == '-' <==> e.sign == "-")
  {
    if e.sign == "" {
      assert e.sign + e.digits == e.digits;
      assert IsDigit(e.digits[0]);
    } else {
      assert (e.sign + e.digits)[1..] == e.digits;
    }
  }

  /** A coefficient's meaning shifted as the exponent says. */
  function Shifted(coefficient: Result<nat>, exponent: string): Result<nat>
    requires exponent != "" && AllDigits(Unsigned(exponent))
  {
    match coefficient
    case Ok(v) => Ok(if exponent[0] == '-' then ShiftRight(v, Val(Unsigned(exponent)))
                     else ShiftLeft(v, Val(Unsigned(exponent))))
    case Err => Err
  }

  /** Parsing with an exponent reduces to parsing the coefficient. */
  lemma ExponentSplit(n: Numeral, coefficient: string, exponent: string)
    requires n.WellFormed() && n.exponent.Some?
    requires coefficient == n.Text()[..|n.Coefficient()|] && exponent == n.Text()[|n.Coefficient()| + 1..]
    ensures |coefficient| < |n.Text()|
    ensures exponent != "" && AllDigits(Unsigned(exponent))
    ensures Meaning(n) == Shifted(Parse(coefficient), exponent)
  {
    ExponentSlices(n);
    UnsignedExponent(n.exponent.value);
    ParseOfText(n.(exponent := None));
    ExponentMeaning(n);
  }

  lemma PointSplit(n: Numeral)
    requires n.WellFormed() && n.exponent.None? && n.fraction.Some?
    ensures n.Text()[..|n.whole|] == n.whole
    ensures n.Text()[|n.whole| + 1..] == n.fraction.value
    ensures Meaning(n) == Ok(FromParts(Val(n.whole), Val(CutOrPad(n.fraction.value))))
  {
    assert n == Numeral(n.whole, Some(n.fraction.value), None);
    PointedMeaning(n.whole, n.fraction.value);
  }

  lemma PlainSplit(n: Numeral)
    requires n.WellFormed() && n.exponent.None? && n.fraction.None? && n.Text() != ""
    ensures n.Text() == n.whole
    ensures Meaning(n) == Ok(FromParts(Val(n.whole), 0))
  {
    assert n.Text() == n.whole;
    assert n == Numeral(n.whole, None, None);
    PlainMeaning(n.whole);
  }

  /** The part of `_fromString` that handles a numeral without exponent. */
  method FromCoefficient(s: string, ghost n: Numeral) returns (r: Result<nat>)
    requires n.WellFormed() && n.exponent.None? && n.Text() == s && s != ""
    ensures r == Meaning(n)
  {
    GroupPositions(n);
    if '.' !in s {
      PlainSplit(n);
      return Ok(FromParts(Val(s), 0));
    }
    PointSplit(n);
    var at := IndexOf(s, '.');
    var characteristic, mantissa := s[..at], s[at + 1..];
    assert characteristic == n.whole && mantissa == n.fraction.value;
    if |mantissa| < PRECISION {
      mantissa := mantissa + Zeros(PRECISION - |mantissa|);
    } else {
      mantissa := mantissa[..PRECISION];
    }
    assert mantissa == CutOrPad(n.fraction.value);
    r := Ok(FromParts(Val(characteristic), Val(mantissa)));
  }

  /** The part of `_fromString` that shifts the coefficient. */
  method ApplyExponent(coefficient: Result<nat>, exponent: string) returns (r: Result<nat>)
    requires exponent != "" && AllDigits(Unsigned(exponent))
    ensures r == Shifted(coefficient, exponent)
  {
    if coefficient.Err? {
      return Err;
    }
    if exponent[0] == '-' {
      return Ok(ShiftRight(coefficient.value, Val(exponent[1..])));
    }
    var digits := exponent;
    if exponent[0] == '+' {
      digits := exponent[1..];
    }
    return Ok(ShiftLeft(coefficient.value, Val(digits)));
  }

  lemma ParseIsMeaning(s: string, n: Numeral)
    requires Scan(s) == Some(n)
    ensures n.WellFormed() && n.Text() == s && Parse(s) == Meaning(n)
  {
    ScanSound(s);
  }

  /** Text is accepted if and only if it spells a numeral of the format whose coefficient is not empty. */
  lemma ParseAcceptsIff(s: string)
    ensures Parse(s).Ok? <==> exists n: Numeral :: n.WellFormed() && n.Coefficient() != "" && n.Text() == s
  {
    if Scan(s).Some? {
      ParseIsMeaning(s, Scan(s).value);
    }
    forall n: Numeral | n.WellFormed() && n.Coefficient() != "" && n.Text() == s
      ensures Parse(s).Ok?
    {
      ScanOfText(n);
    }
  }

  /** Where there is an "e", it separates coefficient and exponent; where there is none, there is no exponent. */
  lemma SplitAtExponent(s: string, n: Numeral)
    requires n.WellFormed() && n.Text() == s
    ensures 'e' !in s ==> n.exponent.None?
    ensures 'e' in s ==>
              n.exponent.Some? && IndexOf(s, 'e') == |n.Coefficient()| < |s|
  {
    GroupPositions(n);
  }

  function CoefficientOf(s: string): string
    requires 'e' in s
  {
    s[..IndexOf(s, 'e')]
  }

  function ExponentOf(s: string): string
    requires 'e' in s
  {
    s[IndexOf(s, 'e') + 1..]
  }

  lemma ParseExponential(s: string)
    requires Scan(s).Some? && 'e' in s
    ensures |CoefficientOf(s)| < |s|
    ensures ExponentOf(s) != "" && AllDigits(Unsigned(ExponentOf(s)))
    ensures Parse(s) == Shifted(Parse(CoefficientOf(s)), ExponentOf(s))
  {
    var n := Scan(s).value;
    ParseIsMeaning(s, n);
    SplitAtExponent(s, n);
    ExponentSplit(n, CoefficientOf(s), ExponentOf(s));
  }

  /**
   `_fromString`: yields the numeral's meaning, and throws exactly when the
   text does not match the format or has an empty coefficient.
   */
  method FromString(s: string) returns (r: Result<nat>)
    ensures r == Parse(s)
    decreases |s|
  {
    var groups := Scan(s);
    if s == "" || groups.None? {
      return Err;
    }
    if 'e' in s {
      ParseExponential(s);
      var coefficient := FromString(CoefficientOf(s));
      r := ApplyExponent(coefficient, ExponentOf(s));
    } else {
      ghost var n := groups.value;
      ParseIsMeaning(s, n);
      SplitAtExponent(s, n);
      r := FromCoefficient(s, n);
    }
  }

  // ----- The printers

  function PadStart(s: string, n: nat): string {
    if |s| < n then Zeros(n - |s|) + s else s
  }

  /** `replace(/0*$/, "")` */
  function TrimZeros(s: string): string {
    if s != [] && s[|s| - 1] == '0' then TrimZeros(s[..|s| - 1]) else s
  }

  /** '∞' */
  const INFINITY_TEXT: string := ['\U{221E}']

  /** `toString()` */
  function ToString(d: nat): string {
    if d == INFINITY then INFINITY_TEXT
    else
      var characteristic := d / DIGITS;
      var mantissa := d % DIGITS;
      if mantissa == 0 then NatToString(characteristic)
      else NatToString(characteristic) + "." + TrimZeros(PadStart(NatToString(mantissa), PRECISION))
  }

  /** `_roundUp`: half of the last printed digit is added before cutting. */
  function RoundUp(d: nat, precision: nat): nat
    requires precision < PRECISION
  {
    d + 5 * Pow10(PRECISION - 1 - precision)
  }

  /** `toString(precision)` */
  function ToStringWithPrecision(d: nat, precision: int): Result<string> {
    if d == INFINITY then Ok(INFINITY_TEXT)
    else if precision < 0 then Err
    else
      var value := if precision < PRECISION then RoundUp(d, precision) else d;
      var characteristic := value / DIGITS;
      var mantissa := value % DIGITS;
      if precision == 0 then Ok(NatToString(characteristic))
      else
        var padded := PadStart(NatToString(mantissa), PRECISION);
        var cut := if precision < |padded| then precision else |padded|;
        Ok(NatToString(characteristic) + "." + padded[..cut])
  }

  lemma {:induction false} TrimZerosSplits(s: string)
    ensures |TrimZeros(s)| <= |s|
    ensures s == TrimZeros(s) + Zeros(|s| - |TrimZeros(s)|)
  {
    if s != [] && s[|s| - 1] == '0' {
      TrimZerosSplits(s[..|s| - 1]);
      var k := |s| - |TrimZeros(s)|;
      assert Zeros(k) == Zeros(k - 1) + ['0'];
    }
  }

  lemma {:induction false} TrimmedEndsInNoZero(s: string)
    ensures TrimZeros(s) != [] ==> TrimZeros(s)[|TrimZeros(s)| - 1] != '0'
  {
    if s != [] && s[|s| - 1] == '0' {
      TrimmedEndsInNoZero(s[..|s| - 1]);
    }
  }

  lemma ValOfPadStart(s: string, n: nat)
    requires AllDigits(s)
    ensures AllDigits(PadStart(s, n))
    ensures Val(PadStart(s, n)) == Val(s)
  {
    if |s| < n {
      ValConcat(Zeros(n - |s|), s);
      ValZeros(n - |s|);
    }
  }

  lemma PaddedMantissa(mantissa: nat)
    requires mantissa < DIGITS
    ensures var padded := PadStart(NatToString(mantissa), PRECISION);
            |padded| == PRECISION && AllDigits(padded) && Val(padded) == mantissa
  {
    DigitsIsPow10();
    NatToStringLength(mantissa, PRECISION);
    ValOfNatToString(mantissa);
    ValOfPadStart(NatToString(mantissa), PRECISION);
  }

  lemma CutOrPadIsPadding(fraction: string, k: nat)
    requires AllDigits(fraction) && |fraction| + k == PRECISION
    ensures CutOrPad(fraction) == fraction + Zeros(k)
  {
    if k == 0 {
      assert fraction + Zeros(0) == fraction;
    }
  }

  lemma ParseOfPointedText(whole: string, fraction: string)
    requires AllDigits(whole) && AllDigits(fraction)
    ensures Parse(whole + "." + fraction) == Ok(FromParts(Val(whole), Val(CutOrPad(fraction))))
  {
    var n := Numeral(whole, Some(fraction), None);
    assert n.Text() == whole + "." + fraction;
    ParseOfText(n);
    PointedMeaning(whole, fraction);
  }

  lemma ValOfPadding(fraction: string, k: nat)
    requires AllDigits(fraction) && |fraction| + k == PRECISION
    ensures Val(CutOrPad(fraction)) == ShiftLeft(Val(fraction), k)
  {
    CutOrPadIsPadding(fraction, k);
    ValAppendZeros(fraction, k);
  }

  lemma ParsePointed(whole: nat, fraction: string, k: nat)
    requires AllDigits(fraction) && |fraction| + k == PRECISION
    ensures Parse(NatToString(whole) + "." + fraction) == Ok(FromParts(whole, ShiftLeft(Val(fraction), k)))
  {
    ValOfNatToString(whole);
    ValOfPadding(fraction, k);
    ParseOfPointedText(NatToString(whole), fraction);
  }

  lemma ParsePlain(whole: nat)
    ensures Parse(NatToString(whole)) == Ok(FromParts(whole, 0))
  {
    var n := Numeral(NatToString(whole), None, None);
    assert n.Text() == NatToString(whole);
    ScanOfText(n);
    PlainMeaning(n.whole);
    ValOfNatToString(whole);
  }

  /** The digits printed after the point, and what they stand for. */
  lemma TrimmedMantissa(mantissa: nat) returns (trimmed: string, k: nat)
    requires mantissa < DIGITS
    ensures trimmed == TrimZeros(PadStart(NatToString(mantissa), PRECISION))
    ensures AllDigits(trimmed) && |trimmed| + k == PRECISION && ShiftLeft(Val(trimmed), k) == mantissa
  {
    var padded := PadStart(NatToString(mantissa), PRECISION);
    trimmed := TrimZeros(padded);
    PaddedMantissa(mantissa);
    TrimZerosSplits(padded);
    assert AllDigits(trimmed) by {
      assert forall i :: 0 <= i < |trimmed| ==> trimmed[i] == padded[i];
    }
    k := PRECISION - |trimmed|;
    ValAppendZeros(trimmed, k);
  }

  lemma ParseFractional(characteristic: nat, mantissa: nat)
    requires mantissa < DIGITS
    ensures Parse(NatToString(characteristic) + "." + TrimZeros(PadStart(NatToString(mantissa), PRECISION)))
         == Ok(FromParts(characteristic, mantissa))
  {
    var trimmed, k := TrimmedMantissa(mantissa);
    ParsePointed(characteristic, trimmed, k);
  }

  /** Printing a Decimal other than INFINITY and parsing it gives the same Decimal back. */
  lemma ParseToString(d: nat)
    ensures Parse(ToString(d)) == if d == INFINITY then Err else Ok(d)
  {
    if d == INFINITY {
      assert TakeDigits(INFINITY_TEXT) == ("", INFINITY_TEXT);
    } else if d % DIGITS == 0 {
      ParsePlain(d / DIGITS);
    } else {
      ParseFractional(d / DIGITS, d % DIGITS);
    }
  }

  /** Hence printing is injective. */
  lemma ToStringInjective(a: nat, b: nat)
    requires ToString(a) == ToString(b)
    ensures a == b
  {
    ParseToString(a);
    ParseToString(b);
  }

  // ----- The one text of each Decimal

  /** Digits without a superfluous leading zero. */
  predicate IsCanonicalWhole(whole: string) {
    AllDigits(whole) && whole != [] && (whole[0] == '0' ==> |whole| == 1)
  }

  /** Digits without a superfluous trailing zero, and not too many. */
  predicate IsCanonicalFraction(fraction: string) {
    AllDigits(fraction) && 1 <= |fraction| <= PRECISION && fraction[|fraction| - 1] != '0'
  }

  predicate IsCanonical(whole: string, fraction: Option<string>) {
    IsCanonicalWhole(whole) && (fraction.Some? ==> IsCanonicalFraction(fraction.value))
  }

  lemma {:induction false} NatToStringIsCanonical(n: nat)
    ensures IsCanonicalWhole(NatToString(n))
    ensures NatToString(n)[0] == '0' ==> n == 0
  {
    if n >= 10 {
      NatToStringIsCanonical(n / 10);
    }
  }

  lemma PrintedDigit(c: char)
    requires IsDigit(c)
    ensures NatToString(DigitValue(c)) == [c]
  {
  }

  lemma PrintedSnoc(n: nat, c: char)
    requires n > 0 && IsDigit(c)
    ensures NatToString(10 * n + DigitValue(c)) == NatToString(n) + [c]
  {
  }

  /** `BigNumber.toString` gives back the digits that `BigNumber.from` read. */
  lemma {:induction false} NatToStringOfVal(whole: string)
    requires IsCanonicalWhole(whole)
    ensures NatToString(Val(whole)) == whole
  {
    var init, last := whole[..|whole| - 1], whole[|whole| - 1];
    assert whole == init + [last];
    if init == [] {
      PrintedDigit(last);
    } else {
      NatToStringOfVal(init);
      assert NatToString(0)[0] == '0' != init[0];
      PrintedSnoc(Val(init), last);
    }
  }

  lemma SameLastDigit(x: nat, c: char, y: nat, d: char)
    requires IsDigit(c) && IsDigit(d) && 10 * x + DigitValue(c) == 10 * y + DigitValue(d)
    ensures x == y && c == d
  {
  }

  lemma SameParts(a: string, b: string)
    requires |a| == |b| > 0 && a[..|a| - 1] == b[..|a| - 1] && a[|a| - 1] == b[|a| - 1]
    ensures a == b
  {
    assert a == a[..|a| - 1] + [a[|a| - 1]];
  }

  /** Digit strings of one length are told apart by their values. */
  lemma {:induction false} SameDigits(a: string, b: string)
    requires AllDigits(a) && AllDigits(b) && |a| == |b| && Val(a) == Val(b)
    ensures a == b
  {
    if a != [] {
      var n := |a| - 1;
      SameLastDigit(Val(a[..n]), a[n], Val(b[..n]), b[n]);
      SameDigits(a[..n], b[..n]);
      SameParts(a, b);
    }
  }

  lemma NotAllZeros(s: string, i: nat)
    requires AllDigits(s) && i < |s| && s[i] != '0'
    ensures Val(s) > 0
  {
    if Val(s) == 0 {
      ValZeros(|s|);
      SameDigits(s, Zeros(|s|));
    }
  }

  lemma {:induction false} TrimOfPadding(fraction: string, k: nat)
    requires IsCanonicalFraction(fraction)
    ensures TrimZeros(fraction + Zeros(k)) == fraction
  {
    if k == 0 {
      assert fraction + Zeros(0) == fraction;
    } else {
      TrimOfPadding(fraction, k - 1);
      assert (fraction + Zeros(k))[..|fraction| + k - 1] == fraction + Zeros(k - 1);
    }
  }

  /** The 18 decimals of a fraction, and the fraction back from their value. */
  lemma PrintedFraction(fraction: string)
    requires IsCanonicalFraction(fraction)
    ensures 0 < Val(CutOrPad(fraction)) < DIGITS
    ensures TrimZeros(PadStart(NatToString(Val(CutOrPad(fraction))), PRECISION)) == fraction
  {
    var k, mantissa := PRECISION - |fraction|, CutOrPad(fraction);
    CutOrPadIsPadding(fraction, k);
    ValBound(mantissa);
    DigitsIsPow10();
    NotAllZeros(mantissa, |fraction| - 1);
    PaddedMantissa(Val(mantissa));
    SameDigits(PadStart(NatToString(Val(mantissa)), PRECISION), mantissa);
    TrimOfPadding(fraction, k);
  }

  /**
   Every Decimal other than INFINITY prints without superfluous zeros, and
   with a point exactly when it is not whole.
   */
  lemma ToStringIsCanonical(d: nat) returns (whole: string, fraction: Option<string>)
    requires d != INFINITY
    ensures ToString(d) == whole + FractionText(fraction)
    ensures IsCanonical(whole, fraction)
    ensures fraction.None? <==> d % DIGITS == 0
    ensures d % DIGITS == 0 ==> '.' !in ToString(d)
  {
    whole := NatToString(d / DIGITS);
    NatToStringIsCanonical(d / DIGITS);
    if d % DIGITS == 0 {
      fraction := None;
      NotInDigits(whole, '.');
      assert whole + "" == whole;
    } else {
      var trimmed, k := TrimmedMantissa(d % DIGITS);
      TrimmedEndsInNoZero(PadStart(NatToString(d % DIGITS), PRECISION));
      fraction := Some(trimmed);
      ConcatAssoc(whole, ".", trimmed);
    }
  }

  lemma PrintedParts(whole: nat, mantissa: nat)
    requires mantissa < DIGITS
    ensures var d := FromParts(whole, mantissa); d / DIGITS == whole && d % DIGITS == mantissa
  {
  }

  lemma ToStringParsePlain(whole: string)
    requires IsCanonicalWhole(whole)
    ensures Parse(whole) == Ok(FromParts(Val(whole), 0))
    ensures FromParts(Val(whole), 0) != INFINITY ==> ToString(FromParts(Val(whole), 0)) == whole
  {
    NatToStringOfVal(whole);
    ParsePlain(Val(whole));
    PrintedParts(Val(whole), 0);
  }

  lemma ToStringParsePointed(whole: string, fraction: string)
    requires IsCanonicalWhole(whole) && IsCanonicalFraction(fraction)
    ensures var d := FromParts(Val(whole), Val(CutOrPad(fraction)));
            Parse(whole + "." + fraction) == Ok(d) && (d != INFINITY ==> ToString(d) == whole + "." + fraction)
  {
    NatToStringOfVal(whole);
    PrintedFraction(fraction);
    ParseOfPointedText(whole, fraction);
    PrintedParts(Val(whole), Val(CutOrPad(fraction)));
  }

  /** Conversely, parsing a text without superfluous zeros and printing the result gives the same text back. */
  lemma ToStringParse(whole: string, fraction: Option<string>)
    requires IsCanonical(whole, fraction)
    ensures var text := whole + FractionText(fraction);
            Parse(text).Ok? && (Parse(text).value != INFINITY ==> ToString(Parse(text).value) == text)
  {
    if fraction.None? {
      assert whole + "" == whole;
      ToStringParsePlain(whole);
    } else {
      ConcatAssoc(whole, ".", fraction.value);
      ToStringParsePointed(whole, fraction.value);
    }
  }

  // ----- Rounding

  /** `d` rounded to the nearest multiple of 10^-precision, ties upwards. */
  function Rounded(d: nat, precision: nat): nat {
    if precision < PRECISION then
      var k := PRECISION - precision;
      ShiftLeft(ShiftRight(d + Pow10(k) / 2, k), k)
    else d
  }

  lemma HalfUnit(precision: nat)
    requires precision < PRECISION
    ensures Pow10(PRECISION - precision) == 2 * (5 * Pow10(PRECISION - 1 - precision))
    ensures Pow10(PRECISION - precision) / 2 == 5 * Pow10(PRECISION - 1 - precision)
  {
  }

  /** The first p of 18 digits are the leading part of the mantissa. */
  lemma CutMantissa(padded: string, p: nat)
    requires |padded| == PRECISION && AllDigits(padded) && p <= PRECISION
    ensures AllDigits(padded[..p])
    ensures Val(padded[..p]) == ShiftRight(Val(padded), PRECISION - p)
  {
    assert padded == padded[..p] + padded[p..];
    ValConcat(padded[..p], padded[p..]);
    ValBound(padded[p..]);
    ShiftRightUnique(Val(padded), PRECISION - p, Val(padded[..p]));
  }

  /** Splitting off whole units does not change how many multiples of 10^k fit. */
  lemma CutValue(value: nat, k: nat)
    requires k <= PRECISION
    ensures FromParts(value / DIGITS, ShiftLeft(ShiftRight(value % DIGITS, k), k)) == ShiftLeft(ShiftRight(value, k), k)
  {
    var c, m := value / DIGITS, value % DIGITS;
    var g := ShiftLeft(c, PRECISION - k);
    var q := ShiftRight(m, k);
    TimesDigits(c, m);
    TimesDigits(c, ShiftLeft(q, k));
    ShiftLeftTwice(c, PRECISION - k, k);
    ShiftRightBounds(m, k);
    ShiftLeftAdd(g, q, k);
    assert value == FromParts(c, m);
    ShiftRightUnique(value, k, g + q);
  }

  /** What is left of `value` when its text is cut after p decimals. */
  lemma ParseCut(value: nat, p: nat)
    requires 1 <= p <= PRECISION
    ensures var padded := PadStart(NatToString(value % DIGITS), PRECISION);
            && |padded| == PRECISION
            && Parse(NatToString(value / DIGITS) + "." + padded[..p])
               == Ok(ShiftLeft(ShiftRight(value, PRECISION - p), PRECISION - p))
  {
    var padded := PadStart(NatToString(value % DIGITS), PRECISION);
    PaddedMantissa(value % DIGITS);
    CutMantissa(padded, p);
    ParsePointed(value / DIGITS, padded[..p], PRECISION - p);
    CutValue(value, PRECISION - p);
  }

  lemma TextWithPrecision(d: nat, precision: nat, value: nat, p: nat)
    requires d != INFINITY && precision >= 1
    requires value == if precision < PRECISION then RoundUp(d, precision) else d
    requires p == if precision < PRECISION then precision else PRECISION
    ensures var padded := PadStart(NatToString(value % DIGITS), PRECISION);
            && |padded| == PRECISION
            && ToStringWithPrecision(d, precision) == Ok(NatToString(value / DIGITS) + "." + padded[..p])
  {
    PaddedMantissa(value % DIGITS);
  }

  lemma RoundedBySum(d: nat, precision: nat)
    requires precision < PRECISION
    ensures var k := PRECISION - precision;
            Rounded(d, precision) == ShiftLeft(ShiftRight(RoundUp(d, precision), k), k)
  {
    HalfUnit(precision);
  }

  /** Parsing what `toString(precision)` prints yields the rounded Decimal, and the Decimal itself from 18 on. */
  lemma ParseToStringWithPrecision(d: nat, precision: nat)
    requires d != INFINITY
    ensures ToStringWithPrecision(d, precision).Ok?
    ensures Parse(ToStringWithPrecision(d, precision).value) == Ok(Rounded(d, precision))
  {
    if precision >= PRECISION {
      ParseCut(d, PRECISION);
      TextWithPrecision(d, precision, d, PRECISION);
      ShiftLeftZero(d);
    } else {
      var value := RoundUp(d, precision);
      RoundedBySum(d, precision);
      if precision == 0 {
        ParsePlain(value / DIGITS);
        DigitsIsPow10();
        TimesDigits(value / DIGITS, 0);
      } else {
        ParseCut(value, precision);
        TextWithPrecision(d, precision, value, precision);
      }
    }
  }

  /** The rounding printer prints exactly the decimals asked for, at most 18, and no point when none are. */
  lemma PrecisionDecimals(d: nat, precision: nat) returns (whole: string, fraction: Option<string>)
    requires d != INFINITY
    ensures ToStringWithPrecision(d, precision) == Ok(whole + FractionText(fraction))
    ensures IsCanonicalWhole(whole) && (fraction.None? <==> precision == 0)
    ensures fraction.Some? ==>
              AllDigits(fraction.value) && |fraction.value| == if precision < PRECISION then precision else PRECISION
  {
    var value := if precision < PRECISION then RoundUp(d, precision) else d;
    whole := NatToString(value / DIGITS);
    NatToStringIsCanonical(value / DIGITS);
    if precision == 0 {
      fraction := None;
      assert whole + "" == whole;
    } else {
      var p := if precision < PRECISION then precision else PRECISION;
      TextWithPrecision(d, precision, value, p);
      PaddedMantissa(value % DIGITS);
      fraction := Some(PadStart(NatToString(value % DIGITS), PRECISION)[..p]);
      ConcatAssoc(whole, ".", fraction.value);
    }
  }

  /** Rounding yields a multiple of the last printed digit, at most half of it away and upwards on ties. */
  lemma RoundedIsNearest(d: nat, precision: nat)
    requires precision < PRECISION
    ensures var k := PRECISION - precision;
            Rounded(d, precision) == ShiftLeft(ShiftRight(Rounded(d, precision), k), k)
    ensures var half := 5 * Pow10(PRECISION - 1 - precision);
            d - half < Rounded(d, precision) <= d + half
  {
    HalfUnit(precision);
    RoundedBySum(d, precision);
    var k := PRECISION - precision;
    var v := RoundUp(d, precision);
    ShiftRightBounds(v, k);
    ShiftRightUnique(ShiftLeft(ShiftRight(v, k), k), k, ShiftRight(v, k));
  }

  lemma ShiftRightMono(v: nat, w: nat, k: nat)
    requires v <= w
    ensures ShiftRight(v, k) <= ShiftRight(w, k)
  {
    DivMono(v, w, Pow10(k));
  }

  /** Rounding is monotone, and rounding again changes nothing. */
  lemma RoundedMonotoneIdempotent(a: nat, b: nat, precision: nat)
    requires a <= b
    ensures Rounded(a, precision) <= Rounded(b, precision)
    ensures Rounded(Rounded(a, precision), precision) == Rounded(a, precision)
  {
    if precision < PRECISION {
      HalfUnit(precision);
      RoundedBySum(a, precision);
      RoundedBySum(b, precision);
      RoundedBySum(Rounded(a, precision), precision);
      var k := PRECISION - precision;
      var q := ShiftRight(RoundUp(a, precision), k);
      ShiftRightMono(RoundUp(a, precision), RoundUp(b, precision), k);
      ShiftLeftMono(q, ShiftRight(RoundUp(b, precision), k), k);
      ShiftRightUnique(RoundUp(ShiftLeft(q, k), precision), k, q);
    }
  }
}
