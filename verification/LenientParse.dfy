/**
 The lenient parser: exponent notation, leading zeros and bare dots. It denotes the written
 number exactly up to a truncation at 18 fractional digits, and agrees with the strict parser
 on everything the latter accepts.
 */
module LenientParse {
  import opened Arith
  import opened DecimalCore
  import opened Digits
  import opened DecimalText
  import opened Options

  const MAX_LENIENT_EXPONENT: int := 40
  const I32_MIN: int := -0x8000_0000
  const I32_MAX: int := 0x7FFF_FFFF

  datatype Written = Written(neg: bool, mantissa: string, exp: int) | Malformed(error: DecimalError)

  /** The machine parser for a signed 32-bit integer. */
  function ParseI32(s: string): Option<int> {
    var neg := s != [] && s[0] == '-';
    var digits := if s != [] && (s[0] == '-' || s[0] == '+') then s[1..] else s;
    if digits == [] || !AllDigits(digits) then None else
    var v := if neg then 0 - Value(digits) else Value(digits);
    if I32_MIN <= v <= I32_MAX then Some(v) else None
  }

  /** The first position of a character satisfying the test, or the length. */
  function IndexOf(s: string, a: char, b: char): (n: nat)
    ensures n <= |s| && (n < |s| ==> s[n] == a || s[n] == b)
    ensures forall i | 0 <= i < n :: s[i] != a && s[i] != b
  {
    if s == [] || s[0] == a || s[0] == b then 0 else
    var n := 1 + IndexOf(s[1..], a, b);
    assert forall i | 1 <= i < n :: s[i] == s[1..][i - 1];
    n
  }

  /** Digits with at most one dot. */
  predicate IsMantissa(s: string) {
    var n := IndexOf(s, '.', '.');
    && s != []
    && AllDigits(s[..n])
    && (n < |s| ==> AllDigits(s[n + 1..]))
  }

  function ParseLenientDecimal(s: string): Written {
    var t := Trim(s);
    var neg := t != [] && t[0] == '-';
    var u := if t != [] && (t[0] == '-' || t[0] == '+') then t[1..] else t;
    var n := IndexOf(u, 'e', 'E');
    if n == |u| then
      if IsMantissa(u) then Written(neg, u, 0) else Malformed(InvalidFormat)
    else match ParseI32(u[n + 1..])
      case None => Malformed(InvalidFormat)
      case Some(exp) =>
        if Abs(exp) > MAX_LENIENT_EXPONENT then Malformed(OutOfRange)
        else if IsMantissa(u[..n]) then Written(neg, u[..n], exp)
        else Malformed(InvalidFormat)
  }

  function WholeDigits(mantissa: string): string { mantissa[..IndexOf(mantissa, '.', '.')] }

  function FractionDigits(mantissa: string): string {
    var n := IndexOf(mantissa, '.', '.');
    if n < |mantissa| then mantissa[n + 1..] else ""
  }

  function TrimmedWhole(mantissa: string): string {
    var t := TrimStartZeros(WholeDigits(mantissa));
    if t == [] then "0" else t
  }

  /** Move the decimal point n places to the right. */
  function ShiftRight(whole: string, frac: string, n: nat): (string, string)
    decreases n
  {
    if n == 0 then (whole, frac)
    else if frac == [] then ShiftRight(whole + "0", frac, n - 1)
    else ShiftRight(whole + [frac[0]], frac[1..], n - 1)
  }

  /** Move the decimal point n places to the left. */
  function ShiftLeft(whole: string, frac: string, n: nat): (string, string)
    decreases n
  {
    if n == 0 then (whole, frac)
    else if whole == [] then ShiftLeft(whole, "0" + frac, n - 1)
    else ShiftLeft(whole[..|whole| - 1], [whole[|whole| - 1]] + frac, n - 1)
  }

  function Shifted(whole: string, frac: string, exp: int): (string, string) {
    if exp >= 0 then ShiftRight(whole, frac, exp)
    else
      var (w, f) := ShiftLeft(whole, frac, -exp);
      (if w == [] then "0" else w, f)
  }

  /** The digit-moving loops of `apply_exponent`. */
  method ApplyExponent(mantissa: string, exp: int) returns (whole: string, frac: string)
    ensures (whole, frac) == Shifted(TrimmedWhole(mantissa), TrimEndZeros(FractionDigits(mantissa)), exp)
  {
    whole, frac := TrimmedWhole(mantissa), TrimEndZeros(FractionDigits(mantissa));
    ghost var w0, f0 := whole, frac;
    if exp >= 0 {
      for i := 0 to exp
        invariant ShiftRight(whole, frac, exp - i) == ShiftRight(w0, f0, exp)
      {
        if frac == [] {
          whole := whole + "0";
        } else {
          whole, frac := whole + [frac[0]], frac[1..];
        }
      }
    } else {
      for i := 0 to -exp
        invariant ShiftLeft(whole, frac, -exp - i) == ShiftLeft(w0, f0, -exp)
      {
        if whole == [] {
          frac := "0" + frac;
        } else {
          whole, frac := whole[..|whole| - 1], [whole[|whole| - 1]] + frac;
        }
      }
      if whole == [] {
        whole := "0";
      }
    }
  }

  function Truncated18(frac: string): Option<string> {
    if frac == [] then None else Some(frac[..if |frac| < 18 then |frac| else 18])
  }

  function FromMantissa(mantissa: string, exp: int): ParseResult {
    var (whole, frac) := Shifted(TrimmedWhole(mantissa), TrimEndZeros(FractionDigits(mantissa)), exp);
    FromParts(whole, Truncated18(frac))
  }

  function FromWritten(w: Written): ParseResult {
    match w
    case Malformed(e) => Err(e)
    case Written(neg, mantissa, exp) =>
      var d := FromMantissa(mantissa, exp);
      if neg then d.Negated() else d
  }

  function FromStrLenient(s: string): ParseResult {
    FromWritten(ParseLenientDecimal(Trim(s)))
  }

  // -------------------------------------------------------------- the grammar

  /** One character at least, digits and at most one dot. */
  predicate DigitsAndDot(m: string) {
    && m != [] && (forall c <- m :: IsDigit(c) || c == '.')
    && forall i, j | 0 <= i < j < |m| :: m[i] != '.' || m[j] != '.'
  }

  lemma {:induction false} MantissaIff(m: string)
    ensures IsMantissa(m) <==> DigitsAndDot(m)
  {
    var n := IndexOf(m, '.', '.');
    var whole, frac := m[..n], if n < |m| then m[n + 1..] else "";
    if IsMantissa(m) {
      forall i | 0 <= i < |m| && i != n ensures IsDigit(m[i]) {
        if i < n { assert whole[i] == m[i]; } else { assert frac[i - n - 1] == m[i]; }
      }
    }
    if DigitsAndDot(m) {
      forall i | 0 <= i < |whole| ensures IsDigit(whole[i]) { assert m[i] in m; }
      forall i | 0 <= i < |frac| ensures IsDigit(frac[i]) { assert frac[i] == m[n + 1 + i] && m[n + 1 + i] in m; }
    }
  }

  /** The exponent part: nothing, or e or E and a signed 32-bit integer. */
  predicate ExponentText(t: string, exp: int) {
    if t == [] then exp == 0 else (t[0] == 'e' || t[0] == 'E') && ParseI32(t[1..]) == Some(exp)
  }

  predicate SignText(t: string, neg: bool) { if neg then t == "-" else t == "" || t == "+" }

  /** The exponent: an optional sign and at least one digit, within 32 bits. */
  lemma {:induction false} ParseI32Iff(t: string, v: int)
    ensures ParseI32(t) == Some(v) <==>
      && -0x8000_0000 <= v <= 0x7FFF_FFFF
      && exists neg, sign, digits :: SignText(sign, neg) && t == sign + digits && SignedDigits(digits, neg, v)
  {
    hide Value;
    if ParseI32(t) == Some(v) {
      var neg := t[0] == '-';
      var sign := if t[0] == '-' || t[0] == '+' then t[..1] else "";
      SignIs(t, sign);
      assert t == sign + t[|sign|..];
      assert SignedDigits(t[|sign|..], neg, v);
    }
    forall neg, sign, digits | SignText(sign, neg) && t == sign + digits && SignedDigits(digits, neg, v)
      ensures -0x8000_0000 <= v <= 0x7FFF_FFFF ==> ParseI32(t) == Some(v)
    {
      assert t[0] == if sign == "" then digits[0] else sign[0];
      assert t[|sign|..] == digits;
    }
  }

  predicate SignedDigits(digits: string, neg: bool, v: int) {
    digits != [] && AllDigits(digits) && v == if neg then 0 - Value(digits) else Value(digits)
  }

  /** The lenient grammar: a sign, a mantissa and an exponent part of magnitude at most 40, between spaces. */
  lemma {:induction false} WrittenIff(s: string, neg: bool, mantissa: string, exp: int)
    ensures ParseLenientDecimal(s) == Written(neg, mantissa, exp) <==>
      && DigitsAndDot(mantissa) && -40 <= exp <= 40
      && exists sign, power :: SignText(sign, neg) && ExponentText(power, exp) && Trim(s) == sign + mantissa + power
  {
    hide ParseLenientDecimal, DigitsAndDot;
    if ParseLenientDecimal(s) == Written(neg, mantissa, exp) { WrittenHasParts(s, neg, mantissa, exp); }
    if DigitsAndDot(mantissa) && -40 <= exp <= 40 {
      forall sign, power | SignText(sign, neg) && ExponentText(power, exp) && Trim(s) == sign + mantissa + power
        ensures ParseLenientDecimal(s) == Written(neg, mantissa, exp)
      {
        PartsAreWritten(s, neg, mantissa, exp, sign, power);
      }
    }
  }

  lemma {:induction false} WrittenHasParts(s: string, neg: bool, mantissa: string, exp: int)
    requires ParseLenientDecimal(s) == Written(neg, mantissa, exp)
    ensures DigitsAndDot(mantissa) && -40 <= exp <= 40
    ensures exists sign, power :: SignText(sign, neg) && ExponentText(power, exp) && Trim(s) == sign + mantissa + power
  {
    hide Trim, ParseI32, DigitsAndDot, ExponentText, SignText, ParseLenientDecimal, IndexOf;
    BodyOfWritten(s, neg, mantissa, exp);
    MantissaIff(mantissa);
    var t := Trim(s);
    var sign := if t != [] && (t[0] == '-' || t[0] == '+') then t[..1] else "";
    var u := t[|sign|..];
    SignIs(t, sign);
    var power := PowerIs(u, exp);
    Reassembled(t, |sign|, |mantissa|);
  }

  lemma {:induction false} Reassembled(t: string, k: nat, n: nat)
    requires k + n <= |t|
    ensures t == t[..k] + t[k..][..n] + t[k..][n..]
  {
  }

  lemma {:induction false} BodyOfWritten(s: string, neg: bool, mantissa: string, exp: int)
    requires ParseLenientDecimal(s) == Written(neg, mantissa, exp)
    ensures var t := Trim(s);
      var u := if t != [] && (t[0] == '-' || t[0] == '+') then t[1..] else t;
      var n := IndexOf(u, 'e', 'E');
      && neg == (t != [] && t[0] == '-') && IsMantissa(mantissa) && -40 <= exp <= 40 && mantissa == u[..n]
      && if n == |u| then exp == 0 else ParseI32(u[n + 1..]) == Some(exp)
  {
    hide Trim, ParseI32, IsMantissa, IndexOf;
  }

  lemma {:induction false} SignIs(t: string, sign: string)
    requires sign == if t != [] && (t[0] == '-' || t[0] == '+') then t[..1] else ""
    ensures SignText(sign, t != [] && t[0] == '-')
  {
  }

  /** The text from the exponent mark on. */
  lemma {:induction false} PowerIs(u: string, exp: int) returns (power: string)
    requires var n := IndexOf(u, 'e', 'E'); if n == |u| then exp == 0 else ParseI32(u[n + 1..]) == Some(exp)
    ensures power == u[IndexOf(u, 'e', 'E')..] && ExponentText(power, exp)
  {
    hide ParseI32;
    var n := IndexOf(u, 'e', 'E');
    power := u[n..];
    if n < |u| { assert power[1..] == u[n + 1..]; }
  }

  lemma {:induction false} PartsAreWritten(s: string, neg: bool, mantissa: string, exp: int, sign: string, power: string)
    requires DigitsAndDot(mantissa) && -40 <= exp <= 40
    requires SignText(sign, neg) && ExponentText(power, exp) && Trim(s) == sign + mantissa + power
    ensures ParseLenientDecimal(s) == Written(neg, mantissa, exp)
  {
    hide Trim, ParseI32, IsMantissa, DigitsAndDot, ExponentText, SignText;
    MantissaIff(mantissa);
    SignThenDigits(Trim(s), neg, sign, mantissa, power);
    MarkComesAfter(mantissa, power, exp);
  }

  lemma {:induction false} SignThenDigits(t: string, neg: bool, sign: string, mantissa: string, power: string)
    requires DigitsAndDot(mantissa) && SignText(sign, neg) && t == sign + mantissa + power
    ensures neg == (t != [] && t[0] == '-')
    ensures (if t != [] && (t[0] == '-' || t[0] == '+') then t[1..] else t) == mantissa + power
  {
    assert mantissa[0] in mantissa;
    assert t[0] == if sign == "" then mantissa[0] else sign[0];
  }

  lemma {:induction false} MarkComesAfter(mantissa: string, power: string, exp: int)
    requires DigitsAndDot(mantissa) && ExponentText(power, exp)
    ensures var u := mantissa + power;
      && IndexOf(u, 'e', 'E') == |mantissa| && u[..|mantissa|] == mantissa
      && (power == [] ==> u == mantissa && exp == 0)
      && (power != [] ==> |mantissa| < |u| && ParseI32(u[|mantissa| + 1..]) == Some(exp))
  {
    hide ParseI32;
    var u := mantissa + power;
    forall i | 0 <= i < |mantissa| ensures u[i] != 'e' && u[i] != 'E' { assert mantissa[i] in mantissa; }
    if power != [] {
      assert u[|mantissa|] == power[0];
      assert u[|mantissa| + 1..] == power[1..];
    }
  }

  // ---------------------------------------------------------- denotation

  /** The written number is Numerator / Denominator. */
  ghost function Numerator(mantissa: string, exp: int): nat {
    Value(WholeDigits(mantissa) + FractionDigits(mantissa)) * (if exp >= 0 then Pow10(exp) else 1)
  }

  ghost function Denominator(mantissa: string, exp: int): (d: int)
    ensures d > 0
  {
    if exp >= 0 then Pow10(|FractionDigits(mantissa)|) else Pow10(|FractionDigits(mantissa)| + (-exp))
  }

  /** In raw units, rounded down. */
  ghost function Magnitude(mantissa: string, exp: int): int {
    Numerator(mantissa, exp) * SCALE / Denominator(mantissa, exp)
  }

  lemma {:induction false} ShiftRightIsExact(whole: string, frac: string, n: nat)
    ensures var (w, f) := ShiftRight(whole, frac, n);
      Value(w + f) * Pow10(|frac|) == Value(whole + frac) * Pow10(n) * Pow10(|f|)
    decreases n
  {
    var v := Value(whole + frac);
    var (w, f) := ShiftRight(whole, frac, n);
    if n > 0 {
      if frac == [] {
        ShiftRightIsExact(whole + "0", frac, n - 1);
        assert whole + "0" + frac == whole + "0" && whole + frac == whole;
        assert (whole + "0")[..|whole|] == whole;
        FourFactors(v, 10, Pow10(n - 1), Pow10(|f|));
      } else {
        ShiftRightIsExact(whole + [frac[0]], frac[1..], n - 1);
        assert whole + [frac[0]] + frac[1..] == whole + frac;
        FourFactors(v, 10, Pow10(n - 1), Pow10(|f|));
        FourFactors(1, 10, Value(w + f), Pow10(|frac| - 1));
        assert Pow10(|frac|) == 10 * Pow10(|frac| - 1);
      }
    }
  }

  /** Moving a factor through a product. */
  lemma {:induction false} FourFactors(a: int, k: int, b: int, c: int)
    ensures (k * a) * b * c == a * (k * b) * c == k * (a * b * c) == a * b * (k * c)
  {
    assert (k * a) * b == k * (a * b) == a * (k * b);
    assert (k * (a * b)) * c == k * ((a * b) * c) == (a * b) * (k * c);
  }

  lemma {:induction false} ShiftLeftIsExact(whole: string, frac: string, n: nat)
    ensures var (w, f) := ShiftLeft(whole, frac, n);
      Value(w + f) == Value(whole + frac) && |f| == |frac| + n
    decreases n
  {
    hide Value;
    if n > 0 {
      if whole == [] {
        ShiftLeftIsExact(whole, "0" + frac, n - 1);
        assert whole + ("0" + frac) == Zeros(1) + frac && whole + frac == frac;
        PaddedValue(1, frac);
      } else {
        ShiftLeftIsExact(whole[..|whole| - 1], [whole[|whole| - 1]] + frac, n - 1);
        assert whole[..|whole| - 1] + ([whole[|whole| - 1]] + frac) == whole + frac;
      }
    }
  }

  /** Dropping leading zeros of the whole part and trailing zeros of the fraction keeps the number. */
  lemma {:induction false} TrimmedMantissaValue(mantissa: string)
    ensures var f0 := FractionDigits(mantissa);
      var f := TrimEndZeros(f0);
      Value(WholeDigits(mantissa) + f0) == Value(TrimmedWhole(mantissa) + f) * Pow10(|f0| - |f|)
  {
    hide Value, Pow10, TrimEndZeros, TrimStartZeros, WholeDigits, FractionDigits;
    var w0, f0 := WholeDigits(mantissa), FractionDigits(mantissa);
    var f := TrimEndZeros(f0);
    TrimStartValue(w0);
    ValueOfZero();
    TrimEndRestores(f0);
    SameWholeSameValue(w0, TrimmedWhole(mantissa), f, |f0| - |f|);
    assert w0 + f + Zeros(|f0| - |f|) == w0 + f0;
  }

  lemma {:induction false} ValueOfZero()
    ensures Value("0") == 0 && Value("") == 0
  {
    assert "0"[..0] == [];
  }

  lemma {:induction false} SameWholeSameValue(w0: string, w: string, f: string, z: nat)
    requires Value(w0) == Value(w)
    ensures Value(w0 + f + Zeros(z)) == Value(w + f) * Pow10(z)
  {
    ValueConcat(w0, f);
    ValueConcat(w, f);
    ValueConcat(w0 + f, Zeros(z));
    ValueOfZeros(z);
  }

  /** The moved digits denote the written number exactly, whatever the exponent. */
  lemma {:induction false} ApplyExponentIsExact(mantissa: string, exp: int)
    ensures var (w, f) := Shifted(TrimmedWhole(mantissa), TrimEndZeros(FractionDigits(mantissa)), exp);
      Value(w + f) * Denominator(mantissa, exp) == Numerator(mantissa, exp) * Pow10(|f|)
  {
    var w0, f0 := TrimmedWhole(mantissa), TrimEndZeros(FractionDigits(mantissa));
    var z := |FractionDigits(mantissa)| - |f0|;
    TrimmedMantissaValue(mantissa);
    if exp >= 0 {
      RightShiftDenotes(w0, f0, z, exp);
    } else {
      LeftShiftDenotes(w0, f0, z, -exp);
    }
  }

  lemma {:induction false} RightShiftDenotes(w0: string, f0: string, z: nat, n: nat)
    ensures var (w, f) := ShiftRight(w0, f0, n);
      Value(w + f) * Pow10(|f0| + z) == (Value(w0 + f0) * Pow10(z)) * Pow10(n) * Pow10(|f|)
  {
    var (w, f) := ShiftRight(w0, f0, n);
    ShiftRightIsExact(w0, f0, n);
    Pow10Add(|f0|, z);
    ExactRight(Value(w + f), Pow10(|f0|), Pow10(z), Value(w0 + f0), Pow10(n), Pow10(|f|));
  }

  lemma {:induction false} LeftShiftDenotes(w0: string, f0: string, z: nat, n: nat)
    requires n > 0
    ensures var (w, f) := Shifted(w0, f0, 0 - n);
      Value(w + f) * Pow10(|f0| + z + n) == (Value(w0 + f0) * Pow10(z)) * Pow10(|f|)
  {
    ShiftLeftIsExact(w0, f0, n);
    var (l, f) := ShiftLeft(w0, f0, n);
    if l == [] {
      PaddedValue(1, f);
      assert "0" + f == Zeros(1) + f && l + f == f;
    }
    Pow10Add(z, |f|);
    MulAssocEq(Value(w0 + f0), Pow10(z), Pow10(|f|));
  }

  lemma {:induction false} MulAssocEq(a: int, b: int, c: int)
    ensures a * (b * c) == (a * b) * c
  {
  }

  lemma {:induction false} ExactRight(out: int, pf: int, pz: int, v: int, pe: int, pq: int)
    requires out * pf == v * pe * pq
    ensures out * (pf * pz) == ((v * pz) * pe) * pq
  {
    MulAssocEq(out, pf, pz);
    assert (v * pe * pq) * pz == ((v * pz) * pe) * pq by {
      FourFactors(v, pz, pe, pq);
    }
  }

  /** Equal fractions have equal quotients. */
  lemma {:induction false} DivCross(a: int, b: int, c: int, d: int)
    requires b > 0 && d > 0 && a * d == c * b
    ensures a / b == c / d
  {
    var q := a / b;
    DivBounds(a, b);
    MulLe(q * b, a, d);
    MulLt(a, (q + 1) * b, d);
    assert (q * d) * b == (q * b) * d && ((q + 1) * d) * b == ((q + 1) * b) * d;
    if c < q * d { MulLt(c, q * d, b); }
    if c >= (q + 1) * d { MulLe((q + 1) * d, c, b); }
    DivIs(c, d, q);
  }

  /** Keeping 18 fractional digits is rounding the magnitude down to the raw grid. */
  lemma {:induction false} Truncation(w: string, f: string)
    ensures Value(w) * SCALE + FractionRaw(Truncated18(f)) == Value(w + f) * SCALE / Pow10(|f|)
  {
    if |f| <= 18 {
      assert f[..|f|] == f;
      if f == [] {
        assert f + Zeros(18) == Zeros(18);
        ValueOfZeros(18);
      }
      ShortTruncation(w, f);
    } else {
      LongTruncation(w, f);
      assert f[..18] + Zeros(0) == f[..18];
    }
  }

  lemma {:induction false} ShortTruncation(w: string, f: string)
    requires |f| <= 18
    ensures Value(w) * SCALE + Value(f + Zeros(18 - |f|)) == Value(w + f) * SCALE / Pow10(|f|)
  {
    var k := 18 - |f|;
    assert SCALE == Pow10(18) == Pow10(k) * Pow10(|f|) by { Pow10Values(); Pow10Add(k, |f|); }
    ValueConcat(w, f + Zeros(k));
    assert w + (f + Zeros(k)) == w + f + Zeros(k);
    SameWholeSameValue(w, w, f, k);
    ScaledUp(Value(w + f), Pow10(k), Pow10(|f|));
  }

  lemma {:induction false} ScaledUp(v: int, a: int, b: int)
    requires b > 0
    ensures v * (a * b) / b == v * a
  {
    MulAssocEq(v, a, b);
    DivIs(v * (a * b), b, v * a);
  }

  lemma {:induction false} LongTruncation(w: string, f: string)
    requires |f| > 18
    ensures Value(w) * SCALE + Value(f[..18]) == Value(w + f) * SCALE / Pow10(|f|)
  {
    var head, tail := f[..18], f[18..];
    var q, p, v := Value(w + head), Pow10(|tail|), Value(w + f);
    assert SCALE == Pow10(18) by { Pow10Values(); }
    ValueConcat(w, head);
    assert v == q * p + Value(tail) by {
      assert w + f == (w + head) + tail;
      ValueConcat(w + head, tail);
    }
    ValueBound(tail);
    assert Pow10(|f|) == p * SCALE by { Pow10Add(|tail|, 18); }
    DropTail(v, q, p, Value(tail));
  }

  lemma {:induction false} DropTail(v: int, q: int, p: int, rest: int)
    requires v == q * p + rest && 0 <= rest < p
    ensures v * SCALE / (p * SCALE) == q
  {
    assert q * (p * SCALE) == (q * p) * SCALE;
    assert (q + 1) * (p * SCALE) == (q * p) * SCALE + p * SCALE;
    DivIs(v * SCALE, p * SCALE, q);
  }

  lemma {:induction false} MantissaDenotes(mantissa: string, exp: int)
    requires FromMantissa(mantissa, exp).Ok?
    ensures FromMantissa(mantissa, exp).value.raw ==
            Numerator(mantissa, exp) * SCALE / Denominator(mantissa, exp) >= 0
  {
    var (w, f) := Shifted(TrimmedWhole(mantissa), TrimEndZeros(FractionDigits(mantissa)), exp);
    ApplyExponentIsExact(mantissa, exp);
    FromPartsValue(w, Truncated18(f));
    Truncation(w, f);
    ScaledQuotients(Value(w + f), Pow10(|f|), Numerator(mantissa, exp), Denominator(mantissa, exp));
  }

  /**
   An accepted lenient string is the written number, truncated toward zero at 18 fractional
   digits and carrying the written sign.
   */
  lemma {:induction false} LenientDenotes(s: string)
    requires FromStrLenient(s).Ok?
    ensures Denotes(ParseLenientDecimal(Trim(s)), FromStrLenient(s).value.raw)
  {
    WrittenDenotes(ParseLenientDecimal(Trim(s)));
  }

  /** raw is the magnitude of the written number rounded down, with the written sign. */
  ghost predicate Denotes(w: Written, raw: int) {
    && w.Written?
    && var magnitude := Magnitude(w.mantissa, w.exp);
       raw == if w.neg then -magnitude else magnitude
  }

  lemma {:induction false} WrittenDenotes(w: Written)
    requires FromWritten(w).Ok?
    ensures Denotes(w, FromWritten(w).value.raw)
  {
    MantissaDenotes(w.mantissa, w.exp);
  }

  lemma {:induction false} ScaledQuotients(a: int, b: int, c: int, d: int)
    requires b > 0 && d > 0 && a * d == c * b
    ensures a * SCALE / b == c * SCALE / d
  {
    assert (a * SCALE) * d == (a * d) * SCALE == (c * b) * SCALE == (c * SCALE) * b;
    DivCross(a * SCALE, b, c * SCALE, d);
  }

  lemma {:induction false} FromPartsValue(w: string, frac: Option<string>)
    requires FromParts(w, frac).Ok? && (frac.Some? ==> |frac.value| <= 18)
    ensures FromParts(w, frac).value.raw == Value(w) * SCALE + FractionRaw(frac)
  {
    hide Value, FractionRaw, Pow10, TrimStartZeros, TrimEndZeros;
    TrimStartValue(w);
    ValueOfZero();
  }

  // --------------------------------------------------------- overflow

  lemma {:induction false} ShiftRightDigits(whole: string, frac: string, n: nat)
    requires AllDigits(whole) && AllDigits(frac)
    ensures AllDigits(ShiftRight(whole, frac, n).0)
    decreases n
  {
    if n > 0 && frac == [] {
      ShiftRightDigits(whole + "0", frac, n - 1);
    } else if n > 0 {
      ShiftRightDigits(whole + [frac[0]], frac[1..], n - 1);
    }
  }

  lemma {:induction false} ShiftLeftDigits(whole: string, frac: string, n: nat)
    requires AllDigits(whole)
    ensures AllDigits(ShiftLeft(whole, frac, n).0)
    decreases n
  {
    if n > 0 && whole == [] {
      ShiftLeftDigits(whole, "0" + frac, n - 1);
    } else if n > 0 {
      ShiftLeftDigits(whole[..|whole| - 1], [whole[|whole| - 1]] + frac, n - 1);
    }
  }

  lemma {:induction false} ShiftedDigits(whole: string, frac: string, exp: int)
    requires AllDigits(whole) && AllDigits(frac)
    ensures AllDigits(Shifted(whole, frac, exp).0)
  {
    if exp >= 0 { ShiftRightDigits(whole, frac, exp); } else { ShiftLeftDigits(whole, frac, -exp); }
  }

  lemma {:induction false} MantissaDigits(mantissa: string)
    requires IsMantissa(mantissa)
    ensures AllDigits(TrimmedWhole(mantissa)) && AllDigits(TrimEndZeros(FractionDigits(mantissa)))
  {
    TrimStartShape(WholeDigits(mantissa));
  }

  /** The parts the exponent leaves, as `from_parts` gets them. */
  function WrittenParts(mantissa: string, exp: int): (string, Option<string>) {
    var (whole, frac) := Shifted(TrimmedWhole(mantissa), TrimEndZeros(FractionDigits(mantissa)), exp);
    (whole, Truncated18(frac))
  }

  lemma {:induction false} WrittenIsMantissa(s: string)
    requires ParseLenientDecimal(s).Written?
    ensures IsMantissa(ParseLenientDecimal(s).mantissa)
  {
  }

  lemma {:induction false} MantissaOverflowsIff(mantissa: string, exp: int)
    requires IsMantissa(mantissa)
    ensures FromMantissa(mantissa, exp) == AddOverflow <==>
            var (whole, frac) := WrittenParts(mantissa, exp); Overflows(whole, frac)
  {
    hide FromParts, Overflows, Shifted, IsMantissa, TrimmedWhole, FractionDigits, TrimEndZeros, Truncated18;
    MantissaDigits(mantissa);
    ShiftedDigits(TrimmedWhole(mantissa), TrimEndZeros(FractionDigits(mantissa)), exp);
    var (whole, frac) := WrittenParts(mantissa, exp);
    FromPartsOverflowsIff(whole, frac);
  }

  /** A text overflows the lenient parser if and only if it is a number whose shifted, truncated parts do. */
  lemma {:induction false} LenientOverflowsIff(s: string)
    ensures FromStrLenient(s) == AddOverflow <==>
            var w := ParseLenientDecimal(Trim(s));
            w.Written? && var (whole, frac) := WrittenParts(w.mantissa, w.exp); Overflows(whole, frac)
  {
    hide FromMantissa, Overflows, ParseLenientDecimal, WrittenParts, IsMantissa, Trim;
    var w := ParseLenientDecimal(Trim(s));
    if w.Written? {
      WrittenIsMantissa(Trim(s));
      MantissaOverflowsIff(w.mantissa, w.exp);
    }
  }

  // ------------------------------------------------------ what is accepted

  lemma {:induction false} ShiftedFractionDigits(whole: string, frac: string, exp: int)
    requires AllDigits(whole) && AllDigits(frac)
    ensures AllDigits(Shifted(whole, frac, exp).1)
  {
    if exp >= 0 { RightFractionDigits(whole, frac, exp); } else { LeftFractionDigits(whole, frac, -exp); }
  }

  lemma {:induction false} RightFractionDigits(whole: string, frac: string, n: nat)
    requires AllDigits(frac)
    ensures AllDigits(ShiftRight(whole, frac, n).1)
    decreases n
  {
    if n > 0 && frac == [] {
      RightFractionDigits(whole + "0", frac, n - 1);
    } else if n > 0 {
      RightFractionDigits(whole + [frac[0]], frac[1..], n - 1);
    }
  }

  lemma {:induction false} LeftFractionDigits(whole: string, frac: string, n: nat)
    requires AllDigits(whole) && AllDigits(frac)
    ensures AllDigits(ShiftLeft(whole, frac, n).1)
    decreases n
  {
    if n > 0 && whole == [] {
      LeftFractionDigits(whole, "0" + frac, n - 1);
    } else if n > 0 {
      LeftFractionDigits(whole[..|whole| - 1], [whole[|whole| - 1]] + frac, n - 1);
    }
  }

  lemma {:induction false} MantissaReadsIff(mantissa: string, exp: int, d: Decimal)
    requires IsMantissa(mantissa)
    ensures FromMantissa(mantissa, exp) == Ok(d) <==> Readable(Magnitude(mantissa, exp)) && d.raw == Magnitude(mantissa, exp)
  {
    hide FromParts, Readable, IsMantissa, TrimmedWhole, FractionDigits, TrimEndZeros, Numerator, Denominator, Value;
    hide Shifted, Truncated18, FractionRaw, Pow10;
    MantissaDigits(mantissa);
    var w0, f0 := TrimmedWhole(mantissa), TrimEndZeros(FractionDigits(mantissa));
    var (w, f) := Shifted(w0, f0, exp);
    ShiftedDigits(w0, f0, exp);
    ShiftedFractionDigits(w0, f0, exp);
    TruncatedDigits(f);
    PartsReadIff(w, Truncated18(f), d);
    ApplyExponentIsExact(mantissa, exp);
    Truncation(w, f);
    ScaledQuotients(Value(w + f), Pow10(|f|), Numerator(mantissa, exp), Denominator(mantissa, exp));
  }

  lemma {:induction false} TruncatedDigits(f: string)
    requires AllDigits(f)
    ensures Truncated18(f).Some? ==> |Truncated18(f).value| <= 18 && AllDigits(Truncated18(f).value)
  {
  }

  /**
   What the lenient parser reads: a text of its grammar whose magnitude, truncated at 18 places, is in range and, from
   10^38 raw units on, a multiple of ten. Everything else is refused or overflows.
   */
  lemma {:induction false} LenientReadsIff(s: string, d: Decimal)
    ensures FromStrLenient(s) == Ok(d) <==>
            var w := ParseLenientDecimal(Trim(s));
            w.Written? && Readable(Magnitude(w.mantissa, w.exp))
            && d.raw == if w.neg then 0 - Magnitude(w.mantissa, w.exp) else Magnitude(w.mantissa, w.exp)
  {
    hide FromMantissa, ParseLenientDecimal, Magnitude, Readable, IsMantissa, Trim;
    var w := ParseLenientDecimal(Trim(s));
    if w.Written? {
      WrittenIsMantissa(Trim(s));
      var r := FromMantissa(w.mantissa, w.exp);
      MantissaReadsIff(w.mantissa, w.exp, d);
      MantissaReadsIff(w.mantissa, w.exp, Neg(d));
      if r.Ok? { MantissaReadsIff(w.mantissa, w.exp, r.value); }
      ReadableIsPositive(Magnitude(w.mantissa, w.exp));
      NegatedIff(r, d);
    }
  }

  // -------------------------------------------------------- agreement

  lemma {:induction false} TrimIsIdempotent(s: string)
    ensures Trim(Trim(s)) == Trim(s)
  {
    if Trim(s) != [] { TrimIsIdentity(Trim(s)); }
  }

  lemma {:induction false} IndexOfIs(s: string, a: char, b: char, n: nat)
    requires n <= |s| && (n < |s| ==> s[n] == a || s[n] == b)
    requires forall i | 0 <= i < n :: s[i] != a && s[i] != b
    ensures IndexOf(s, a, b) == n
  {
    if n > 0 {
      IndexOfIs(s[1..], a, b, n - 1);
    }
  }

  /** A body in the strict grammar is a mantissa without an exponent, and splits the same way. */
  lemma {:induction false} StrictBodyIsMantissa(body: string, whole: string, frac: Option<string>)
    requires Splits(body, whole, frac)
    ensures IndexOf(body, 'e', 'E') == |body| && IsMantissa(body)
    ensures WholeDigits(body) == whole
    ensures FractionDigits(body) == if frac.Some? then frac.value else ""
    ensures body[0] != '-' && body[0] != '+'
  {
    var n := |whole|;
    assert body[..n] == whole;
    assert IsDigit(whole[0]) && body[0] == whole[0];
    assert forall i | 0 <= i < n :: IsDigit(body[i]) by {
      assert forall i | 0 <= i < n :: body[i] == whole[i];
    }
    if frac.Some? {
      assert body[n] == '.' && body[n + 1..] == frac.value;
      assert forall i | n < i < |body| :: IsDigit(body[i]) by {
        assert forall i | n < i < |body| :: body[i] == frac.value[i - n - 1];
      }
    }
    IndexOfIs(body, '.', '.', n);
    IndexOfIs(body, 'e', 'E', |body|);
  }

  /** The parser sees a fraction only through its length, its significant length and its value. */
  lemma {:induction false} SameFractionSameParse(whole: string, a: Option<string>, b: Option<string>)
    requires (a.Some? ==> |a.value| <= 18) && (b.Some? ==> |b.value| <= 18)
    requires (if a.Some? then |TrimEndZeros(a.value)| else 0) == (if b.Some? then |TrimEndZeros(b.value)| else 0)
    requires FractionRaw(a) == FractionRaw(b)
    ensures FromParts(whole, a) == FromParts(whole, b)
  {
    hide Value, Assemble, TrimStartZeros, TrimEndZeros, FractionRaw;
  }

  /** Padding to 18 places makes up for trimmed zeros. */
  lemma {:induction false} PaddingRestores(f0: string)
    requires |f0| <= 18
    ensures var f := TrimEndZeros(f0);
      TrimEndZeros(f) == f && f0 + Zeros(18 - |f0|) == f + Zeros(18 - |f|)
  {
    TrimEndRestores(f0);
    hide TrimEndZeros;
  }

  lemma {:induction false} TrimmedFraction(f: string)
    requires |f| <= 18
    ensures FractionRaw(Truncated18(f)) == Value(f + Zeros(18 - |f|))
    ensures Truncated18(f) == if f == [] then None else Some(f)
  {
    assert f[..|f|] == f;
    if f == [] { ValueOfZeros(18); assert f + Zeros(18) == Zeros(18); }
  }

  /** The lenient path hands `from_parts` the same fraction with its trailing zeros gone. */
  lemma {:induction false} TrimmedPartsAgree(frac: string)
    requires |frac| <= 18
    ensures var f := TrimEndZeros(frac);
      && |f| <= 18 && TrimEndZeros(f) == f
      && FractionRaw(Truncated18(f)) == FractionRaw(Some(frac))
      && Truncated18(f) == if f == [] then None else Some(f)
  {
    hide Value, TrimEndZeros, Zeros;
    PaddingRestores(frac);
    TrimmedFraction(TrimEndZeros(frac));
  }

  lemma {:induction false} WholeIsTrimmed(whole: string)
    requires IsIntegerPart(whole)
    ensures (if TrimStartZeros(whole) == [] then "0" else TrimStartZeros(whole)) == whole
  {
    if whole[0] == '0' { assert whole == "0"; assert whole[1..] == []; }
  }

  lemma {:induction false} LenientIgnoresSpace(s: string)
    ensures FromStrLenient(s) == FromStrLenient(Trim(s))
  {
    TrimIsIdempotent(s);
  }

  /** Every string the strict parser assembles a number from means the same to the lenient parser. */
  lemma {:induction false} StrictImpliesLenient(s: string)
    requires FromStrStrict(s).Ok? || FromStrStrict(s).AddOverflow?
    ensures FromStrLenient(s) == FromStrStrict(s)
  {
    var t := Trim(s);
    TrimIsIdempotent(s);
    LenientIgnoresSpace(s);
    var body := if t[0] == '-' then t[1..] else t;
    var (whole, frac) := MatchBody(body).value;
    LenientOfStrictBody(t[0] == '-', t, body, whole, frac);
  }

  lemma {:induction false} LenientOfStrictBody(neg: bool, t: string, body: string, whole: string, frac: Option<string>)
    requires Trim(t) == t && t != [] && neg == (t[0] == '-') && body == if neg then t[1..] else t
    requires MatchBody(body) == Some((whole, frac)) && (frac.Some? ==> |frac.value| <= 18)
    ensures FromStrLenient(t) == if neg then FromParts(whole, frac).Negated() else FromParts(whole, frac)
  {
    MatchBodyIffSplits(body, whole, frac);
    StrictBodyIsMantissa(body, whole, frac);
    assert ParseLenientDecimal(t) == Written(neg, body, 0);
    WholeIsTrimmed(whole);
    if frac.Some? {
      TrimmedPartsAgree(frac.value);
      SameFractionSameParse(whole, Truncated18(TrimEndZeros(frac.value)), frac);
    }
  }
}
