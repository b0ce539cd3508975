/**
 Decimal text: the strict API grammar, the exact storage form and the display form,
 and what parsing each form back gives.
 */
module DecimalText {
  import opened Arith
  import opened DecimalCore
  import opened Digits
  import opened SignificantRounding
  import opened Options

  datatype DecimalError = InvalidFormat | TooManySignificantDigits | TooManyFractionalDigits | OutOfRange

  /**
   The outcome of a parse. AddOverflow stands for the one unchecked addition that can leave
   the machine type: it panics in a debug build and wraps in a release build.
   */
  datatype ParseResult = Ok(value: Decimal) | Err(error: DecimalError) | AddOverflow {
    function Negated(): ParseResult {
      match this
      case Ok(v) => Ok(Neg(v))
      case other => other
    }
  }

  // ------------------------------------------------------------------ trim

  predicate IsSpace(c: char) {
    || '\t' <= c <= '\r' || c == ' ' || c == '\U{0085}' || c == '\U{00A0}' || c == '\U{1680}'
    || '\U{2000}' <= c <= '\U{200A}' || c == '\U{2028}' || c == '\U{2029}'
    || c == '\U{202F}' || c == '\U{205F}' || c == '\U{3000}'
  }

  function TrimStart(s: string): (r: string)
    ensures r == [] || !IsSpace(r[0])
    ensures |r| <= |s| && r == s[|s| - |r|..]
  {
    if s != [] && IsSpace(s[0]) then TrimStart(s[1..]) else s
  }

  function TrimEnd(s: string): (r: string)
    ensures r == [] || !IsSpace(r[|r| - 1])
    ensures |r| <= |s| && r == s[..|r|]
  {
    if s != [] && IsSpace(s[|s| - 1]) then TrimEnd(s[..|s| - 1]) else s
  }

  function Trim(s: string): string { TrimEnd(TrimStart(s)) }

  // --------------------------------------------------------- strict grammar

  /** `0` or digits without a leading zero. */
  predicate IsIntegerPart(s: string) {
    s != [] && AllDigits(s) && (s[0] == '0' ==> |s| == 1)
  }

  function Joined(whole: string, frac: Option<string>): string {
    match frac
    case None => whole
    case Some(f) => whole + "." + f
  }

  /** The strict body grammar: an integer part, optionally a dot and at least one digit. */
  predicate Splits(body: string, whole: string, frac: Option<string>) {
    && body == Joined(whole, frac)
    && IsIntegerPart(whole)
    && (frac.Some? ==> frac.value != [] && AllDigits(frac.value))
  }

  /** How many leading characters are digits. */
  function DigitPrefix(s: string): (n: nat)
    ensures n <= |s| && AllDigits(s[..n])
    ensures n < |s| ==> !IsDigit(s[n])
  {
    if s != [] && IsDigit(s[0]) then
      var n := 1 + DigitPrefix(s[1..]);
      assert s[..n] == [s[0]] + s[1..][..n - 1];
      n
    else 0
  }

  function MatchBody(body: string): Option<(string, Option<string>)> {
    var n := DigitPrefix(body);
    if n == 0 || (body[0] == '0' && n > 1) then None
    else if n == |body| then Some((body, None))
    else if body[n] == '.' && n + 1 < |body| && AllDigits(body[n + 1..]) then
      Some((body[..n], Some(body[n + 1..])))
    else None
  }

  lemma {:induction false} DigitPrefixIs(s: string, n: nat)
    requires n <= |s| && AllDigits(s[..n]) && (n < |s| ==> !IsDigit(s[n]))
    ensures DigitPrefix(s) == n
  {
    if n > 0 {
      assert IsDigit(s[..n][0]);
      assert s[1..][..n - 1] == s[..n][1..];
      DigitPrefixIs(s[1..], n - 1);
    }
  }

  /** The matcher accepts exactly the grammar, and a body has only one split. */
  lemma {:induction false} MatchBodyIffSplits(body: string, whole: string, frac: Option<string>)
    ensures MatchBody(body) == Some((whole, frac)) <==> Splits(body, whole, frac)
  {
    hide MatchBody, Splits;
    if Splits(body, whole, frac) { SplitsMatch(body, whole, frac); }
    if MatchBody(body) == Some((whole, frac)) { MatchSplits(body, whole, frac); }
  }

  lemma {:induction false} SplitsMatch(body: string, whole: string, frac: Option<string>)
    requires Splits(body, whole, frac)
    ensures MatchBody(body) == Some((whole, frac))
  {
    hide DigitPrefix;
    assert body[..|whole|] == whole;
    DigitPrefixIs(body, |whole|);
    if frac.Some? { assert body[|whole| + 1..] == frac.value; }
  }

  lemma {:induction false} MatchSplits(body: string, whole: string, frac: Option<string>)
    requires MatchBody(body) == Some((whole, frac))
    ensures Splits(body, whole, frac)
  {
    hide DigitPrefix;
    var n := DigitPrefix(body);
    if n < |body| { assert body == body[..n] + "." + body[n + 1..]; }
    else { assert body[..n] == body; }
  }

  /** The scanning loop of `regex_body_match`, one character at a time. */
  method RegexBodyMatch(body: string) returns (r: Option<(string, Option<string>)>)
    ensures r.Some? ==> Splits(body, r.value.0, r.value.1)
    ensures r.None? ==> forall i, f :: !Splits(body, i, f)
    ensures r == MatchBody(body)
  {
    if body == [] || !IsDigit(body[0]) {
      r := None;
    } else if body[0] == '0' {
      DigitPrefixFromZero(body);
      if |body| == 1 {
        r := Some(("0", None));
      } else if body[1] == '.' {
        var frac := body[2..];
        if frac == [] || !AllDigits(frac) { r := None; } else { r := Some(("0", Some(frac))); }
      } else {
        r := None;
      }
    } else {
      var idx, intEnd := 1, 1;
      var frac: Option<string> := None;
      var bad := false;
      while idx < |body| && !bad && frac.None?
        invariant 1 <= idx == intEnd <= |body|
        invariant AllDigits(body[..idx])
        invariant frac.Some? ==>
          idx < |body| && body[idx] == '.' && frac.value == body[idx + 1..] && frac.value != [] && AllDigits(frac.value)
        invariant bad ==>
          idx < |body| && !IsDigit(body[idx])
          && (body[idx] == '.' ==> body[idx + 1..] == [] || !AllDigits(body[idx + 1..]))
        decreases |body| - idx, frac.None?, !bad
      {
        if IsDigit(body[idx]) {
          assert body[..idx + 1] == body[..idx] + [body[idx]];
          intEnd := idx + 1;
          idx := idx + 1;
        } else if body[idx] == '.' {
          var rest := body[idx + 1..];
          if rest == [] || !AllDigits(rest) { bad := true; } else { frac := Some(rest); }
        } else {
          bad := true;
        }
      }
      DigitPrefixIs(body, idx);
      assert idx == |body| ==> body[..idx] == body;
      r := if bad then None else Some((body[..intEnd], frac));
    }
    forall i, f ensures MatchBody(body) == Some((i, f)) <==> Splits(body, i, f) {
      MatchBodyIffSplits(body, i, f);
    }
  }

  lemma {:induction false} DigitPrefixFromZero(body: string)
    requires body != [] && body[0] == '0'
    ensures |body| == 1 ==> DigitPrefix(body) == 1 && body == "0"
    ensures |body| > 1 && body[1] == '.' ==> DigitPrefix(body) == 1 && body[..1] == "0"
    ensures |body| > 1 && body[1] != '.' ==> MatchBody(body).None?
  {
    if |body| == 1 || body[1] == '.' {
      assert body[..1] == "0";
      DigitPrefixIs(body, 1);
    } else if !IsDigit(body[1]) {
      assert body[..1] == "0";
      DigitPrefixIs(body, 1);
    } else {
      assert DigitPrefix(body[1..]) >= 1;
    }
  }

  // ------------------------------------------------------------ from parts

  const MAX_SIGNIFICANT_DIGITS: nat := 38

  function FractionRaw(frac: Option<string>): nat
    requires frac.Some? ==> |frac.value| <= 18
  {
    match frac
    case None => 0
    case Some(f) => Value(f + Zeros(18 - |f|))
  }

  /** The integer part is scaled with an overflow check, the fraction added without one. */
  function Assemble(whole: nat, fraction: nat): ParseResult {
    if !FitsI128(whole) || !FitsI128(whole * SCALE) then Err(OutOfRange)
    else if FitsI128(whole * SCALE + fraction) then Ok(Decimal(whole * SCALE + fraction))
    else AddOverflow
  }

  function FromParts(intPart: string, frac: Option<string>): ParseResult {
    var trimmed := TrimStartZeros(intPart);
    var whole := if trimmed == [] then "0" else trimmed;
    if frac.Some? && |frac.value| > 18 then Err(TooManyFractionalDigits) else
    var significant := |whole| + (if frac.Some? then |TrimEndZeros(frac.value)| else 0);
    if significant > MAX_SIGNIFICANT_DIGITS then Err(TooManySignificantDigits)
    else Assemble(Value(whole), FractionRaw(frac))
  }

  function FromStrStrict(s: string): ParseResult {
    var t := Trim(s);
    if t == [] then Err(InvalidFormat) else
    var neg := t[0] == '-';
    var body := if neg then t[1..] else t;
    match MatchBody(body)
    case None => Err(InvalidFormat)
    case Some((whole, frac)) =>
      var d := FromParts(whole, frac);
      if neg then d.Negated() else d
  }

  // ------------------------------------------------------------ text forms

  /** The fractional digits written for a raw magnitude, trailing zeros removed. */
  function FractionText(magnitude: nat): string {
    TrimEndZeros(Pad18(magnitude % SCALE))
  }

  function MagnitudeText(magnitude: nat): string {
    if magnitude % SCALE == 0 then NatText(magnitude / SCALE)
    else NatText(magnitude / SCALE) + "." + (if FractionText(magnitude) == [] then "0" else FractionText(magnitude))
  }

  function ExactText(raw: int): string {
    if raw == 0 then "0" else (if raw < 0 then "-" else "") + MagnitudeText(Abs(raw))
  }

  function ToExactString(d: Decimal): string { ExactText(d.raw) }

  /** The value the display form shows: at most 28 significant digits. */
  function RawForDisplay(d: Decimal): int {
    var (coeff, _) := StripZeros(d.raw, -18);
    if DigitCount(Abs(coeff)) <= 28 then d.raw else RoundSignificant(d.raw, 28)
  }

  function Display(d: Decimal): string {
    if d.raw == 0 then "0" else ExactText(RawForDisplay(d))
  }

  // ----------------------------------------------------------- round trips

  lemma {:induction false} TrimIsIdentity(s: string)
    requires s != [] && !IsSpace(s[0]) && !IsSpace(s[|s| - 1])
    ensures Trim(s) == s
  {
  }

  /** What the two parts of a magnitude's text look like. */
  lemma {:induction false} MagnitudeParts(m: nat)
    ensures m % SCALE < Pow10(18)
    ensures |Pad18(m % SCALE)| == 18 && AllDigits(FractionText(m)) && |FractionText(m)| <= 18
    ensures m % SCALE != 0 ==> FractionText(m) != []
    ensures FractionText(m) + Zeros(18 - |FractionText(m)|) == Pad18(m % SCALE)
    ensures Value(Pad18(m % SCALE)) == m % SCALE
  {
    Pow10Values();
    Pad18Shape(m % SCALE);
    var p := Pad18(m % SCALE);
    TrimEndRestores(p);
    if FractionText(m) == [] {
      assert p == [] + Zeros(18) == Zeros(18);
      ValueOfZeros(18);
    }
  }

  function FractionOf(m: nat): Option<string> {
    if m % SCALE == 0 then None else Some(FractionText(m))
  }

  /** The printed magnitude splits back into the parts it was printed from. */
  lemma {:induction false} MagnitudeTextSplits(m: nat)
    ensures MatchBody(MagnitudeText(m)) == Some((NatText(m / SCALE), FractionOf(m)))
    ensures IsDigit(MagnitudeText(m)[0]) && IsDigit(MagnitudeText(m)[|MagnitudeText(m)| - 1])
  {
    MagnitudeParts(m);
    NatTextLength(m / SCALE);
    MatchBodyIffSplits(MagnitudeText(m), NatText(m / SCALE), FractionOf(m));
  }

  /** How many digits the strict parser counts in the printed magnitude. */
  ghost function SignificantLength(m: nat): nat {
    |NatText(m / SCALE)| + (if m % SCALE == 0 then 0 else |FractionText(m)|)
  }

  lemma {:induction false} TrimStartOfNatText(n: nat)
    ensures n > 0 ==> TrimStartZeros(NatText(n)) == NatText(n)
    ensures n == 0 ==> TrimStartZeros(NatText(n)) == []
  {
    NatTextLength(n);
    if n == 0 { assert "0"[1..] == []; }
  }

  lemma {:induction false} FromPartsOfNat(n: nat, frac: Option<string>, raw: nat)
    requires frac.Some? ==> |frac.value| <= 18 && TrimEndZeros(frac.value) == frac.value
    requires raw == n * SCALE + FractionRaw(frac) <= I128_MAX
    ensures FromParts(NatText(n), frac) ==
            if |NatText(n)| + (if frac.Some? then |frac.value| else 0) > 38
            then Err(TooManySignificantDigits) else Ok(Decimal(raw))
  {
    hide NatText, Value, Pow10, TrimEndZeros, TrimStartZeros, Assemble, FractionRaw;
    TrimStartOfNatText(n);
    NatTextLength(n);
    ValueOfNatText(n);
    AssembleInRange(n, FractionRaw(frac));
  }

  lemma {:induction false} AssembleInRange(n: nat, f: nat)
    requires n * SCALE + f <= I128_MAX
    ensures Assemble(n, f) == Ok(Decimal(n * SCALE + f))
  {
  }

  lemma {:induction false} FromPartsOfMagnitude(m: nat)
    requires m <= I128_MAX
    ensures FromParts(NatText(m / SCALE), FractionOf(m)) ==
            if SignificantLength(m) > 38 then Err(TooManySignificantDigits) else Ok(Decimal(m))
  {
    hide FromParts, TrimEndZeros, Value, NatText, Pad18, Pow10;
    MagnitudeParts(m);
    TrimEndRestores(Pad18(m % SCALE));
    FromPartsOfNat(m / SCALE, FractionOf(m), m);
  }

  /** Strict parsing of an optional sign followed by a body that starts and ends with a digit. */
  lemma {:induction false} StrictOfSigned(neg: bool, body: string, whole: string, frac: Option<string>)
    requires body != [] && IsDigit(body[0]) && IsDigit(body[|body| - 1])
    requires MatchBody(body) == Some((whole, frac))
    ensures FromStrStrict((if neg then "-" else "") + body) ==
            if neg then FromParts(whole, frac).Negated() else FromParts(whole, frac)
  {
    hide FromParts, MatchBody, Trim;
    var text := (if neg then "-" else "") + body;
    TrimIsIdentity(text);
    if neg { assert text[1..] == body; } else { assert text == body; }
  }

  lemma {:induction false} StrictOfExactText(raw: int)
    requires raw != 0 && Abs(raw) <= I128_MAX
    ensures FromStrStrict(ExactText(raw)) ==
            if SignificantLength(Abs(raw)) > 38 then Err(TooManySignificantDigits) else Ok(Decimal(raw))
  {
    var m := Abs(raw);
    var r := FromParts(NatText(m / SCALE), FractionOf(m));
    assert FromStrStrict(ExactText(raw)) == if raw < 0 then r.Negated() else r by {
      MagnitudeTextSplits(m);
      StrictOfSigned(raw < 0, MagnitudeText(m), NatText(m / SCALE), FractionOf(m));
    }
    FromPartsOfMagnitude(m);
  }

  lemma {:induction false} LastDigitOfFraction(m: nat)
    ensures (m % SCALE) % 10 == m % 10
  {
    var q, f := m / SCALE, m % SCALE;
    assert m == 10 * (100_000_000_000_000_000 * q) + f;
  }

  lemma {:induction false} LastOfPad18(m: nat)
    ensures |Pad18(m % SCALE)| == 18 && (Pad18(m % SCALE)[17] == '0' <==> m % 10 == 0)
  {
    Pow10Values();
    Pad18Shape(m % SCALE);
    LastDigitOfFraction(m);
  }

  /** The last of the eighteen fractional digits is written exactly when it is not zero. */
  lemma {:induction false} FractionTextLength(m: nat)
    ensures |FractionText(m)| == 18 <==> m % 10 != 0
  {
    LastOfPad18(m);
    var p := Pad18(m % SCALE);
    if p[17] == '0' { assert |TrimEndZeros(p[..17])| <= 17; }
  }

  /** The strict parser's digit limit, in terms of the raw value. */
  lemma {:induction false} SignificantLengthFits(m: nat)
    requires m <= I128_MAX + 1
    ensures SignificantLength(m) <= 38 <==> m < Pow10(38) || m % 10 == 0
  {
    hide NatText, TrimEndZeros, Value, FractionText, Pow10;
    MagnitudeParts(m);
    FractionTextLength(m);
    WholeTextLength(m);
  }

  lemma {:induction false} WholeTextLength(m: nat)
    requires m <= I128_MAX + 1
    ensures if m < Pow10(38) then |NatText(m / SCALE)| <= 20 else |NatText(m / SCALE)| == 21
  {
    hide NatText;
    Pow10Values();
    Pow10Add(18, 20);
    var n := m / SCALE;
    assert Pow10(20) == 100_000_000_000_000_000_000 by { Pow10Add(18, 2); }
    assert Pow10(21) == 10 * Pow10(20);
    if m < Pow10(38) {
      NatTextFits(n, 20);
    } else {
      NatTextLength(n);
      DigitCountIs(n, 21);
    }
  }

  /**
   The storage form is lossless through the strict parser exactly for values below 10^38
   raw units, and above them for those whose last digit is zero; the rest are refused.
   */
  lemma {:induction false} ExactStringRoundTrip(d: Decimal)
    ensures FromStrStrict(ToExactString(d)) == Ok(d) <==> Abs(d.raw) < Pow10(38) || Abs(d.raw) % 10 == 0
    ensures FromStrStrict(ToExactString(d)) != Ok(d) ==>
            FromStrStrict(ToExactString(d)) == Err(TooManySignificantDigits)
  {
    if d.raw == 0 {
      ZeroParses();
    } else if d.raw == I128_MIN {
      MostNegativeIsRefused();
    } else {
      StrictOfExactText(d.raw);
      SignificantLengthFits(Abs(d.raw));
    }
  }

  lemma {:induction false} ZeroParses()
    ensures FromStrStrict("0") == Ok(ZERO)
  {
    NatTextLength(0);
    MatchBodyIffSplits("0", "0", None);
    StrictOfSigned(false, "0", "0", None);
    assert "" + "0" == "0";
    FromPartsOfNat(0, None, 0);
  }

  lemma {:induction false} MostNegativeIsRefused()
    ensures FromStrStrict(ExactText(I128_MIN)) == Err(TooManySignificantDigits)
    ensures Abs(I128_MIN) >= Pow10(38) && Abs(I128_MIN) % 10 != 0
  {
    var m := Abs(I128_MIN);
    assert m >= Pow10(38) && m % 10 != 0 by { Pow10Values(); }
    MagnitudeTextSplits(m);
    StrictOfSigned(true, MagnitudeText(m), NatText(m / SCALE), FractionOf(m));
    assert SignificantLength(m) > 38 by { SignificantLengthFits(m); }
    TrimStartOfNatText(m / SCALE);
    TrimEndRestores(Pad18(m % SCALE));
    MagnitudeParts(m);
  }

  /** Displaying and parsing back gives exactly the value rounded to 28 significant digits. */
  lemma {:induction false} DisplayRoundTrip(d: Decimal)
    ensures FitsI128(RoundSignificant(d.raw, 28))
    ensures FromStrStrict(Display(d)) == Ok(Decimal(RoundSignificant(d.raw, 28)))
  {
    RoundingNeverOverflows(d.raw);
    if d.raw == 0 {
      ZeroParses();
    } else {
      DisplayedValueParses(d);
      StrictOfExactText(RawForDisplay(d));
      SignificantLengthFits(Abs(RawForDisplay(d)));
    }
  }

  lemma {:induction false} DisplayedValueParses(d: Decimal)
    requires d.raw != 0
    ensures var y := RawForDisplay(d);
      && y == RoundSignificant(d.raw, 28) && y != 0 && Abs(y) <= I128_MAX
      && (Abs(y) < Pow10(38) || Abs(y) % 10 == 0)
  {
    DigitCountOfI128(d.raw);
    DigitCountBounds(Abs(d.raw));
    RoundSignificantIsHalfEven(d.raw);
    StripZerosShape(d.raw, -18);
    var n := DigitCount(Abs(d.raw));
    var y := RoundSignificant(d.raw, 28);
    Pow10Values();
    if n <= 28 {
      Pow10Monotone(n, 38);
    } else {
      RoundedValueShape(d.raw);
    }
  }

  lemma {:induction false} RoundedValueShape(raw: I128)
    requires DigitCount(Abs(raw)) > 28
    ensures var y := RoundSignificant(raw, 28); y != 0 && Abs(y) <= I128_MAX && Abs(y) % 10 == 0
  {
    hide RoundSignificant, HalfEven, Pow10;
    DigitCountOfI128(raw);
    RoundSignificantIsHalfEven(raw);
    DigitCountBounds(Abs(raw));
    var n := DigitCount(Abs(raw));
    RoundsToUnit(raw, n, RoundSignificant(raw, 28));
    if n == 39 {
      FullWidthRoundsInRange(raw);
    } else {
      RoundingGainsAtMostOneDigit(raw);
      Pow10Monotone(n, 38);
      Pow10Values();
    }
  }

  lemma {:induction false} RoundsToUnit(raw: int, n: nat, y: int)
    requires n > 28 && Pow10(n - 1) <= Abs(raw) && HalfEven(raw, Pow10(n - 28), y)
    ensures y != 0 && Abs(y) % 10 == 0
  {
    var m: int :| y == m * Pow10(n - 28) && 2 * Abs(raw - y) <= Pow10(n - 28);
    assert Pow10(n - 28) == 10 * Pow10(n - 29);
    TenDivides(y, m, Pow10(n - 29));
    Pow10Monotone(n - 28, n - 1);
  }

  lemma {:induction false} TenDivides(y: int, m: int, p: int)
    requires y == m * (10 * p)
    ensures Abs(y) % 10 == 0
  {
    ShiftDigit(m, p);
    assert Abs(y) == 10 * Abs(m * p);
  }

  /** The display form is a normal form: displaying the parsed-back value gives the same text. */
  lemma {:induction false} DisplayIsNormalForm(d: Decimal)
    ensures var r := FromStrStrict(Display(d)); r.Ok? && Display(r.value) == Display(d)
  {
    DisplayRoundTrip(d);
    RoundSignificantIsIdempotent(d.raw);
    if d.raw != 0 {
      DisplayedValueParses(d);
      DisplayedValueParses(Decimal(RoundSignificant(d.raw, 28)));
    }
  }

  /**
   The parts whose sum is past the range although the scaled whole part is not. The fraction has to fit
   18 places and, beside a 21-digit whole part, may have at most 17 significant digits.
   */
  predicate Overflows(whole: string, frac: Option<string>) {
    && frac.Some? && |frac.value| <= 18 && |TrimEndZeros(frac.value)| <= 17
    && Value(whole) * SCALE <= I128_MAX < Value(whole) * SCALE + FractionRaw(frac)
  }

  /** The unchecked addition in `from_parts` overflows exactly for these parts, whatever zeros surround them. */
  lemma {:induction false} FromPartsOverflowsIff(whole: string, frac: Option<string>)
    requires AllDigits(whole)
    ensures FromParts(whole, frac) == AddOverflow <==> Overflows(whole, frac)
  {
    TrimStartValue(whole);
    if frac.Some? && |frac.value| <= 18 {
      FractionRawBound(frac);
      if Value(whole) == WIDEST {
        TrimmedLength(whole);
        WidestHas21Digits();
      }
    }
    NoWholeIsZero();
    AssembleOverflows(Value(whole), if frac.Some? && |frac.value| <= 18 then FractionRaw(frac) else 0);
  }

  lemma {:induction false} NoWholeIsZero()
    ensures Value("") == 0 && Value("0") == 0
  {
    assert "0"[..0] == [];
  }

  lemma {:induction false} WidestHas21Digits()
    ensures DigitCount(WIDEST) == 21
  {
    Pow10Values();
    Pow10Add(18, 2);
    assert Pow10(21) == 10 * Pow10(20);
    DigitCountIs(WIDEST, 21);
  }

  /** Only one whole part leaves room for an overflow. */
  lemma {:induction false} AssembleOverflows(n: nat, f: nat)
    requires f < SCALE
    ensures Assemble(n, f) == AddOverflow <==> n * SCALE <= I128_MAX < n * SCALE + f
    ensures Assemble(n, f) == AddOverflow ==> n == WIDEST
  {
  }

  lemma {:induction false} FractionRawBound(frac: Option<string>)
    requires frac.Some? ==> |frac.value| <= 18
    ensures 0 <= FractionRaw(frac) < SCALE
  {
    Pow10Values();
    if frac.Some? { ValueBound(frac.value + Zeros(18 - |frac.value|)); }
  }

  /** The text after an optional minus sign. */
  function Unsigned(t: string): string { if t != [] && t[0] == '-' then t[1..] else t }

  /** A text overflows the strict parser if and only if it is a signed body of the grammar with such parts. */
  lemma {:induction false} StrictOverflowsIff(s: string)
    ensures FromStrStrict(s) == AddOverflow <==>
            exists whole, frac :: Splits(Unsigned(Trim(s)), whole, frac) && Overflows(whole, frac)
  {
    hide FromParts, MatchBody, Overflows, Splits, Trim;
    var body := Unsigned(Trim(s));
    forall whole, frac ensures MatchBody(body) == Some((whole, frac)) <==> Splits(body, whole, frac) {
      MatchBodyIffSplits(body, whole, frac);
    }
    match MatchBody(body)
    case None => NothingSplitsEmpty();
    case Some((whole, frac)) =>
      SplitsIntoDigits(body, whole, frac);
      FromPartsOverflowsIff(whole, frac);
      NothingSplitsEmpty();
  }

  lemma {:induction false} SplitsIntoDigits(body: string, whole: string, frac: Option<string>)
    requires Splits(body, whole, frac)
    ensures AllDigits(whole) && (frac.Some? ==> AllDigits(frac.value))
  {
  }

  lemma {:induction false} NothingSplitsEmpty()
    ensures forall whole, frac :: !Splits("", whole, frac)
  {
  }

  // ------------------------------------------------------ what is accepted

  /** The parts read as a number of raw units: in range, and beyond 10^38 only with a last digit of zero. */
  predicate Readable(magnitude: int) { 0 <= magnitude <= I128_MAX && (magnitude < Pow10(38) || magnitude % 10 == 0) }

  /** A whole part of the range has at most 21 digits, and 21 only from 10^20 on. */
  lemma {:induction false} WholeLength(whole: string)
    requires AllDigits(whole) && Value(whole) * SCALE <= I128_MAX
    ensures var trimmed := TrimStartZeros(whole);
      if Value(whole) < Pow10(20) then |trimmed| <= 20 else |trimmed| == 21
  {
    hide Value, TrimStartZeros;
    TrimStartShape(whole);
    TrimStartValue(whole);
    var trimmed := TrimStartZeros(whole);
    TwentyOneDigits();
    NoWholeIsZero();
    if trimmed != [] {
      LeadingDigitBounds(trimmed);
      if |trimmed| > 21 { Pow10Monotone(21, |trimmed| - 1); }
      if |trimmed| > 20 { Pow10Monotone(20, |trimmed| - 1); }
      if |trimmed| <= 20 { Pow10Monotone(|trimmed|, 20); }
    }
  }

  lemma {:induction false} TwentyOneDigits()
    ensures Pow10(20) == 100_000_000_000_000_000_000 && Pow10(21) == 10 * Pow10(20)
    ensures Pow10(38) == Pow10(20) * SCALE && I128_MAX < Pow10(21) * SCALE
  {
    Pow10Values();
    Pow10Add(18, 2);
    Pow10Add(20, 1);
  }

  /** A fraction of 18 significant digits is one whose last raw digit is not zero. */
  lemma {:induction false} LastDigitIff(f: string)
    requires |f| <= 18 && AllDigits(f)
    ensures |TrimEndZeros(f)| <= 17 <==> FractionRaw(Some(f)) % 10 == 0
  {
    var padded := f + Zeros(18 - |f|);
    ValueNext(padded[..17], padded[17]);
    assert padded == padded[..17] + [padded[17]];
    if |f| < 18 { assert padded[17] == '0'; } else { assert padded == f; }
  }

  /** What `from_parts` accepts, and as what. */
  lemma {:induction false} PartsReadIff(whole: string, frac: Option<string>, d: Decimal)
    requires AllDigits(whole) && (frac.Some? ==> |frac.value| <= 18 && AllDigits(frac.value))
    ensures FromParts(whole, frac) == Ok(d) <==>
      d.raw == Value(whole) * SCALE + FractionRaw(frac) && Readable(Value(whole) * SCALE + FractionRaw(frac))
  {
    hide Value, TrimStartZeros, TrimEndZeros, Assemble, FractionRaw, Pow10;
    FractionRawBound(frac);
    TwentyOneDigits();
    TrimStartValue(whole);
    NoWholeIsZero();
    AssembleReadsIff(Value(whole), FractionRaw(frac), d);
    if Value(whole) * SCALE + FractionRaw(frac) <= I128_MAX {
      WholeLength(whole);
      if frac.Some? { LastDigitIff(frac.value); } else { NoFractionIsZero(); }
      LastDigitOfSum(Value(whole), FractionRaw(frac));
    }
  }

  lemma {:induction false} NoFractionIsZero()
    ensures FractionRaw(None) == 0
  {
  }

  lemma {:induction false} LastDigitOfSum(n: nat, f: nat)
    requires f < SCALE
    ensures (n * SCALE + f) % 10 == f % 10
    ensures n * SCALE + f < Pow10(38) <==> n < Pow10(20)
  {
    TwentyOneDigits();
    assert n * SCALE + f == 10 * (n * 100_000_000_000_000_000) + f;
  }

  lemma {:induction false} AssembleReadsIff(n: nat, f: nat, d: Decimal)
    ensures Assemble(n, f) == Ok(d) <==> n * SCALE + f <= I128_MAX && d.raw == n * SCALE + f
  {
  }

  /**
   What the strict parser reads: a body of the grammar after an optional minus sign, with at most 18 fractional digits,
   whose value in raw units is in range and, from 10^38 on, a multiple of ten. Everything else is refused or overflows.
   */
  lemma {:induction false} StrictReadsIff(s: string, d: Decimal)
    ensures FromStrStrict(s) == Ok(d) <==>
            exists whole, frac :: Splits(Unsigned(Trim(s)), whole, frac) && Reads(Trim(s), whole, frac, d.raw)
  {
    hide FromParts, MatchBody, Reads, Splits, Trim;
    var t := Trim(s);
    var body := Unsigned(t);
    forall whole, frac ensures MatchBody(body) == Some((whole, frac)) <==> Splits(body, whole, frac) {
      MatchBodyIffSplits(body, whole, frac);
    }
    NothingSplitsEmpty();
    match MatchBody(body)
    case None =>
    case Some((whole, frac)) => SignedPartsReadIff(t, whole, frac, d);
  }

  predicate Reads(t: string, whole: string, frac: Option<string>, raw: int) {
    && (frac.Some? ==> |frac.value| <= 18)
    && var magnitude := Value(whole) * SCALE + (if frac.Some? then Value(frac.value + Zeros(18 - |frac.value|)) else 0);
       Readable(magnitude) && raw == if t != [] && t[0] == '-' then 0 - magnitude else magnitude
  }

  lemma {:induction false} SignedPartsReadIff(t: string, whole: string, frac: Option<string>, d: Decimal)
    requires Splits(Unsigned(t), whole, frac)
    ensures var r := FromParts(whole, frac);
      (if t != [] && t[0] == '-' then r.Negated() else r) == Ok(d) <==> Reads(t, whole, frac, d.raw)
  {
    hide Splits, Value, Unsigned, FromParts, Readable;
    SplitsIntoDigits(Unsigned(t), whole, frac);
    if frac.Some? && |frac.value| > 18 {
      LongFractionIsRefused(whole, frac);
    } else {
      PartsReadIff(whole, frac, d);
      PartsReadIff(whole, frac, Neg(d));
      if FromParts(whole, frac).Ok? { PartsReadIff(whole, frac, FromParts(whole, frac).value); }
      ReadableIsPositive(Value(whole) * SCALE + FractionRaw(frac));
      NegatedIff(FromParts(whole, frac), d);
    }
  }

  lemma {:induction false} LongFractionIsRefused(whole: string, frac: Option<string>)
    requires frac.Some? && |frac.value| > 18
    ensures FromParts(whole, frac) == Err(TooManyFractionalDigits)
  {
  }

  lemma {:induction false} ReadableIsPositive(m: int)
    ensures Readable(m) ==> 0 <= m <= I128_MAX
  {
  }

  lemma {:induction false} NegatedIff(r: ParseResult, d: Decimal)
    requires r.Ok? ==> r.value.raw >= 0
    ensures r.Negated() == Ok(d) <==> d.raw != I128_MIN && r == Ok(Neg(d))
  {
  }

  /** Such a text exists: 170141183460469231731.9 passes the grammar and overflows. */
  lemma {:induction false} StrictParseCanOverflow()
    ensures FromStrStrict(NatText(170_141_183_460_469_231_731) + ".9") == AddOverflow
  {
    hide FromParts, MatchBody, NatText, Value, FractionRaw, FromStrStrict;
    var whole := NatText(170_141_183_460_469_231_731);
    var body := whole + ".9";
    LargestWholePart();
    assert FromStrStrict(body) == FromParts(whole, Some("9")) by {
      assert Splits(body, whole, Some("9")) by { assert body == whole + "." + "9"; }
      MatchBodyIffSplits(body, whole, Some("9"));
      StrictOfSigned(false, body, whole, Some("9"));
      assert "" + body == body;
    }
    NineTenths();
    FromPartsOverflowsIff(whole, Some("9"));
  }

  lemma {:induction false} LargestWholePart()
    ensures var whole := NatText(170_141_183_460_469_231_731);
      && 1 < |whole| <= 21 && IsIntegerPart(whole) && TrimStartZeros(whole) == whole
      && Value(whole) == 170_141_183_460_469_231_731
  {
    var n := 170_141_183_460_469_231_731;
    NatTextLength(n);
    ValueOfNatText(n);
    TrimStartOfNatText(n);
    assert Pow10(21) == 1_000_000_000_000_000_000_000 by { Pow10Values(); Pow10Add(18, 2); Pow10Add(20, 1); }
    NatTextFits(n, 21);
    assert |NatText(n / 10)| > 0;
  }

  lemma {:induction false} NineTenths()
    ensures FractionRaw(Some("9")) == 900_000_000_000_000_000
  {
    ValueConcat("9", Zeros(17));
    ValueOfZeros(17);
    assert Value("9") == 9 by { assert "9"[..0] == []; }
    assert Pow10(17) == 100_000_000_000_000_000 by { Pow10Values(); assert Pow10(18) == 10 * Pow10(17); }
  }
}
