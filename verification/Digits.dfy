/** Decimal digit strings: their value, their canonical text, padding and trimming. */
module Digits {
  import opened Arith

  predicate IsDigit(c: char) { '0' <= c <= '9' }

  predicate AllDigits(s: string) { forall i | 0 <= i < |s| :: IsDigit(s[i]) }

  function DigitValue(c: char): (v: nat)
    ensures v < 10
  {
    if IsDigit(c) then c as int - '0' as int else 0
  }

  function DigitChar(d: nat): (c: char)
    requires d < 10
    ensures IsDigit(c) && DigitValue(c) == d
  {
    "0123456789"[d]
  }

  /** The number a digit string denotes, most significant digit first. */
  function Value(s: string): nat {
    if s == [] then 0 else 10 * Value(s[..|s| - 1]) + DigitValue(s[|s| - 1])
  }

  /** The canonical decimal text of a natural number. */
  function NatText(n: nat): (s: string)
    ensures |s| > 0 && AllDigits(s)
  {
    if n < 10 then [DigitChar(n)] else NatText(n / 10) + [DigitChar(n % 10)]
  }

  function Zeros(n: nat): (s: string)
    ensures |s| == n && AllDigits(s)
  {
    seq(n, _ => '0')
  }

  /** Zero-padded to 18 places, as the fractional part is written. */
  function Pad18(n: nat): string {
    var t := NatText(n);
    if |t| < 18 then Zeros(18 - |t|) + t else t
  }

  function TrimStartZeros(s: string): (r: string)
    ensures |r| <= |s| && r == s[|s| - |r|..]
  {
    if s != [] && s[0] == '0' then TrimStartZeros(s[1..]) else s
  }

  function TrimEndZeros(s: string): (r: string)
    ensures |r| <= |s| && r == s[..|r|]
    ensures r == [] || r[|r| - 1] != '0'
  {
    if s != [] && s[|s| - 1] == '0' then TrimEndZeros(s[..|s| - 1]) else s
  }

  /** The number of significant decimal digits of a magnitude. */
  function DigitCount(v: nat): nat {
    if v == 0 then 0 else 1 + DigitCount(v / 10)
  }

  method SignificantDigits(v: nat) returns (n: nat)
    ensures n == DigitCount(v)
  {
    n := 0;
    var x := v;
    while x > 0
      invariant n + DigitCount(x) == DigitCount(v)
    {
      x := x / 10;
      n := n + 1;
    }
  }

  // ------------------------------------------------------------------ value

  lemma {:induction false} ValueNext(s: string, c: char)
    ensures Value(s + [c]) == 10 * Value(s) + DigitValue(c)
  {
    assert (s + [c])[..|s|] == s;
  }

  /** Appending a digit to the lower part of a two-part number. */
  lemma {:induction false} AppendDigit(a: int, p: int, v: int, d: int)
    ensures 10 * (a * p + v) + d == a * (10 * p) + (10 * v + d)
  {
  }

  lemma {:induction false} ValueConcat(a: string, b: string)
    ensures Value(a + b) == Value(a) * Pow10(|b|) + Value(b)
  {
    if b == [] {
      assert a + b == a;
    } else {
      var front, c := b[..|b| - 1], b[|b| - 1];
      ValueConcat(a, front);
      ValueNext(a + front, c);
      ValueNext(front, c);
      assert a + b == a + front + [c] && b == front + [c];
      assert Pow10(|b|) == 10 * Pow10(|front|);
      hide Value, Pow10;
      AppendDigit(Value(a), Pow10(|front|), Value(front), DigitValue(c));
    }
  }

  lemma {:induction false} ValueBound(s: string)
    ensures Value(s) < Pow10(|s|)
  {
    if s != [] {
      ValueBound(s[..|s| - 1]);
    }
  }

  lemma {:induction false} ValueOfZeros(n: nat)
    ensures Value(Zeros(n)) == 0
  {
    if n > 0 {
      assert Zeros(n)[..n - 1] == Zeros(n - 1);
      ValueOfZeros(n - 1);
    }
  }

  lemma {:induction false} ValueOfNatText(n: nat)
    ensures Value(NatText(n)) == n
  {
    if n >= 10 {
      ValueOfNatText(n / 10);
      assert NatText(n)[..|NatText(n)| - 1] == NatText(n / 10);
    } else {
      assert NatText(n)[..0] == [];
    }
  }

  // ----------------------------------------------------------------- length

  /** v has exactly k digits when it lies between the powers 10^(k-1) and 10^k. */
  lemma {:induction false} DigitCountBounds(v: nat)
    ensures v < Pow10(DigitCount(v))
    ensures v > 0 ==> Pow10(DigitCount(v) - 1) <= v
  {
    if v > 0 {
      DigitCountBounds(v / 10);
    }
  }

  lemma {:induction false} DigitCountIs(v: nat, k: nat)
    requires v < Pow10(k) && (k == 0 || Pow10(k - 1) <= v)
    ensures DigitCount(v) == k
  {
    DigitCountBounds(v);
    if DigitCount(v) < k {
      Pow10Monotone(DigitCount(v), k - 1);
    } else if DigitCount(v) > k {
      Pow10Monotone(k, DigitCount(v) - 1);
    }
  }

  lemma {:induction false} NatTextLength(n: nat)
    ensures |NatText(n)| == if n == 0 then 1 else DigitCount(n)
    ensures n > 0 ==> NatText(n)[0] != '0'
    ensures n == 0 ==> NatText(n) == "0"
  {
    if n >= 10 {
      NatTextLength(n / 10);
    } else {
      assert DigitCount(n / 10) == 0;
    }
  }

  lemma {:induction false} NatTextFits(n: nat, k: nat)
    requires k > 0 && n < Pow10(k)
    ensures |NatText(n)| <= k
  {
    NatTextLength(n);
    DigitCountBounds(n);
    if DigitCount(n) > k {
      Pow10Monotone(k, DigitCount(n) - 1);
    }
  }

  // ------------------------------------------------------ padding, trimming

  lemma {:induction false} PaddedValue(k: nat, t: string)
    ensures Value(Zeros(k) + t) == Value(t)
  {
    ValueConcat(Zeros(k), t);
    ValueOfZeros(k);
    assert 0 * Pow10(|t|) == 0;
  }

  lemma {:induction false} NatTextLastDigit(n: nat)
    ensures NatText(n)[|NatText(n)| - 1] == DigitChar(n % 10)
  {
  }

  lemma {:induction false} Pad18Value(n: nat)
    ensures Value(Pad18(n)) == n
  {
    hide Value, NatText, Zeros;
    var t := NatText(n);
    ValueOfNatText(n);
    if |t| < 18 { PaddedValue(18 - |t|, t); }
  }

  lemma {:induction false} Pad18Shape(n: nat)
    requires n < Pow10(18)
    ensures |Pad18(n)| == 18 && AllDigits(Pad18(n)) && Value(Pad18(n)) == n
    ensures Pad18(n)[17] == DigitChar(n % 10)
  {
    hide Value, Pow10, NatText, DigitChar;
    Pad18Value(n);
    NatTextFits(n, 18);
    NatTextLastDigit(n);
  }

  lemma {:induction false} TrimEndRestores(s: string)
    ensures s == TrimEndZeros(s) + Zeros(|s| - |TrimEndZeros(s)|)
    ensures TrimEndZeros(TrimEndZeros(s)) == TrimEndZeros(s)
  {
    if s != [] && s[|s| - 1] == '0' {
      var front := s[..|s| - 1];
      TrimEndRestores(front);
      var k := |front| - |TrimEndZeros(front)|;
      assert Zeros(k + 1) == Zeros(k) + ['0'];
      assert s == front + ['0'];
    }
  }

  lemma {:induction false} LeadingZero(s: string)
    ensures Value("0" + s) == Value(s)
  {
    if s == [] {
      assert "0"[..0] == [] && "0" + s == "0";
    } else {
      assert ("0" + s)[..|s|] == "0" + s[..|s| - 1];
      LeadingZero(s[..|s| - 1]);
    }
  }

  /** Without leading zeros, the length of a digit string is the digit count of its value. */
  lemma {:induction false} LeadingDigitBounds(s: string)
    requires s != [] && AllDigits(s) && s[0] != '0'
    ensures Pow10(|s| - 1) <= Value(s) < Pow10(|s|)
  {
    ValueBound(s);
    assert s == [s[0]] + s[1..];
    ValueConcat([s[0]], s[1..]);
    assert Value([s[0]]) == DigitValue(s[0]) by { assert [s[0]][..0] == []; }
    MulLe(1, DigitValue(s[0]), Pow10(|s| - 1));
  }

  lemma {:induction false} TrimmedLength(s: string)
    requires AllDigits(s) && Value(s) > 0
    ensures |TrimStartZeros(s)| == DigitCount(Value(s))
  {
    var t := TrimStartZeros(s);
    TrimStartValue(s);
    TrimStartShape(s);
    assert Value("") == 0;
    LeadingDigitBounds(t);
    DigitCountIs(Value(t), |t|);
  }

  lemma {:induction false} TrimStartShape(s: string)
    ensures var t := TrimStartZeros(s);
      (t == [] || t[0] != '0') && (AllDigits(s) ==> AllDigits(t))
  {
    if s != [] && s[0] == '0' { TrimStartShape(s[1..]); }
  }

  lemma {:induction false} TrimStartValue(s: string)
    ensures Value(TrimStartZeros(s)) == Value(s)
  {
    if s != [] && s[0] == '0' {
      TrimStartValue(s[1..]);
      LeadingZero(s[1..]);
      assert "0" + s[1..] == s;
    }
  }
}
