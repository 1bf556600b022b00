/** `conv_str2timeval`: decimal seconds to a timeval, and the `%ld.%06ld` format in which
    the programs print one. */
module SetTimer {
  import opened Word64
  import opened Decimal
  import opened Lexing
  import opened Timeval

  datatype Result = Converted(tv: Timeval) | Invalid

  // ---------------------------------------------------------------- what a string denotes

  function DotAt(s: string): nat {
    IndexOf(s, '.')
  }

  function Whole(s: string): string {
    s[..DotAt(s)]
  }

  function Fraction(s: string): string {
    if DotAt(s) < |s| then s[DotAt(s) + 1..] else ""
  }

  /** floor(10^6 * 0.f) */
  ghost function FractionMicros(f: string): nat
    requires AllDigits(f)
  {
    Quotient(Value(f) * 1_000_000, Pow10(|f|))
  }

  function Quotient(n: nat, d: nat): nat
    requires d > 0
  {
    n / d
  }

  /** Digits, optionally a dot and more digits; either part may be empty. */
  ghost function Convert(s: string): Result {
    var w, f := Whole(s), Fraction(s);
    if AllDigits(w) && AllDigits(f) && Value(w) < TWO63 then Converted(Timeval(Value(w), FractionMicros(f)))
    else Invalid
  }

  // ---------------------------------------------------------------- arithmetic

  /** Dividing the wrapped product back detects every overflow of a signed 64-bit word. */
  lemma SignedOverflowDetected(v: nat, d: nat)
    requires v < TWO63 && d < 10
    ensures TruncDiv(Signed64(v * 10 + d), 10) == v <==> v * 10 + d < TWO63
    ensures v * 10 + d < TWO63 ==> Signed64(v * 10 + d) == v * 10 + d
  {
    var x := v * 10 + d;
    var k := WrapQuotient(x);
    if x < TWO64 {
      WrapWord(x);
    }
  }

  lemma {:induction false} PrefixValue(s: string, k: nat)
    requires AllDigits(s) && k <= |s|
    ensures Value(s[..k]) <= Value(s)
  {
    if k < |s| {
      var init := s[..|s| - 1];
      PrefixValue(init, k);
      assert init[..k] == s[..k];
    } else {
      assert s[..k] == s;
    }
  }

  lemma QuotientIs(n: nat, d: nat, q: nat)
    requires d > 0 && q * d <= n < (q + 1) * d
    ensures Quotient(n, d) == q
  {
    var r := n / d;
    assert n == r * d + n % d;
    assert (r + 1) * d == r * d + d;
    SmallerFactor(q, r + 1, d);
    SmallerFactor(r, q + 1, d);
  }

  lemma SmallerFactor(x: nat, y: nat, d: nat)
    requires x * d < y * d
    ensures x < y
  {
  }

  /** Up to six digits the value is exact ... */
  lemma ShortFraction(f: string)
    requires AllDigits(f) && |f| <= 6
    ensures FractionMicros(f) == Value(f) * Pow10(6 - |f|)
  {
    var v := Value(f);
    hide Value;
    if |f| == 0 { assert Pow10(0) == 1; }
    else if |f| == 1 { assert Pow10(1) == 10; }
    else if |f| == 2 { assert Pow10(2) == 100; }
    else if |f| == 3 { assert Pow10(3) == 1000; }
    else if |f| == 4 { assert Pow10(4) == 10000; }
    else if |f| == 5 { assert Pow10(5) == 100000; }
    else { assert Pow10(6) == 1000000; }
  }

  lemma {:induction false} Pow10Add(a: nat, b: nat)
    ensures Pow10(a + b) == Pow10(a) * Pow10(b)
  {
    if a > 0 {
      Pow10Add(a - 1, b);
      Assoc(Pow10(a - 1), Pow10(b));
    }
  }

  lemma Assoc(x: nat, y: nat)
    ensures 10 * (x * y) == (10 * x) * y
  {
  }

  /** ... and later digits are cut off. */
  lemma LongFraction(f: string)
    requires AllDigits(f) && |f| >= 6
    ensures FractionMicros(f) == Value(f[..6])
  {
    var a, b := f[..6], f[6..];
    assert f == a + b;
    ValueConcat(a, b);
    ValueBound(b);
    Pow10Add(6, |b|);
    assert Pow10(6) == 1_000_000;
    CutOff(Value(a), Value(b), Pow10(|b|));
  }

  lemma CutOff(a: nat, b: nat, p: nat)
    requires b < p
    ensures 1_000_000 * p > 0
    ensures Quotient((a * p + b) * 1_000_000, 1_000_000 * p) == a
  {
    var d := 1_000_000 * p;
    assert a * d == (a * p) * 1_000_000;
    assert (a + 1) * d == a * d + d;
    QuotientIs((a * p + b) * 1_000_000, d, a);
  }

  /** The weight of the digit after k digits: 10^5, 10^4, ..., 1, 0, 0, ... */
  function Weight(k: nat): nat {
    if k < 6 then Pow10(5 - k) else 0
  }

  lemma FractionStep(f: string, c: char)
    requires AllDigits(f) && IsDigit(c)
    ensures FractionMicros(f + [c]) == FractionMicros(f) + DigitValue(c) * Weight(|f|)
  {
    hide FractionMicros, Pow10;
    var g := f + [c];
    assert g[..|f|] == f;
    if |f| < 6 {
      ShortFraction(f);
      ShortFraction(g);
      Pow10Down(5 - |f|);
      OneDigitMore(Value(f), DigitValue(c), Pow10(5 - |f|));
    } else {
      LongFraction(f);
      LongFraction(g);
      assert g[..6] == f[..6];
    }
  }

  lemma Pow10Down(k: nat)
    ensures Pow10(k + 1) == 10 * Pow10(k)
  {
  }

  lemma OneDigitMore(v: nat, d: nat, p: nat)
    ensures (10 * v + d) * p == v * (10 * p) + d * p
  {
  }

  lemma WeightStep(k: nat)
    ensures Weight(k + 1) == Weight(k) / 10
  {
    if k < 5 {
      assert Pow10(5 - k) == 10 * Pow10(4 - k);
    }
  }

  // ---------------------------------------------------------------- the procedure

  class TimevalRef {
    var tv: Timeval

    constructor (tv: Timeval)
      ensures this.tv == tv
    {
      this.tv := tv;
    }
  }

  /** Fails without touching the result, or stores exactly what the string denotes. */
  method ConvStr2Timeval(str: string, result: TimevalRef) returns (ret: int)
    modifies result
    ensures ret == if Convert(str).Converted? then 0 else -1
    ensures result.tv == if Convert(str).Converted? then Convert(str).tv else old(result.tv)
  {
    hide Value, FractionMicros, Pow10, Signed64, TruncDiv, Weight, IndexOf;
    var tvSec, tvUsec := 0, 0;
    var cp := 0;
    EmptyDenotesZero();
    while cp < |str| && str[cp] != '.'
      invariant cp <= DotAt(str) && AllDigits(str[..cp])
      invariant tvSec == Value(str[..cp]) < TWO63
      invariant result.tv == old(result.tv)
    {
      if !IsDigit(str[cp]) {
        assert Whole(str)[cp] == str[cp];
        assert !AllDigits(Whole(str));
        return -1;
      }
      var t := Signed64(tvSec * 10 + DigitValue(str[cp]));
      SignedOverflowDetected(tvSec, DigitValue(str[cp]));
      OneMoreDigit(str, cp);
      if TruncDiv(t, 10) != tvSec {
        return -1;
      }
      tvSec := t;
      cp := cp + 1;
    }
    assert cp == DotAt(str);
    if cp < |str| {
      var i := 100_000;
      cp := cp + 1;
      ghost var start := cp;
      assert str[start..cp] == "";
      while cp < |str|
        invariant start <= cp <= |str| && AllDigits(str[start..cp])
        invariant tvUsec == FractionMicros(str[start..cp]) && i == Weight(cp - start)
        invariant result.tv == old(result.tv)
      {
        if !IsDigit(str[cp]) {
          assert Fraction(str)[cp - start] == str[cp];
          assert !AllDigits(Fraction(str));
          return -1;
        }
        assert str[start..cp + 1] == str[start..cp] + [str[cp]];
        FractionStep(str[start..cp], str[cp]);
        WeightStep(cp - start);
        tvUsec := tvUsec + DigitValue(str[cp]) * i;
        i := i / 10;
        cp := cp + 1;
      }
      assert str[start..cp] == str[start..] == Fraction(str);
    }
    result.tv := Timeval(tvSec, tvUsec);
    return 0;
  }

  lemma EmptyDenotesZero()
    ensures Value("") == 0 && FractionMicros("") == 0 && Weight(0) == 100_000
  {
    assert Pow10(5) == 100_000;
  }

  lemma ValuePush(s: string, c: char)
    requires AllDigits(s) && IsDigit(c)
    ensures AllDigits(s + [c]) && Value(s + [c]) == Value(s) * 10 + DigitValue(c)
  {
    assert (s + [c])[..|s|] == s;
  }

  lemma OneMoreDigit(s: string, k: nat)
    requires k < DotAt(s) && AllDigits(s[..k]) && IsDigit(s[k])
    ensures AllDigits(s[..k + 1]) && Value(s[..k + 1]) == Value(s[..k]) * 10 + DigitValue(s[k])
    ensures AllDigits(Whole(s)) ==> Value(s[..k + 1]) <= Value(Whole(s))
  {
    hide IndexOf, Value;
    assert s[..k + 1] == s[..k] + [s[k]];
    ValuePush(s[..k], s[k]);
    if AllDigits(Whole(s)) {
      PrefixValue(Whole(s), k + 1);
      assert Whole(s)[..k + 1] == s[..k + 1];
    }
  }

  // ---------------------------------------------------------------- what the conversion promises

  /** The string form behind `Convert`: a string is accepted if and only if it splits into
      digits and optional fraction digits with a whole part that fits, and the result is
      the denoted decimal cut off at microseconds, normalised. */
  lemma AcceptedIff(s: string)
    ensures Convert(s).Converted? <==>
            exists w, f :: (AllDigits(w) && AllDigits(f) && Value(w) < TWO63
                            && (s == w + "." + f || (s == w && f == "")))
    ensures Convert(s).Converted? ==>
              var w, f, tv := Whole(s), Fraction(s), Convert(s).tv;
              && AllDigits(w + f) && tv.Normal()
              && tv.Micros() == Quotient(Value(w + f) * 1_000_000, Pow10(|f|))
  {
    var w, f := Whole(s), Fraction(s);
    if Convert(s).Converted? {
      assert s == w + "." + f || (s == w && f == "") by {
        if DotAt(s) == |s| { assert w == s; }
      }
      ValueConcat(w, f);
      ValueBound(f);
      FloorOfSum(Value(w), Value(f), Pow10(|f|));
    }
    if v, g :| AllDigits(v) && AllDigits(g) && Value(v) < TWO63 && (s == v + "." + g || (s == v && g == "")) {
      FirstDot(s, v, g);
    }
  }

  lemma FirstDot(s: string, w: string, f: string)
    requires AllDigits(w) && (s == w + "." + f || (s == w && f == ""))
    ensures Whole(s) == w && Fraction(s) == f
  {
    assert s[..|w|] == w;
    IndexOfIs(s, '.', |w|);
  }

  lemma FloorOfSum(w: nat, f: nat, p: nat)
    requires f < p
    ensures Quotient(f * 1_000_000, p) < 1_000_000
    ensures Quotient((w * p + f) * 1_000_000, p) == w * 1_000_000 + Quotient(f * 1_000_000, p)
  {
    var n, q := f * 1_000_000, f * 1_000_000 / p;
    assert n == q * p + n % p;
    assert q * p < 1_000_000 * p;
    SmallerFactor(q, 1_000_000, p);
    var total := w * 1_000_000 + q;
    Distribute(w, q, p);
    assert (total + 1) * p == total * p + p;
    QuotientIs((w * p + f) * 1_000_000, p, total);
  }

  lemma Distribute(w: nat, q: nat, p: nat)
    ensures (w * 1_000_000 + q) * p == (w * p) * 1_000_000 + q * p
  {
  }

  /** Digits past the sixth decimal are validated but make no difference. */
  lemma PastSixthIgnored(w: string, f: string, g: string, h: string)
    requires AllDigits(w) && AllDigits(f) && AllDigits(g) && AllDigits(h) && |f| == 6
    ensures Convert(w + "." + (f + g)) == Convert(w + "." + (f + h))
  {
    FirstDot(w + "." + (f + g), w, f + g);
    FirstDot(w + "." + (f + h), w, f + h);
    LongFraction(f + g);
    LongFraction(f + h);
    assert (f + g)[..6] == f && (f + h)[..6] == f;
  }

  // ---------------------------------------------------------------- the printed form

  /** %06ld for nonnegative values. */
  function Padded(n: nat): string {
    var ds := Digits(n);
    if |ds| < 6 then Zeros(6 - |ds|) + ds else ds
  }

  /** %ld.%06ld */
  function Render(tv: Timeval): string
    requires tv.sec >= 0 && tv.usec >= 0
  {
    Digits(tv.sec) + "." + Padded(tv.usec)
  }

  lemma {:induction false} ZerosAddNothing(k: nat, s: string)
    requires AllDigits(s)
    ensures Value(Zeros(k) + s) == Value(s)
  {
    if k == 0 {
      assert Zeros(k) + s == s;
    } else {
      ZerosAddNothing(k - 1, s);
      assert Zeros(k) + s == "0" + (Zeros(k - 1) + s);
      ValueConcat("0", Zeros(k - 1) + s);
      ValueOfOne('0');
    }
  }

  lemma {:induction false} DigitsLength(n: nat, k: nat)
    requires k > 0 && n < Pow10(k)
    ensures |Digits(n)| <= k
  {
    if n >= 10 {
      assert k > 1 by { assert Pow10(1) == 10; }
      DigitsLength(n / 10, k - 1);
    }
  }

  lemma PaddedReadsBack(n: nat)
    requires n < 1_000_000
    ensures AllDigits(Padded(n)) && |Padded(n)| == 6 && Value(Padded(n)) == n
  {
    assert Pow10(6) == 1_000_000;
    DigitsLength(n, 6);
    ValueOfDigits(n);
    ZerosAddNothing(6 - |Digits(n)|, Digits(n));
  }

  /** Round trip: a printed timeval converts back to itself. */
  lemma RenderedConvertsBack(tv: Timeval)
    requires tv.Normal() && 0 <= tv.sec < TWO63
    ensures Convert(Render(tv)) == Converted(tv)
  {
    var w, f := Digits(tv.sec), Padded(tv.usec);
    PaddedReadsBack(tv.usec);
    ValueOfDigits(tv.sec);
    FirstDot(Render(tv), w, f);
    LongFraction(f);
    assert f[..6] == f;
  }
}
