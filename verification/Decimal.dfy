/** Digit strings and the numbers they denote. */
module Decimal {

  predicate IsDigit(c: char) {
    '0' <= c <= '9'
  }

  function DigitValue(c: char): int {
    c as int - '0' as int
  }

  function DigitChar(d: nat): (c: char)
    requires d < 10
    ensures IsDigit(c) && DigitValue(c) == d
  {
    ('0' as int + d) as char
  }

  ghost predicate AllDigits(s: string) {
    forall i :: 0 <= i < |s| ==> IsDigit(s[i])
  }

  /** The number a string of decimal digits denotes. */
  ghost function Value(s: string): nat
    requires AllDigits(s)
  {
    if s == [] then 0 else 10 * Value(s[..|s| - 1]) + DigitValue(s[|s| - 1])
  }

  /** The decimal numeral of n, without leading zeros. */
  function Digits(n: nat): (s: string)
    ensures s != [] && AllDigits(s)
    ensures n > 0 ==> s[0] != '0'
  {
    if n < 10 then [DigitChar(n)] else Digits(n / 10) + [DigitChar(n % 10)]
  }

  function Zeros(k: nat): (s: string)
    ensures |s| == k && AllDigits(s)
  {
    if k == 0 then "" else "0" + Zeros(k - 1)
  }

  function OctDigit(d: nat): char
    requires d < 8
  {
    "01234567"[d]
  }

  /** The octal numeral of n, without leading zeros. */
  function OctDigits(n: nat): (s: string)
    ensures s != []
  {
    if n < 8 then [OctDigit(n)] else OctDigits(n / 8) + [OctDigit(n % 8)]
  }

  function HexDigit(d: nat, upper: bool): char
    requires d < 16
  {
    if upper then "0123456789ABCDEF"[d] else "0123456789abcdef"[d]
  }

  /** The hexadecimal numeral of n, without leading zeros; `upper` says, from the right,
      which digits are capitals. */
  function HexDigits(n: nat, upper: seq<bool>): (s: string)
    ensures s != []
    decreases n
  {
    var last := HexDigit(n % 16, upper != [] && upper[0]);
    if n < 16 then [last] else HexDigits(n / 16, if upper == [] then [] else upper[1..]) + [last]
  }

  lemma {:induction false} ValueOfDigits(n: nat)
    ensures Value(Digits(n)) == n
  {
    if n >= 10 {
      ValueOfDigits(n / 10);
      var s := Digits(n);
      assert s[..|s| - 1] == Digits(n / 10);
    } else {
      assert [DigitChar(n)][..0] == [];
    }
  }

  function Pow10(k: nat): (p: nat)
    ensures p > 0
  {
    if k == 0 then 1 else 10 * Pow10(k - 1)
  }

  lemma {:induction false} ValueBound(s: string)
    requires AllDigits(s)
    ensures Value(s) < Pow10(|s|)
  {
    if s != [] {
      ValueBound(s[..|s| - 1]);
    }
  }

  lemma Regroup(x: nat, p: nat, v: nat)
    ensures 10 * (x * p + v) == x * (10 * p) + 10 * v
  {
  }

  lemma {:induction false} ValueConcat(a: string, b: string)
    requires AllDigits(a) && AllDigits(b)
    ensures AllDigits(a + b) && Value(a + b) == Value(a) * Pow10(|b|) + Value(b)
  {
    if b == [] {
      assert a + b == a;
    } else {
      var init := b[..|b| - 1];
      ValueConcat(a, init);
      assert (a + b)[..|a + b| - 1] == a + init;
      Regroup(Value(a), Pow10(|init|), Value(init));
    }
  }

  lemma ValueOfOne(c: char)
    requires IsDigit(c)
    ensures Value([c]) == DigitValue(c)
  {
    assert [c][..0] == [];
  }
}
