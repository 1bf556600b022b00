/** Scanning C strings: what strtoul, atoi and strsep have in common. */
module Lexing {
  import opened Decimal

  /** The character at i of a C string. */
  function At(s: string, i: nat): char {
    if i < |s| then s[i] else '\0'
  }

  /** isspace in the C locale. */
  predicate IsSpace(c: char) {
    c == ' ' || 9 <= c as int <= 13
  }

  function SkipSpace(s: string, i: nat): (j: nat)
    ensures i <= j
    ensures j > i ==> j <= |s|
    decreases |s| - i
  {
    if i < |s| && IsSpace(s[i]) then SkipSpace(s, i + 1) else i
  }

  function DigitOf(c: char): int {
    if IsDigit(c) then DigitValue(c)
    else if 'a' <= c <= 'f' then c as int - 'a' as int + 10
    else if 'A' <= c <= 'F' then c as int - 'A' as int + 10
    else -1
  }

  predicate InBase(c: char, base: nat) {
    0 <= DigitOf(c) < base
  }

  /** Where the longest run of digits from i ends. */
  function RunEnd(s: string, i: nat, base: nat): (j: nat)
    ensures i <= j
    ensures i <= |s| ==> j <= |s|
    ensures forall k :: i <= k < j ==> k < |s| && InBase(s[k], base)
    decreases |s| - i
  {
    if i < |s| && InBase(s[i], base) then RunEnd(s, i + 1, base) else i
  }

  function Mul(a: nat, b: nat): nat {
    a * b
  }

  function Magnitude(s: string, base: nat): nat
    requires forall k :: 0 <= k < |s| ==> InBase(s[k], base)
  {
    if s == [] then 0 else
    assert InBase(s[|s| - 1], base);
    Mul(base, Magnitude(s[..|s| - 1], base)) + DigitOf(s[|s| - 1])
  }

  /** The first position of c, or the length. */
  function IndexOf(s: string, c: char): (d: nat)
    ensures d <= |s| && c !in s[..d]
    ensures d < |s| ==> s[d] == c
  {
    if s == "" || s[0] == c then 0 else 1 + IndexOf(s[1..], c)
  }

  lemma {:induction false} IndexOfIs(s: string, c: char, d: nat)
    requires d <= |s| && c !in s[..d] && (d < |s| ==> s[d] == c)
    ensures IndexOf(s, c) == d
  {
    if d > 0 {
      assert s[0] == s[..d][0] && s[..d][1..] == s[1..][..d - 1];
      IndexOfIs(s[1..], c, d - 1);
    }
  }

  lemma {:induction false} RunOverPrefix(a: string, b: string, i: nat, base: nat)
    requires i <= |a|
    requires forall k :: 0 <= k < |a| ==> InBase(a[k], base)
    requires b == "" || !InBase(b[0], base)
    ensures RunEnd(a + b, i, base) == |a|
    decreases |a| - i
  {
    if i < |a| {
      RunOverPrefix(a, b, i + 1, base);
    }
  }

  lemma {:induction false} DecimalMagnitude(s: string)
    requires AllDigits(s)
    ensures forall k :: 0 <= k < |s| ==> InBase(s[k], 10)
    ensures Magnitude(s, 10) == Value(s)
  {
    if s != [] {
      DecimalMagnitude(s[..|s| - 1]);
    }
  }

  /** What isspace accepts in the C locale. */
  const WHITE := " \t\n\U{0B}\U{0C}\r"

  ghost predicate AllWhite(sp: string) {
    forall k :: 0 <= k < |sp| ==> sp[k] in WHITE
  }

  lemma SpaceIsWhite(c: char)
    ensures IsSpace(c) <==> c in WHITE
  {
  }

  lemma {:induction false} SpacesSkipped(sp: string, s: string, i: nat)
    requires i <= |sp| && (forall k :: 0 <= k < |sp| ==> IsSpace(sp[k]))
    requires s == "" || !IsSpace(s[0])
    ensures SkipSpace(sp + s, i) == |sp|
    decreases |sp| - i
  {
    if i < |sp| {
      SpacesSkipped(sp, s, i + 1);
    }
  }

  lemma {:induction false} RunShift(a: string, s: string, i: nat, base: nat)
    requires i <= |s|
    ensures RunEnd(a + s, |a| + i, base) == |a| + RunEnd(s, i, base)
    decreases |s| - i
  {
    if i < |s| {
      assert (a + s)[|a| + i] == s[i];
      RunShift(a, s, i + 1, base);
    }
  }

  lemma WhiteSkipped(sp: string, s: string)
    requires AllWhite(sp) && (s == "" || s[0] !in WHITE)
    ensures SkipSpace(sp + s, 0) == |sp|
  {
    hide IsSpace;
    forall k | 0 <= k < |sp|
      ensures IsSpace(sp[k])
    {
      SpaceIsWhite(sp[k]);
    }
    if s != "" {
      SpaceIsWhite(s[0]);
    }
    SpacesSkipped(sp, s, 0);
  }

  ghost predicate AllInBase(s: string, base: nat) {
    forall k :: 0 <= k < |s| ==> InBase(s[k], base)
  }

  lemma MagnitudeAppend(s: string, c: char, base: nat)
    requires AllInBase(s, base) && InBase(c, base)
    ensures AllInBase(s + [c], base) && Magnitude(s + [c], base) == Mul(base, Magnitude(s, base)) + DigitOf(c)
  {
    assert (s + [c])[..|s|] == s;
  }

  lemma OctDigitOf(d: nat)
    requires d < 8
    ensures DigitOf(OctDigit(d)) == d
  {
  }

  lemma {:induction false} OctMagnitude(n: nat)
    ensures AllInBase(OctDigits(n), 8) && Magnitude(OctDigits(n), 8) == n
  {
    hide OctDigit, DigitOf, Magnitude;
    var last := OctDigit(n % 8);
    OctDigitOf(n % 8);
    if n < 8 {
      MagnitudeNothing(8);
      MagnitudeAppend("", last, 8);
      assert OctDigits(n) == "" + [last];
    } else {
      OctMagnitude(n / 8);
      MagnitudeAppend(OctDigits(n / 8), last, 8);
    }
  }

  lemma HexDigitOf(d: nat, upper: bool)
    requires d < 16
    ensures DigitOf(HexDigit(d, upper)) == d
  {
  }

  lemma {:induction false} HexMagnitude(n: nat, upper: seq<bool>)
    ensures AllInBase(HexDigits(n, upper), 16) && Magnitude(HexDigits(n, upper), 16) == n
    decreases n
  {
    hide HexDigit, DigitOf, Magnitude;
    var d, up := n % 16, upper != [] && upper[0];
    var last := HexDigit(d, up);
    HexDigitOf(d, up);
    if n < 16 {
      MagnitudeNothing(16);
      MagnitudeAppend("", last, 16);
      assert HexDigits(n, upper) == "" + [last];
    } else {
      var rest := if upper == [] then [] else upper[1..];
      HexMagnitude(n / 16, rest);
      MagnitudeAppend(HexDigits(n / 16, rest), last, 16);
    }
  }

  lemma MagnitudeNothing(base: nat)
    ensures Magnitude("", base) == 0
  {
  }

  /** Leading zeros add nothing. */
  lemma {:induction false} ZerosMagnitude(k: nat, s: string, base: nat)
    requires AllInBase(s, base) && base > 0
    ensures AllInBase(Zeros(k) + s, base) && Magnitude(Zeros(k) + s, base) == Magnitude(s, base)
    decreases k + |s|
  {
    if s == "" {
      assert Zeros(k) + s == Zeros(k);
      ZerosAlone(k, base);
    } else {
      var init, c := s[..|s| - 1], s[|s| - 1];
      assert s == init + [c] && Zeros(k) + s == (Zeros(k) + init) + [c];
      ZerosMagnitude(k, init, base);
      MagnitudeAppend(Zeros(k) + init, c, base);
      MagnitudeAppend(init, c, base);
    }
  }

  lemma {:induction false} ZerosAlone(k: nat, base: nat)
    requires base > 0
    ensures AllInBase(Zeros(k), base) && Magnitude(Zeros(k), base) == 0
  {
    if k > 0 {
      ZerosAlone(k - 1, base);
      ZerosEnd(k - 1);
      MagnitudeAppend(Zeros(k - 1), '0', base);
    }
  }

  lemma {:induction false} ZerosEnd(k: nat)
    ensures Zeros(k + 1) == Zeros(k) + "0"
  {
    if k > 0 {
      ZerosEnd(k - 1);
    }
  }

  lemma {:induction false} MonotoneMul(x: nat, y: nat, b: nat)
    requires x <= y
    ensures x * b <= y * b
  {
  }
}
