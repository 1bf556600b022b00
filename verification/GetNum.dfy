/** `get_num`: products of numbers with unit suffixes, on wrapping 64-bit words with a
    divide-back test for overflow. */
module GetNum {
  import opened Word64
  import opened Decimal
  import opened Lexing

  // ---------------------------------------------------------------- strtouq(s, &end, 0)

  /** A numeral at the start of a string: its exact magnitude, its sign, and where it
      ends; `end == 0` means that there is none. */
  datatype Numeral = Numeral(magnitude: nat, negative: bool, end: nat)

  /** Longest match of digits from j, with their value: 0x needs a hex digit behind it,
      else a leading 0 means octal (section 7.22.1.4 of ISO/IEC 9899:2011). */
  function DigitsAt(s: string, j: nat): (r: (nat, nat))
    requires j <= |s|
    ensures j <= r.1 <= |s|
  {
    var hex := At(s, j) == '0' && (At(s, j + 1) == 'x' || At(s, j + 1) == 'X') && InBase(At(s, j + 2), 16);
    var start := if hex then j + 2 else j;
    var base := if hex then 16 else if At(s, j) == '0' then 8 else 10;
    var end := RunEnd(s, start, base);
    assert forall k :: 0 <= k < end - start ==> s[start..end][k] == s[start + k];
    (Magnitude(s[start..end], base), end)
  }

  /** Optional space, an optional sign, digits. */
  function Scan(s: string): (n: Numeral)
    ensures n.end <= |s|
  {
    var i := SkipSpace(s, 0);
    var j := if At(s, i) == '-' || At(s, i) == '+' then i + 1 else i;
    var (m, end) := DigitsAt(s, j);
    if end == j then Numeral(0, false, 0) else Numeral(m, At(s, i) == '-', end)
  }

  /** The value strtouq gives a numeral in range; a minus sign negates modulo 2^64. */
  function Denoted(n: Numeral): nat {
    if n.negative && n.magnitude < TWO64 then Wrap(0 - n.magnitude as int) else n.magnitude
  }

  function Multiplier(c: char): (m: Word)
    ensures m < 0x8000_0000
  {
    if c == 'B' || c == 'b' then 512
    else if c == 'K' || c == 'k' then 1024
    else if c == 'M' || c == 'm' then 1048576
    else if c == 'G' || c == 'g' then 1073741824
    else if c == 'W' || c == 'w' then 4
    else 0
  }

  predicate IsJoiner(c: char) {
    c == '*' || c == 'X' || c == 'x'
  }

  // ---------------------------------------------------------------- the exact meaning

  /** All failures end the process; `DivideByZero` is the arithmetic trap of the
      divide-back test on a zero right-hand factor. */
  datatype Outcome = Number(v: Word) | NumeralRange | Illegal | ProductRange | DivideByZero

  /** One numeral with its suffix: the factor, exactly, and where the text goes on. */
  function FactorAt(s: string): (nat, nat) {
    var n := Scan(s);
    var m := Multiplier(At(s, n.end));
    if m != 0 then (Mul(Denoted(n), m), n.end + 1) else (Denoted(n), n.end)
  }

  /** The result in unbounded arithmetic. */
  function Eval(s: string): Outcome
    decreases |s|
  {
    var n := Scan(s);
    var (f, e) := FactorAt(s);
    if n.magnitude >= TWO64 then NumeralRange
    else if n.end == 0 then Illegal
    else if f >= TWO64 then ProductRange
    else if At(s, e) == '\0' then Number(f)
    else if !IsJoiner(At(s, e)) then Illegal
    else Times(f, Eval(s[e + 1..]))
  }

  function Times(f: Word, right: Outcome): Outcome {
    if !right.Number? then right
    else if right.v == 0 then DivideByZero
    else if Mul(f, right.v) >= TWO64 then ProductRange
    else Number(Mul(f, right.v))
  }

  // ---------------------------------------------------------------- the overflow test

  /** The divide-back test is a correct overflow detector for every nonzero divisor. */
  lemma DivideBack(a: Word, b: Word)
    requires b > 0
    ensures Wrap(a * b) / b == a <==> a * b < TWO64
  {
    var w := Wrap(a * b);
    var k := WrapQuotient(a * b);
    if a * b < TWO64 {
      WrapWord(a * b);
      ExactQuotient(a, b);
    } else {
      assert k >= 1;
      assert w < a * b - b;
      assert a * b - b == (a - 1) * b;
      QuotientBelow(w, a, b);
    }
  }

  lemma ExactQuotient(a: nat, b: nat)
    requires b > 0
    ensures (a * b) / b == a
  {
    var q := (a * b) / b;
    assert a * b == q * b + (a * b) % b;
    if q < a {
      MonotoneMul(q + 1, a, b);
    } else if q > a {
      MonotoneMul(a + 1, q, b);
    }
  }

  lemma QuotientBelow(w: nat, a: nat, b: nat)
    requires b > 0 && a > 0 && w < (a - 1) * b
    ensures w / b < a
  {
    var q := w / b;
    assert w == q * b + w % b;
    if q >= a {
      MonotoneMul(a - 1, q, b);
    }
  }

  // ---------------------------------------------------------------- the procedure

  method Strtouq(s: string) returns (num: Word, end: nat, errno: bool)
    ensures var n := Scan(s);
            && end == n.end && errno == (n.magnitude >= TWO64)
            && (!errno ==> num == Denoted(n))
  {
    var n := Scan(s);
    end := n.end;
    errno := n.magnitude >= TWO64;
    num := if errno then TWO64 - 1 else Denoted(n);
  }

  /** The three statements the source applies to a unit and to a right-hand factor:
      remember, multiply with wrap-around, divide back and compare. */
  method MultiplyBy(num: Word, mult: Word) returns (product: Word, fits: bool)
    requires mult > 0
    ensures fits == (Mul(num, mult) < TWO64)
    ensures fits ==> product == Mul(num, mult)
  {
    var prevnum := num;
    product := Wrap(num as int * mult as int);
    DivideBack(num, mult);
    fits := product / mult == prevnum;
    if fits {
      WrapWord(num as int * mult as int);
    }
  }

  /** The procedure, on wrapping words, computes the exact meaning. */
  method GetNum(val: string) returns (r: Outcome)
    ensures r == Eval(val)
    decreases |val|
  {
    hide Scan, Wrap, Mul, Multiplier;
    var num, expr, errno := Strtouq(val);
    if errno {
      return NumeralRange;
    }
    if expr == 0 {
      return Illegal;
    }
    var mult := Multiplier(At(val, expr));
    if mult != 0 {
      var fits;
      num, fits := MultiplyBy(num, mult);
      if !fits {
        return ProductRange;
      }
      expr := expr + 1;
    }
    if At(val, expr) == '\0' {
      return Number(num);
    }
    if !IsJoiner(At(val, expr)) {
      return Illegal;
    }
    var right := GetNum(val[expr + 1..]);
    if !right.Number? {
      return right;
    }
    if right.v == 0 {
      return DivideByZero;
    }
    var fits;
    num, fits := MultiplyBy(num, right.v);
    if !fits {
      return ProductRange;
    }
    return Number(num);
  }

  // ---------------------------------------------------------------- printed products

  function Pow2(k: nat): nat {
    if k == 0 then 1 else 2 * Pow2(k - 1)
  }

  /** The units of the header comment, with their letters. */
  datatype Unit = One | Block | Kilo | Mega | Giga | IntSize {
    function Size(): nat {
      match this
      case One => 1
      case Block => 512
      case Kilo => Pow2(10)
      case Mega => Pow2(20)
      case Giga => Pow2(30)
      case IntSize => 4
    }

    function Letters(): string {
      match this
      case One => ""
      case Block => "bB"
      case Kilo => "kK"
      case Mega => "mM"
      case Giga => "gG"
      case IntSize => "wW"
    }
  }

  /** How a number is written: in decimal; with a zero in front, and `zeros` more, in octal;
      or with a prefix 0x or 0X, `zeros` zeros and letters of either case in hexadecimal. */
  datatype Style = InDecimal | InOctal(zeros: nat) | InHex(prefix: string, zeros: nat, upper: seq<bool>) {
    ghost predicate Valid() {
      InHex? ==> prefix == "0x" || prefix == "0X"
    }

    function Base(): nat {
      match this
      case InDecimal => 10
      case InOctal(_) => 8
      case InHex(_, _, _) => 16
    }

    function Text(n: nat): string {
      match this
      case InDecimal => Digits(n)
      case InOctal(zeros) => Zeros(zeros + 1) + OctDigits(n)
      case InHex(prefix, zeros, upper) => prefix + (Zeros(zeros) + HexDigits(n, upper))
    }
  }

  /** A positive number with an optional unit, written with one of its letters. The letters
      of the 512-byte block are hexadecimal digits, and cannot follow a hexadecimal number. */
  datatype Factor = Factor(n: nat, style: Style, unit: Unit, suffix: string) {
    ghost predicate Valid() {
      && n > 0 && style.Valid() && (style.InHex? ==> unit != Block)
      && if unit == One then suffix == "" else |suffix| == 1 && suffix[0] in unit.Letters()
    }

    function Amount(): nat {
      Mul(n, unit.Size())
    }

    function Text(): string {
      style.Text(n) + suffix
    }
  }

  lemma SuffixMeansUnit(f: Factor)
    requires f.Valid()
    ensures f.unit.Size() > 0
    ensures f.unit == One ==> f.Amount() == f.n && f.unit.Size() == 1
    ensures f.unit != One ==> Multiplier(f.suffix[0]) == f.unit.Size() && !InBase(f.suffix[0], f.style.Base())
  {
    hide Pow2;
    PowersOfUnits();
    if f.unit == One {
      assert Mul(f.n, 1) == f.n;
    }
  }

  lemma PowersOfUnits()
    ensures Pow2(10) == 1024 && Pow2(20) == 1048576 && Pow2(30) == 1073741824
  {
    assert Pow2(20) == 1024 * Pow2(10);
    assert Pow2(30) == 1024 * Pow2(20);
  }

  ghost predicate ValidProduct(fs: seq<Factor>, joiners: string) {
    && fs != [] && |joiners| == |fs| - 1
    && (forall i :: 0 <= i < |fs| ==> fs[i].Valid())
    && (forall i :: 0 <= i < |joiners| ==> joiners[i] in "xX*")
  }

  function Print(fs: seq<Factor>, joiners: string): string
    requires fs != [] && |joiners| == |fs| - 1
    decreases fs
  {
    if |fs| == 1 then fs[0].Text()
    else fs[0].Text() + ([joiners[0]] + Print(fs[1..], joiners[1..]))
  }

  function Product(ns: seq<nat>): nat {
    if ns == [] then 1 else Mul(ns[0], Product(ns[1..]))
  }

  function Amounts(fs: seq<Factor>): (ns: seq<nat>)
    ensures |ns| == |fs|
  {
    if fs == [] then [] else [fs[0].Amount()] + Amounts(fs[1..])
  }

  lemma MulCovers(a: nat, b: nat)
    ensures b > 0 ==> Mul(a, b) >= a
    ensures a > 0 ==> Mul(a, b) >= b
  {
    if b > 0 {
      MonotoneMul(1, b, a);
    }
    if a > 0 {
      MonotoneMul(1, a, b);
    }
  }

  /** A number is read back, in whatever base it is written and whatever follows its digits. */
  lemma ScanNumeral(style: Style, n: nat, rest: string)
    requires style.Valid() && (style.InDecimal? ==> n > 0)
    requires rest == "" || !InBase(rest[0], style.Base())
    ensures Scan(style.Text(n) + rest) == Numeral(n, false, |style.Text(n)|)
  {
    match style
    case InDecimal => ScanDecimal(n, rest);
    case InOctal(zeros) => ScanOctal(zeros, n, rest);
    case InHex(prefix, zeros, upper) => ScanHexadecimal(prefix, zeros, upper, n, rest);
  }

  lemma ScanFromDigit(s: string)
    requires s != "" && IsDigit(s[0])
    ensures DigitsAt(s, 0).1 > 0 && Scan(s) == Numeral(DigitsAt(s, 0).0, false, DigitsAt(s, 0).1)
  {
    SomeDigits(s);
    hide DigitsAt;
  }

  lemma ScanDecimal(n: nat, rest: string)
    requires n > 0 && (rest == "" || !InBase(rest[0], 10))
    ensures Scan(Digits(n) + rest) == Numeral(n, false, |Digits(n)|)
  {
    var ds := Digits(n);
    var s := ds + rest;
    DecimalMagnitude(ds);
    ValueOfDigits(n);
    hide Magnitude, Digits, Scan;
    assert s[0] == ds[0];
    RunOverPrefix(ds, rest, 0, 10);
    assert s[0..|ds|] == ds;
    ScanFromDigit(s);
  }

  lemma ScanOctal(zeros: nat, n: nat, rest: string)
    requires rest == "" || !InBase(rest[0], 8)
    ensures Scan(Zeros(zeros + 1) + OctDigits(n) + rest) ==
            Numeral(n, false, |Zeros(zeros + 1) + OctDigits(n)|)
  {
    OctMagnitude(n);
    ZerosMagnitude(zeros + 1, OctDigits(n), 8);
    FirstZero(zeros);
    hide OctDigits, Zeros;
    ScanOctalDigits(Zeros(zeros + 1) + OctDigits(n), rest);
  }

  lemma ScanOctalDigits(ds: string, rest: string)
    requires AllInBase(ds, 8) && |ds| > 1 && ds[0] == '0'
    requires rest == "" || !InBase(rest[0], 8)
    ensures Scan(ds + rest) == Numeral(Magnitude(ds, 8), false, |ds|)
  {
    var s := ds + rest;
    assert s[0] == '0' && s[1] == ds[1] && InBase(ds[1], 8);
    hide Magnitude, Scan, RunEnd;
    RunOverPrefix(ds, rest, 0, 8);
    assert s[0..|ds|] == ds;
    ScanFromDigit(s);
  }

  lemma FirstZero(zeros: nat)
    ensures Zeros(zeros + 1)[0] == '0'
  {
  }

  lemma ScanHexadecimal(prefix: string, zeros: nat, upper: seq<bool>, n: nat, rest: string)
    requires (prefix == "0x" || prefix == "0X") && (rest == "" || !InBase(rest[0], 16))
    ensures Scan(prefix + (Zeros(zeros) + HexDigits(n, upper)) + rest) ==
            Numeral(n, false, |prefix + (Zeros(zeros) + HexDigits(n, upper))|)
  {
    HexMagnitude(n, upper);
    ZerosMagnitude(zeros, HexDigits(n, upper), 16);
    hide HexDigits, Zeros;
    ScanHexDigits(prefix, Zeros(zeros) + HexDigits(n, upper), rest);
  }

  lemma HexDigitsAt(s: string)
    requires |s| > 2 && s[0] == '0' && (s[1] == 'x' || s[1] == 'X') && InBase(s[2], 16)
    ensures var end := RunEnd(s, 2, 16);
            AllInBase(s[2..end], 16) && DigitsAt(s, 0) == (Magnitude(s[2..end], 16), end)
  {
    hide Magnitude, RunEnd, InBase;
  }

  lemma ScanHexDigits(prefix: string, ds: string, rest: string)
    requires (prefix == "0x" || prefix == "0X") && AllInBase(ds, 16) && ds != ""
    requires rest == "" || !InBase(rest[0], 16)
    ensures Scan(prefix + ds + rest) == Numeral(Magnitude(ds, 16), false, |prefix + ds|)
  {
    hide Magnitude, Scan, RunEnd, InBase, DigitsAt;
    var s := prefix + ds + rest;
    assert s == prefix + (ds + rest);
    assert s[0] == '0' && (s[1] == 'x' || s[1] == 'X') && s[2] == ds[0] && InBase(ds[0], 16);
    RunOverPrefix(ds, rest, 0, 16);
    RunShift(prefix, ds + rest, 0, 16);
    assert s[2..2 + |ds|] == ds;
    HexDigitsAt(s);
    ScanFromDigit(s);
  }

  lemma ScanAlone(style: Style, n: nat)
    requires style.Valid()
    ensures Scan(style.Text(n)) == Numeral(n, false, |style.Text(n)|)
  {
    hide Scan;
    assert style.Text(n) + "" == style.Text(n);
    if style.InDecimal? && n == 0 {
      ScanZero();
    } else {
      ScanNumeral(style, n, "");
    }
  }

  /** Every way of writing a number evaluates to it, zero included. */
  lemma NumeralExact(style: Style, n: nat)
    requires style.Valid()
    ensures Eval(style.Text(n)) == if n < TWO64 then Number(n) else NumeralRange
  {
    hide Scan, Style.Text;
    SomeText(style, n);
    ScanAlone(style, n);
    EvalLast(style.Text(n));
  }

  lemma ScanZero()
    ensures Scan(Digits(0)) == Numeral(0, false, 1)
  {
    var s := Digits(0);
    assert s == ['0'];
    assert s[0..1] == Zeros(0) + s;
    ZerosAlone(1, 8);
    ZerosEnd(0);
  }

  lemma MultiplierOfLetters(c: char)
    ensures Multiplier(c) != 0 <==> c in "bBkKmMgGwW"
    ensures IsJoiner(c) <==> c in "xX*"
    ensures IsJoiner(c) ==> Multiplier(c) == 0 && !InBase(c, 16)
  {
  }

  /** Text that is no part of the factor in front of it. */
  ghost predicate Apart(f: Factor, rest: string) {
    rest == "" || f.unit != One || (!InBase(rest[0], f.style.Base()) && rest[0] !in "bBkKmMgGwW")
  }

  /** A printed factor is read back whole, whatever follows it. */
  lemma FactorReadBack(f: Factor, rest: string)
    requires f.Valid() && Apart(f, rest)
    ensures var s := f.Text() + rest;
            && Scan(s).magnitude == f.n && Scan(s).end > 0
            && FactorAt(s) == (f.Amount(), |f.Text()|)
            && At(s, |f.Text()|) == At(rest, 0)
  {
    hide Scan, Style.Text, Unit.Size, Multiplier, InBase;
    SuffixMeansUnit(f);
    MultiplierOfLetters(At(rest, 0));
    var s, tail := f.Text() + rest, f.suffix + rest;
    var ds := f.style.Text(f.n);
    assert s == ds + tail;
    SomeText(f.style, f.n);
    ScanNumeral(f.style, f.n, tail);
    assert At(s, |ds|) == At(tail, 0);
  }

  lemma SomeText(style: Style, n: nat)
    ensures style.Text(n) != ""
  {
  }

  lemma {:induction false} ProductPositive(ns: seq<nat>)
    requires forall i :: 0 <= i < |ns| ==> ns[i] > 0
    ensures Product(ns) > 0
  {
    if ns != [] {
      ProductPositive(ns[1..]);
      MonotoneMul(1, ns[0], Product(ns[1..]));
    }
  }

  lemma {:induction false} AmountsPositive(fs: seq<Factor>)
    requires forall i :: 0 <= i < |fs| ==> fs[i].Valid()
    ensures forall i :: 0 <= i < |fs| ==> Amounts(fs)[i] > 0
  {
    if fs != [] {
      AmountsPositive(fs[1..]);
      AmountCoversNumber(fs[0]);
    }
  }

  lemma AmountCoversNumber(f: Factor)
    requires f.Valid()
    ensures f.Amount() >= f.n
  {
    SuffixMeansUnit(f);
    MulCovers(f.n, f.unit.Size());
  }

  /** The i-th number is the first factor out of range, and already its numeral is. */
  ghost predicate NumeralOver(fs: seq<Factor>, i: nat) {
    i < |fs| && fs[i].n >= TWO64 && forall j :: 0 <= j < i ==> fs[j].Amount() < TWO64
  }

  /** `get_num` is exact: the printed product of positive factors evaluates to the true
      product if that fits in 64 bits, and fails for range otherwise, although it is
      computed from right to left with wrap-around; and the message tells whether the
      first number out of range was so without its unit. */
  lemma {:induction false} PrintedProductExact(fs: seq<Factor>, joiners: string)
    requires ValidProduct(fs, joiners)
    ensures var p, r := Product(Amounts(fs)), Eval(Print(fs, joiners));
            && (p < TWO64 ==> r == Number(p))
            && (p >= TWO64 ==> r == if exists i: nat :: NumeralOver(fs, i) then NumeralRange else ProductRange)
    decreases fs
  {
    hide Scan, FactorAt, Print, Product, Amounts, Factor.Text, Factor.Amount, Eval, Mul, NumeralOver;
    var f, s, p := fs[0], Print(fs, joiners), Product(Amounts(fs[1..]));
    FirstAmount(fs);
    FirstText(fs, joiners, "");
    assert s + "" == s;
    MulCovers(f.Amount(), p);
    OverStep(fs);
    if |fs| == 1 {
      NothingOver(fs[1..]);
      EvalLast(s);
    } else {
      assert Print(fs[1..], joiners[1..]) + "" == Print(fs[1..], joiners[1..]);
      PrintedProductExact(fs[1..], joiners[1..]);
      OverIsOver(fs[1..]);
      EvalJoined(s);
    }
  }

  lemma NothingOver(fs: seq<Factor>)
    requires fs == []
    ensures !exists i: nat :: NumeralOver(fs, i)
  {
  }

  lemma OverStep(fs: seq<Factor>)
    requires fs != []
    ensures (exists i: nat :: NumeralOver(fs, i)) <==>
            fs[0].n >= TWO64 || (fs[0].Amount() < TWO64 && exists i: nat :: NumeralOver(fs[1..], i))
  {
    hide Factor.Amount;
    if fs[0].n >= TWO64 {
      assert NumeralOver(fs, 0);
    }
    if i: nat :| NumeralOver(fs, i) && i > 0 {
      assert forall j :: 0 <= j < i - 1 ==> fs[1..][j] == fs[j + 1];
      assert NumeralOver(fs[1..], i - 1);
    }
    if fs[0].Amount() < TWO64 {
      if i: nat :| NumeralOver(fs[1..], i) {
        assert forall j :: 1 <= j < i + 1 ==> fs[j] == fs[1..][j - 1];
        assert NumeralOver(fs, i + 1);
      }
    }
  }

  /** A number out of range puts the product out of range. */
  lemma {:induction false} OverIsOver(fs: seq<Factor>)
    requires forall i :: 0 <= i < |fs| ==> fs[i].Valid()
    ensures (exists i: nat :: NumeralOver(fs, i)) ==> Product(Amounts(fs)) >= TWO64
    decreases fs
  {
    hide Factor.Amount, Mul, Product, Amounts, NumeralOver;
    if fs == [] {
      NothingOver(fs);
    } else {
      OverStep(fs);
      OverIsOver(fs[1..]);
      FirstAmount(fs);
      MulCovers(fs[0].Amount(), Product(Amounts(fs[1..])));
    }
  }

  /** Anything but a joiner behind a product of numbers in range makes it illegal: a letter
      that is no unit, a second unit, space, a digit of a larger base. */
  lemma {:induction false} TrailingTextIsIllegal(fs: seq<Factor>, joiners: string, tail: string)
    requires ValidProduct(fs, joiners) && (forall i :: 0 <= i < |fs| ==> fs[i].Amount() < TWO64)
    requires tail != "" && tail[0] !in "xX*\0" && Apart(fs[|fs| - 1], tail)
    ensures Eval(Print(fs, joiners) + tail) == Illegal
    decreases fs
  {
    hide Scan, FactorAt, Print, Factor.Text, Factor.Amount, Mul;
    var s := Print(fs, joiners) + tail;
    FirstText(fs, joiners, tail);
    AmountCoversNumber(fs[0]);
    MultiplierOfLetters(tail[0]);
    if |fs| > 1 {
      TrailingTextIsIllegal(fs[1..], joiners[1..], tail);
    }
  }

  /** The first factor of a printed product and the product behind it ... */
  lemma FirstAmount(fs: seq<Factor>)
    requires fs != [] && forall i :: 0 <= i < |fs| ==> fs[i].Valid()
    ensures var f, p := fs[0], Product(Amounts(fs[1..]));
            && f.Amount() >= f.n && p > 0 && Product(Amounts(fs)) == Mul(f.Amount(), p)
            && (|fs| == 1 ==> Mul(f.Amount(), p) == f.Amount())
  {
    hide Factor.Amount, Factor.Valid, Mul;
    AmountCoversNumber(fs[0]);
    AmountsPositive(fs[1..]);
    ProductPositive(Amounts(fs[1..]));
    assert Amounts(fs)[1..] == Amounts(fs[1..]);
    if |fs| == 1 {
      TimesOne(fs[0].Amount());
    }
  }

  lemma TimesOne(n: nat)
    ensures Mul(n, 1) == n
  {
  }

  /** ... and its text, with `tail` behind the product. */
  lemma FirstText(fs: seq<Factor>, joiners: string, tail: string)
    requires ValidProduct(fs, joiners) && Apart(fs[|fs| - 1], tail)
    ensures var f, s := fs[0], Print(fs, joiners) + tail;
            && Scan(s).magnitude == f.n && Scan(s).end > 0
            && FactorAt(s).0 == f.Amount()
            && (|fs| == 1 ==> At(s, FactorAt(s).1) == At(tail, 0))
            && (|fs| > 1 ==> && IsJoiner(At(s, FactorAt(s).1)) && FactorAt(s).1 + 1 <= |s|
                             && ValidProduct(fs[1..], joiners[1..])
                             && s[FactorAt(s).1 + 1..] == Print(fs[1..], joiners[1..]) + tail)
  {
    hide Scan, FactorAt, Factor.Text, Factor.Amount, Factor.Valid, InBase, Print, Apart;
    var f, s := fs[0], Print(fs, joiners) + tail;
    PrintFirst(fs, joiners, tail);
    if |fs| == 1 {
      FactorReadBack(f, tail);
    } else {
      var later := Print(fs[1..], joiners[1..]) + tail;
      var rest := [joiners[0]] + later;
      JoinerApart(f, rest);
      FactorReadBack(f, rest);
      assert s[|f.Text()| + 1..] == rest[1..] == later;
    }
  }

  lemma PrintFirst(fs: seq<Factor>, joiners: string, tail: string)
    requires fs != [] && |joiners| == |fs| - 1
    ensures Print(fs, joiners) + tail ==
            fs[0].Text() + (if |fs| == 1 then tail else [joiners[0]] + (Print(fs[1..], joiners[1..]) + tail))
  {
    hide Factor.Text;
  }

  lemma JoinerApart(f: Factor, rest: string)
    requires rest != "" && rest[0] in "xX*"
    ensures Apart(f, rest) && IsJoiner(rest[0])
  {
  }

  lemma EvalLast(s: string)
    requires Scan(s).end > 0 && At(s, FactorAt(s).1) == '\0'
    ensures Eval(s) == if Scan(s).magnitude >= TWO64 then NumeralRange
                       else if FactorAt(s).0 >= TWO64 then ProductRange
                       else Number(FactorAt(s).0)
  {
  }

  lemma EvalJoined(s: string)
    requires Scan(s).end > 0 && IsJoiner(At(s, FactorAt(s).1))
    ensures Eval(s) == if Scan(s).magnitude >= TWO64 then NumeralRange
                       else if FactorAt(s).0 >= TWO64 then ProductRange
                       else Times(FactorAt(s).0, Eval(s[FactorAt(s).1 + 1..]))
  {
  }

  /** A factor in front of any text whatever: what is wrong with the factor comes first,
      then what is wrong with the text, then a zero there, then the size of the product. */
  lemma FactorInFront(f: Factor, joiner: char, rest: string)
    requires f.Valid() && joiner in "xX*"
    ensures var r, right := Eval(f.Text() + ([joiner] + rest)), Eval(rest);
            r == if f.n >= TWO64 then NumeralRange
                 else if f.Amount() >= TWO64 then ProductRange
                 else if !right.Number? then right
                 else if right.v == 0 then DivideByZero
                 else if Mul(f.Amount(), right.v) < TWO64 then Number(Mul(f.Amount(), right.v))
                 else ProductRange
  {
    hide Scan, FactorAt, Factor.Text, Factor.Amount, Factor.Valid, Apart, InBase, Mul, Eval;
    var behind := [joiner] + rest;
    var s := f.Text() + behind;
    JoinerApart(f, behind);
    FactorReadBack(f, behind);
    assert s[|f.Text()| + 1..] == behind[1..] == rest;
    EvalJoined(s);
  }

  // ---------------------------------------------------------------- every string

  datatype Parsed = NoParse | Factors(fs: seq<nat>)

  /** The factors a string denotes, in unbounded arithmetic, if it has the right form. */
  function Parse(s: string): (p: Parsed)
    ensures p.Factors? ==> p.fs != []
    decreases |s|
  {
    var (f, e) := FactorAt(s);
    if Scan(s).end == 0 then NoParse
    else if At(s, e) == '\0' then Factors([f])
    else if !IsJoiner(At(s, e)) then NoParse
    else match Parse(s[e + 1..])
      case NoParse => NoParse
      case Factors(fs) => Factors([f] + fs)
  }

  ghost predicate Positive(ns: seq<nat>) {
    forall i :: 0 <= i < |ns| ==> ns[i] > 0
  }

  /** The condition under which evaluation succeeds, on the factors alone. */
  ghost predicate Fits(fs: seq<nat>)
    requires fs != []
  {
    Positive(fs[1..]) && Product(fs[1..]) < TWO64 && Product(fs) < TWO64
  }

  lemma FactorCoversMagnitude(s: string)
    ensures Scan(s).magnitude >= TWO64 ==> FactorAt(s).0 >= TWO64
    ensures Scan(s).magnitude >= TWO64 ==> Scan(s).end > 0
  {
    var n := Scan(s);
    var m := Multiplier(At(s, n.end));
    if n.magnitude >= TWO64 && m != 0 {
      MonotoneMul(1, m, n.magnitude);
    }
  }

  lemma FitsOne(f: nat)
    ensures Product([f]) == f && (Fits([f]) <==> f < TWO64)
  {
    assert [f][1..] == [];
  }

  lemma FitsStep(f: nat, fs: seq<nat>)
    requires fs != []
    ensures Product([f] + fs) == Mul(f, Product(fs))
    ensures Fits(fs) ==> (Product(fs) == 0 <==> fs[0] == 0)
    ensures Fits([f] + fs) <==> f < TWO64 && Fits(fs) && fs[0] > 0 && Mul(f, Product(fs)) < TWO64
  {
    hide Mul;
    if Fits(fs) {
      ProductZeroIff(fs);
    }
    assert ([f] + fs)[1..] == fs;
    assert fs == [fs[0]] + fs[1..];
    assert Positive(fs) <==> fs[0] > 0 && Positive(fs[1..]);
    if Positive(fs) {
      ProductPositive(fs);
      MulCovers(fs[0], Product(fs[1..]));
      MulCovers(f, Product(fs));
    }
  }

  /** For every string whatever: evaluation succeeds if and only if the string has the
      form of a product, no factor but the first is zero, and the product fits (that of
      the right-hand factors too, for a leading zero); and the result is that product. */
  lemma {:induction false} SucceedsIff(s: string)
    ensures Eval(s).Number? <==> Parse(s).Factors? && Fits(Parse(s).fs)
    ensures Eval(s).Number? ==> Eval(s).v == Product(Parse(s).fs)
    decreases |s|
  {
    hide Scan, FactorAt, Product, Fits;
    var (f, e) := FactorAt(s);
    FactorCoversMagnitude(s);
    if Scan(s).end != 0 {
      if At(s, e) == '\0' {
        FitsOne(f);
      } else if IsJoiner(At(s, e)) {
        var right := s[e + 1..];
        SucceedsIff(right);
        if Parse(right).Factors? {
          var fs := Parse(right).fs;
          FitsStep(f, fs);
        }
      }
    }
  }

  lemma ProductZeroIff(fs: seq<nat>)
    requires fs != [] && Positive(fs[1..])
    ensures Product(fs) == 0 <==> fs[0] == 0
  {
    ProductPositive(fs[1..]);
    if fs[0] > 0 {
      MonotoneMul(1, fs[0], Product(fs[1..]));
    }
  }

  /** A zero at position i >= 1 that evaluation reaches: everything to its left is in
      range, and what stands to its right evaluates. */
  ghost predicate TrapAt(fs: seq<nat>, i: nat) {
    && 1 <= i < |fs| && fs[i] == 0
    && (forall j :: 0 <= j < i ==> fs[j] < TWO64)
    && Fits(fs[i..])
  }

  /** The header's demand for positive numbers is real: the division in the overflow test
      traps exactly when a right-hand factor is zero and evaluation gets that far. */
  lemma {:induction false} TrapsIff(s: string)
    ensures Eval(s) == DivideByZero <==> Parse(s).Factors? && exists i: nat :: TrapAt(Parse(s).fs, i)
    decreases |s|
  {
    hide Scan, FactorAt, Product, Fits;
    var (f, e) := FactorAt(s);
    FactorCoversMagnitude(s);
    if Scan(s).end != 0 && At(s, e) != '\0' && IsJoiner(At(s, e)) {
      var right := s[e + 1..];
      TrapsIff(right);
      SucceedsIff(right);
      if Parse(right).Factors? {
        var fs := Parse(right).fs;
        assert Parse(s) == Factors([f] + fs);
        TrapStep(f, fs);
        FitsStep(f, fs);
        hide TrapAt;
      }
    } else if Parse(s).Factors? {
      assert |Parse(s).fs| == 1;
    }
  }

  lemma TrapStep(f: nat, fs: seq<nat>)
    requires fs != []
    ensures (exists i: nat :: TrapAt([f] + fs, i)) <==>
            f < TWO64 && ((fs[0] == 0 && Fits(fs)) || exists i: nat :: TrapAt(fs, i))
  {
    hide Fits;
    if i: nat :| TrapAt([f] + fs, i) {
      TrapInTail(f, fs, i);
    }
    if f < TWO64 && fs[0] == 0 && Fits(fs) {
      assert ([f] + fs)[1..] == fs;
      assert TrapAt([f] + fs, 1);
    }
    if i: nat :| f < TWO64 && TrapAt(fs, i) {
      assert ([f] + fs)[i + 1..] == fs[i..];
      assert TrapAt([f] + fs, i + 1);
    }
  }

  lemma TrapInTail(f: nat, fs: seq<nat>, i: nat)
    requires TrapAt([f] + fs, i)
    ensures f < TWO64
    ensures if i == 1 then fs[0] == 0 && Fits(fs) else TrapAt(fs, i - 1)
  {
    hide Fits;
    var all := [f] + fs;
    assert all[0] == f;
    assert all[i..] == fs[i - 1..];
    if i == 1 {
      assert fs[0..] == fs;
    } else {
      assert forall j :: 0 <= j < i - 1 ==> fs[j] == all[j + 1];
    }
  }

  // ---------------------------------------------------------------- the other numerals strtouq takes

  /** A leading zero means octal, for every string of octal digits behind it. */
  lemma OctalNumeral(o: string)
    requires AllInBase(o, 8)
    ensures AllInBase("0" + o, 8)
    ensures var m := Magnitude("0" + o, 8); Eval("0" + o) == if m < TWO64 then Number(m) else NumeralRange
  {
    hide Magnitude, Scan;
    var s := "0" + o;
    assert s + "" == s;
    if o == "" {
      ScanZero();
      ZerosAlone(1, 8);
      assert s == "0" == Zeros(0) + "0";
      ZerosEnd(0);
    } else {
      ScanOctalDigits(s, "");
    }
    EvalLast(s);
  }

  /** White space and a sign in front of a numeral change nothing but the sign. */
  lemma SpaceAndSign(sp: string, sign: string, s: string)
    requires AllWhite(sp) && (sign == "" || sign == "+" || sign == "-")
    requires s != "" && IsDigit(s[0])
    ensures var n := Scan(s);
            n.end > 0 && Scan(sp + sign + s) == Numeral(n.magnitude, sign == "-", |sp| + |sign| + n.end)
  {
    hide DigitsAt, SkipSpace;
    var a := sp + sign;
    var t := a + s;
    assert t == sp + (sign + s);
    WhiteSkipped(sp, sign + s);
    assert At(t, |sp|) == (sign + s)[0];
    DigitsShift(a, s);
    ScanFromDigit(s);
  }

  lemma FactorShift(a: string, s: string)
    requires !Scan(s).negative && Scan(a + s) == Scan(s).(end := |a| + Scan(s).end)
    ensures FactorAt(a + s) == (FactorAt(s).0, |a| + FactorAt(s).1)
  {
    hide Scan, Mul, Multiplier;
    assert At(a + s, |a| + Scan(s).end) == At(s, Scan(s).end);
  }

  /** White space and a plus in front of any text that starts with a digit change nothing. */
  lemma SpaceInFront(sp: string, sign: string, s: string)
    requires AllWhite(sp) && (sign == "" || sign == "+") && s != "" && IsDigit(s[0])
    ensures Eval(sp + sign + s) == Eval(s)
  {
    hide Scan, FactorAt;
    SpaceAndSign(sp, sign, s);
    ScanFromDigit(s);
    var a, e := sp + sign, FactorAt(s).1;
    var t := a + s;
    FactorShift(a, s);
    assert At(t, |a| + e) == At(s, e);
    if At(s, e) != '\0' {
      assert t[|a| + e + 1..] == s[e + 1..];
    }
  }

  /** Without a digit behind the white space and the sign there is no number. */
  lemma NoDigitIsIllegal(sp: string, sign: string, s: string)
    requires AllWhite(sp) && (sign == "" || sign == "+" || sign == "-")
    requires s == "" || (!IsDigit(s[0]) && (sign == "" ==> s[0] !in WHITE + "+-"))
    ensures Eval(sp + sign + s) == Illegal
  {
    hide SkipSpace, Magnitude;
    var t := sp + sign + s;
    assert t == sp + (sign + s);
    WhiteSkipped(sp, sign + s);
    assert At(t, |sp|) == At(sign + s, 0);
    assert At(t, |sp| + |sign|) == At(s, 0);
  }

  lemma DigitsShift(a: string, s: string)
    requires s != ""
    ensures DigitsAt(a + s, |a|) == (DigitsAt(s, 0).0, |a| + DigitsAt(s, 0).1)
  {
    hide RunEnd, Magnitude, InBase;
    var t := a + s;
    assert At(t, |a|) == At(s, 0) && At(t, |a| + 1) == At(s, 1) && At(t, |a| + 2) == At(s, 2);
    var hex := At(s, 0) == '0' && (At(s, 1) == 'x' || At(s, 1) == 'X') && InBase(At(s, 2), 16);
    var start := if hex then 2 else 0;
    var base := if hex then 16 else if At(s, 0) == '0' then 8 else 10;
    assert start <= |s| by {
      if hex {
        assert At(s, 1) != '\0';
      }
    }
    RunShift(a, s, start, base);
    SliceShift(a, s, start, RunEnd(s, start, base));
  }

  lemma SliceShift(a: string, s: string, i: nat, j: nat)
    requires i <= j <= |s|
    ensures (a + s)[|a| + i..|a| + j] == s[i..j]
  {
  }

  lemma SomeDigits(s: string)
    requires s != "" && IsDigit(s[0])
    ensures DigitsAt(s, 0).1 > 0
  {
  }

  lemma StartsWithDigit(style: Style, n: nat)
    requires style.Valid()
    ensures style.Text(n) != "" && IsDigit(style.Text(n)[0])
  {
  }

  lemma Negated(n: nat)
    ensures n < TWO64 ==> Wrap(0 - n) == if n == 0 then 0 else TWO64 - n
  {
    if n == 0 {
      WrapWord(0);
    } else if n < TWO64 {
      WrapPeriod(0 - n, TWO64 - n, -1);
      WrapWord(TWO64 - n);
    }
  }

  /** A minus sign negates modulo 2^64, and what is out of range stays so. */
  lemma MinusNegates(style: Style, n: nat)
    requires style.Valid()
    ensures Eval("-" + style.Text(n)) ==
            if n == 0 then Number(0) else if n < TWO64 then Number(TWO64 - n) else NumeralRange
  {
    hide Scan, Style.Text, Wrap;
    var t := style.Text(n);
    StartsWithDigit(style, n);
    ScanAlone(style, n);
    assert "" + "-" + t == "-" + t;
    SpaceAndSign("", "-", t);
    Negated(n);
    EvalLast("-" + t);
  }

  /** A unit multiplies the negated number. */
  lemma NegativeFactor(f: Factor)
    requires f.Valid() && f.n < TWO64
    ensures var v := Mul(TWO64 - f.n, f.unit.Size());
            Eval("-" + f.Text()) == if v < TWO64 then Number(v) else ProductRange
  {
    hide Scan, Style.Text, Wrap, Mul, Unit.Size, Multiplier;
    var t := f.Text();
    SuffixMeansUnit(f);
    SomeText(f.style, f.n);
    ScanNumeral(f.style, f.n, f.suffix);
    StartsWithDigit(f.style, f.n);
    assert t[0] == f.style.Text(f.n)[0];
    assert "" + "-" + t == "-" + t;
    SpaceAndSign("", "-", t);
    Negated(f.n);
    MultiplierOfLetters('\0');
    TimesOne(TWO64 - f.n);
    assert At("-" + t, 1 + |f.style.Text(f.n)|) == At(f.suffix, 0);
    assert At("-" + t, |t| + 1) == '\0';
    EvalLast("-" + t);
  }

  /** Longest match: a 0x or 0X prefix with hex digits behind it is one hexadecimal numeral,
      never zero times something. */
  lemma HexIsNotAProduct(prefix: string, h: string)
    requires (prefix == "0x" || prefix == "0X") && h != "" && AllInBase(h, 16)
    ensures var m := Magnitude(h, 16); Eval(prefix + h) == if m < TWO64 then Number(m) else NumeralRange
  {
    hide Magnitude, Scan, Eval;
    assert prefix + h + "" == prefix + h;
    ScanHexDigits(prefix, h, "");
    EvalLast(prefix + h);
  }
}
