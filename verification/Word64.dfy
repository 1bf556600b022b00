/** The machine words of the programs: `unsigned long` and `uintmax_t` are 64 bits
    wide and wrap around, `unsigned` is 32 bits wide, `time_t` is a signed 64-bit word. */
module Word64 {

  const TWO32: int := 0x1_0000_0000
  const TWO63: int := 0x8000_0000_0000_0000
  const TWO64: int := 0x1_0000_0000_0000_0000

  type Word = x: int | 0 <= x < 0x1_0000_0000_0000_0000
  type Word32 = x: int | 0 <= x < 0x1_0000_0000

  /** The low 64 bits of x: add or subtract 2^64 until the value fits. */
  function Wrap(x: int): (w: Word)
    decreases x < 0, if x < 0 then -x else x
  {
    if x < 0 then Wrap(x + 0x1_0000_0000_0000_0000)
    else if x < 0x1_0000_0000_0000_0000 then x
    else Wrap(x - 0x1_0000_0000_0000_0000)
  }

  function Add(a: Word, b: int): Word {
    Wrap(a + b)
  }

  function Sub(a: Word, b: Word): Word {
    Wrap(a - b)
  }

  /** The low 32 bits of x. */
  function Wrap32(x: int): (w: Word32)
    decreases x < 0, if x < 0 then -x else x
  {
    if x < 0 then Wrap32(x + 0x1_0000_0000)
    else if x < 0x1_0000_0000 then x
    else Wrap32(x - 0x1_0000_0000)
  }

  /** Reinterprets the low 64 bits of x in two's complement. */
  function Signed64(x: int): int {
    var w := Wrap(x);
    if w < TWO63 then w else w - TWO64
  }

  /** Integer division of C: it truncates towards zero. */
  function TruncDiv(a: int, b: int): int
    requires b > 0
  {
    if a >= 0 then a / b else -((-a) / b)
  }

  /** Wrap subtracts a multiple of 2^64 ... */
  lemma {:induction false} WrapQuotient(x: int) returns (k: int)
    ensures Wrap(x) == x - k * TWO64
    decreases x < 0, if x < 0 then -x else x
  {
    if x < 0 {
      k := WrapQuotient(x + TWO64);
      k := k - 1;
    } else if x < TWO64 {
      k := 0;
    } else {
      k := WrapQuotient(x - TWO64);
      k := k + 1;
    }
  }

  /** ... and is blind to any other one. */
  lemma {:induction false} WrapPeriod(x: int, y: int, k: int)
    requires x == y + k * TWO64
    ensures Wrap(x) == Wrap(y)
    decreases if k < 0 then -k else k
  {
    if k > 0 {
      WrapPeriod(x - TWO64, y, k - 1);
      WrapShift(x - TWO64);
    } else if k < 0 {
      WrapPeriod(x + TWO64, y, k + 1);
      WrapShift(x);
    }
  }

  lemma {:induction false} WrapShift(x: int)
    ensures Wrap(x + TWO64) == Wrap(x)
  {
  }

  /** Numbers less than 2^64 apart stay different. */
  lemma WrapSeparates(x: int, y: int)
    requires 0 < x - y < TWO64
    ensures Wrap(x) != Wrap(y)
  {
    var k := WrapQuotient(x);
    var j := WrapQuotient(y);
  }

  lemma WrapIsModulo(x: int)
    ensures Wrap(x) == x % TWO64
  {
    var k := WrapQuotient(x);
  }

  lemma WrapWord(x: int)
    requires 0 <= x < TWO64
    ensures Wrap(x) == x
  {
  }

  lemma WrapAdd(x: int, y: int)
    ensures Wrap(Wrap(x) + y) == Wrap(x + y)
    ensures Wrap(y + Wrap(x)) == Wrap(x + y)
  {
    var k := WrapQuotient(x);
    WrapPeriod(x + y, Wrap(x) + y, k);
  }

  lemma WrapSub(x: int, y: int)
    ensures Wrap(Wrap(x) - y) == Wrap(x - y)
    ensures Wrap(y - Wrap(x)) == Wrap(y - x)
  {
    var k := WrapQuotient(x);
    WrapPeriod(x - y, Wrap(x) - y, k);
    WrapPeriod(y - x, y - Wrap(x), -k);
  }

  lemma {:induction false} Wrap32Quotient(x: int) returns (k: int)
    ensures Wrap32(x) == x - k * TWO32
    decreases x < 0, if x < 0 then -x else x
  {
    if x < 0 {
      k := Wrap32Quotient(x + TWO32);
      k := k - 1;
    } else if x < TWO32 {
      k := 0;
    } else {
      k := Wrap32Quotient(x - TWO32);
      k := k + 1;
    }
  }

  lemma {:induction false} Wrap32Period(x: int, y: int, k: int)
    requires x == y + k * TWO32
    ensures Wrap32(x) == Wrap32(y)
    decreases if k < 0 then -k else k
  {
    if k > 0 {
      Wrap32Period(x - TWO32, y, k - 1);
      Wrap32Shift(x - TWO32);
    } else if k < 0 {
      Wrap32Period(x + TWO32, y, k + 1);
      Wrap32Shift(x);
    }
  }

  lemma Wrap32IsModulo(x: int)
    ensures Wrap32(x) == x % TWO32
  {
    var k := Wrap32Quotient(x);
  }

  lemma Wrap32Word(x: int)
    requires 0 <= x < TWO32
    ensures Wrap32(x) == x
  {
  }

  lemma {:induction false} Wrap32Shift(x: int)
    ensures Wrap32(x + TWO32) == Wrap32(x)
  {
  }
}
