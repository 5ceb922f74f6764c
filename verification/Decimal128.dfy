/** 128-bit integers in two limbs (arrow/decimal128/decimal128.go). */
module Decimal128 {
  import opened Arith
  import opened Wrappers

  const TWO_63: int := 0x8000_0000_0000_0000
  const TWO_64: int := 0x1_0000_0000_0000_0000
  const TWO_127: int := 0x8000_0000_0000_0000_0000_0000_0000_0000
  const TWO_128: int := 0x1_0000_0000_0000_0000_0000_0000_0000_0000

  newtype uint64 = x: int | 0 <= x < TWO_64
  newtype int64 = x: int | -TWO_63 <= x < TWO_63

  /** lo uint64, hi int64 */
  datatype Num = Num(hi: int64, lo: uint64)

  /** The number that two limbs stand for. */
  function Value(n: Num): (v: int)
    ensures -TWO_127 <= v < TWO_127
  {
    n.hi as int * TWO_64 + n.lo as int
  }

  /** The conversions uint64(v) and int64(v), and arithmetic that wraps around. */
  function ToUint64(v: int): (r: uint64)
    ensures 0 <= v < TWO_64 ==> r as int == v
  {
    (v % TWO_64) as uint64
  }

  function ToInt64(v: int): (r: int64)
    ensures -TWO_63 <= v < TWO_63 ==> r as int == v
  {
    var u := v % TWO_64;
    (if u >= TWO_63 then u - TWO_64 else u) as int64
  }

  function ComplementU(x: uint64): uint64 {
    (TWO_64 - 1 - x as int) as uint64
  }

  function ComplementI(x: int64): int64 {
    (-(x as int) - 1) as int64
  }

  /** Two limbs make every 128-bit number exactly once. */
  lemma {:induction false} ValueInjective(a: Num, b: Num)
    requires Value(a) == Value(b)
    ensures a == b
  {
  }

  // ---------------------------------------------------------------- negation and sign

  function Negated(n: Num): Num {
    var lo := ToUint64(ComplementU(n.lo) as int + 1);
    var hi := ComplementI(n.hi);
    Num(if lo == 0 then ToInt64(hi as int + 1) else hi, lo)
  }

  /** Negation modulo 2^128: only the smallest number has no negative. */
  lemma {:induction false} NegatedValue(n: Num)
    ensures Value(Negated(n)) == if Value(n) == -TWO_127 then -TWO_127 else -Value(n)
  {
    if n.lo != 0 {
      assert ToUint64(ComplementU(n.lo) as int + 1) as int == TWO_64 - n.lo as int;
    } else {
      assert ToUint64(ComplementU(n.lo) as int + 1) == 0;
    }
  }

  /** int(1 | (n.hi >> 63)): the shift gives -1 or 0. */
  function Sign(n: Num): int {
    if n == Num(0, 0) then 0 else if n.hi < 0 then -1 else 1
  }

  lemma {:induction false} SignValue(n: Num)
    ensures Sign(n) == if Value(n) < 0 then -1 else if Value(n) == 0 then 0 else 1
  {
  }

  function FromI64(v: int64): Num {
    if v > 0 then Num(0, ToUint64(v as int))
    else if v < 0 then Num(-1, ToUint64(v as int))
    else Num(0, 0)
  }

  lemma {:induction false} FromI64Value(v: int64)
    ensures Value(FromI64(v)) == v as int
  {
    if v < 0 {
      RemainderIs(v as int, TWO_64, -1, v as int + TWO_64);
    }
  }

  // ---------------------------------------------------------------- big integers

  /** FromBigInt: words of the absolute value, negated afterwards. Fails, where the source panics, beyond 128 bits. */
  function FromBigInt(v: int): Result<Num> {
    var abs := if v < 0 then -v else v;
    if abs >= TWO_128 then Failure("arrow/decimal128: cannot represent value larger than 128bits")
    else
      var n := Num(ToInt64(abs / TWO_64), ToUint64(abs % TWO_64));
      Success(if v < 0 then Negated(n) else n)
  }

  function BigIntPositive(n: Num): int {
    ToUint64(n.hi as int) as int * TWO_64 + n.lo as int
  }

  function BigInt(n: Num): int {
    if Sign(n) < 0 then -BigIntPositive(Negated(n)) else BigIntPositive(n)
  }

  /** BigInt reads the value of every number, the smallest one included. */
  lemma {:induction false} BigIntValue(n: Num)
    ensures BigInt(n) == Value(n)
  {
    SignValue(n);
    NegatedValue(n);
    if Value(n) < 0 {
      PositiveValue(Negated(n));
    } else {
      PositiveValue(n);
    }
  }

  lemma {:induction false} PositiveValue(n: Num)
    ensures BigIntPositive(n) == if Value(n) < 0 then Value(n) + TWO_128 else Value(n)
  {
    if n.hi < 0 {
      RemainderIs(n.hi as int, TWO_64, -1, n.hi as int + TWO_64);
    }
  }

  /** v in two's complement of 128 bits. */
  function Wrapped(v: int): int {
    if v >= TWO_127 then v - TWO_128 else if v < -TWO_127 then v + TWO_128 else v
  }

  /** What is stored is v modulo 2^128. */
  lemma {:induction false} FromBigIntValue(v: int)
    ensures FromBigInt(v).Success? <==> -TWO_128 < v < TWO_128
    ensures FromBigInt(v).Success? ==> Value(FromBigInt(v).value) == Wrapped(v)
  {
    var abs := if v < 0 then -v else v;
    if abs < TWO_128 {
      var high, low := abs / TWO_64, abs % TWO_64;
      var n := Num(ToInt64(high), ToUint64(low));
      assert 0 <= high < TWO_64;
      assert Value(n) == Wrapped(abs);
      NegatedValue(n);
    }
  }

  /** Storing and reading gives back v exactly on the numbers that 128 bits can hold. */
  lemma {:induction false} BigIntRoundTrip(v: int)
    ensures FromBigInt(v).Success? && BigInt(FromBigInt(v).value) == v <==> -TWO_127 <= v < TWO_127
  {
    FromBigIntValue(v);
    if FromBigInt(v).Success? {
      BigIntValue(FromBigInt(v).value);
    }
  }

  /** Reading and storing gives back every number. */
  lemma {:induction false} NumRoundTrip(n: Num)
    ensures FromBigInt(BigInt(n)) == Success(n)
  {
    BigIntValue(n);
    FromBigIntValue(Value(n));
    ValueInjective(FromBigInt(Value(n)).value, n);
  }
}
