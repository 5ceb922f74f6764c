/** Byte sequences seen as little-endian int32 values, as arrow.Int32Traits casts them. */
module Int32View {
  import opened Bits

  const MAX_INT32: int := 0x7fff_ffff

  predicate IsInt32(v: int) {
    -0x8000_0000 <= v <= MAX_INT32
  }

  /** The conversion int32(v): v modulo 2^32, in two's complement. */
  function ToInt32(v: int): (r: int)
    ensures IsInt32(r)
    ensures IsInt32(v) ==> r == v
  {
    var u := v % 0x1_0000_0000;
    if u > MAX_INT32 then u - 0x1_0000_0000 else u
  }

  lemma {:induction false} ToInt32Wraps(v: int)
    ensures -0x8000_0000 <= ToInt32(v) <= 0x7fff_ffff && (ToInt32(v) - v) % 0x1_0000_0000 == 0
  {
  }

  /** Byte i (0 is the lowest) of a number in two's complement. */
  function ByteOfInt(v: int, i: nat): int
    requires i < 4
  {
    if i == 0 then v % 256 else if i == 1 then v / 256 % 256
    else if i == 2 then v / 65536 % 256 else v / 16777216 % 256
  }

  function Int32Of(b0: int, b1: int, b2: int, b3: int): int {
    ToInt32(b0 + 256 * b1 + 65536 * b2 + 16777216 * b3)
  }

  lemma {:induction false} BytesOfInt32(v: int)
    requires IsInt32(v)
    ensures Int32Of(ByteOfInt(v, 0), ByteOfInt(v, 1), ByteOfInt(v, 2), ByteOfInt(v, 3)) == v
  {
    var a, b, c := v / 256, v / 65536, v / 16777216;
    assert b == a / 256 && c == b / 256;
    assert v == ByteOfInt(v, 0) + 256 * a && a == ByteOfInt(v, 1) + 256 * b && b == ByteOfInt(v, 2) + 256 * c;
    assert -128 <= c < 128;
    assert c == ByteOfInt(v, 3) || c == ByteOfInt(v, 3) - 256;
  }

  function Digit(b: byte, i: nat): (d: nat)
    requires i < 8
    ensures d < 2
  {
    if Bit(b, i) then 1 else 0
  }

  /** The unsigned value of a byte, and the byte of a value, place by place. */
  function ByteValue(b: byte): (n: nat)
    ensures n < 256
  {
    Digit(b, 0) + 2 * Digit(b, 1) + 4 * Digit(b, 2) + 8 * Digit(b, 3)
    + 16 * Digit(b, 4) + 32 * Digit(b, 5) + 64 * Digit(b, 6) + 128 * Digit(b, 7)
  }

  function Place(d: int, mask: byte): byte {
    if d == 1 then mask else 0
  }

  function ToByte(n: int): byte
    requires 0 <= n < 256
  {
    Place(n % 2, 1) | Place(n / 2 % 2, 2) | Place(n / 4 % 2, 4) | Place(n / 8 % 2, 8)
    | Place(n / 16 % 2, 16) | Place(n / 32 % 2, 32) | Place(n / 64 % 2, 64) | Place(n / 128 % 2, 128)
  }

  lemma {:induction false} AssembledDigits(d0: int, d1: int, d2: int, d3: int, d4: int, d5: int, d6: int, d7: int,
    b: byte)
    requires 0 <= d0 < 2 && 0 <= d1 < 2 && 0 <= d2 < 2 && 0 <= d3 < 2
    requires 0 <= d4 < 2 && 0 <= d5 < 2 && 0 <= d6 < 2 && 0 <= d7 < 2
    requires b == Place(d0, 1) | Place(d1, 2) | Place(d2, 4) | Place(d3, 8) | Place(d4, 16) | Place(d5,
      32) | Place(d6, 64) | Place(d7, 128)
    ensures Digit(b, 0) == d0 && Digit(b, 1) == d1 && Digit(b, 2) == d2 && Digit(b, 3) == d3
    ensures Digit(b, 4) == d4 && Digit(b, 5) == d5 && Digit(b, 6) == d6 && Digit(b, 7) == d7
  {
  }

  lemma {:induction false} ByteRoundTrip(n: int)
    requires 0 <= n < 256
    ensures ByteValue(ToByte(n)) == n
  {
    hide Digit, Place;
    BinaryDigits(n, n / 2, n / 4, n / 8, n / 16, n / 32, n / 64, n / 128);
    AssembledDigits(n % 2, n / 2 % 2, n / 4 % 2, n / 8 % 2, n / 16 % 2, n / 32 % 2, n / 64 % 2, n / 128 % 2, ToByte(n));
  }

  lemma {:induction false} BinaryDigits(n: int, a: int, b: int, c: int, d: int, e: int, f: int, g: int)
    requires 0 <= n < 256
    requires a == n / 2 && b == n / 4 && c == n / 8 && d == n / 16 && e == n / 32 && f == n / 64 && g == n / 128
    ensures n == n % 2 + 2 * (a % 2) + 4 * (b % 2) + 8 * (c % 2)
               + 16 * (d % 2) + 32 * (e % 2) + 64 * (f % 2) + 128 * (g % 2)
  {
    assert b == a / 2 && c == b / 2 && d == c / 2 && e == d / 2 && f == e / 2 && g == f / 2;
    assert n == n % 2 + 2 * a && a == a % 2 + 2 * b && b == b % 2 + 2 * c && c == c % 2 + 2 * d;
    assert d == d % 2 + 2 * e && e == e % 2 + 2 * f && f == f % 2 + 2 * g && g == g % 2;
  }

  function Int32At(s: seq<byte>, k: nat): (v: int)
    requires 4 * k + 4 <= |s|
    ensures IsInt32(v)
  {
    Int32Of(ByteValue(s[4 * k]), ByteValue(s[4 * k + 1]), ByteValue(s[4 * k + 2]), ByteValue(s[4 * k + 3]))
  }

  /** The places of a byte are those of its value as a number. */
  lemma {:induction false} ByteIsNumber(b: byte)
    ensures ByteValue(b) == b as int
  {
    var low, high := b & 0x0f, b >> 4;
    NibbleValue(low);
    NibbleValue(high);
    NibblesOf(b, low, high);
  }

  /** The low four places of a byte. */
  lemma {:induction false} NibbleValue(b: byte)
    requires b < 16
    ensures Digit(b, 0) + 2 * Digit(b, 1) + 4 * Digit(b, 2) + 8 * Digit(b, 3) == b as int
  {
    if b == 0 {} else if b == 1 {} else if b == 2 {} else if b == 3 {} else if b == 4 {} else if b == 5 {}
    else if b == 6 {} else if b == 7 {} else if b == 8 {} else if b == 9 {} else if b == 10 {} else if b == 11 {}
    else if b == 12 {} else if b == 13 {} else if b == 14 {} else {}
  }

  lemma {:induction false} NibblesOf(b: byte, low: byte, high: byte)
    requires low == b & 0x0f && high == b >> 4
    ensures low < 16 && high < 16 && b as int == low as int + 16 * (high as int)
    ensures forall i :: 0 <= i < 4 ==> Digit(b, i) == Digit(low, i) && Digit(b, i + 4) == Digit(high, i)
  {
  }

  /** Four bytes, the lowest first, in two's complement. */
  lemma {:induction false} Int32AtBytes(s: seq<byte>, k: nat)
    requires 4 * k + 4 <= |s|
    ensures var u := s[4 * k] as int + 0x100 * (s[4 * k + 1] as int)
                     + 0x1_0000 * (s[4 * k + 2] as int) + 0x100_0000 * (s[4 * k + 3] as int);
      Int32At(s, k) == if u < 0x8000_0000 then u else u - 0x1_0000_0000
  {
    hide ByteValue;
    ByteIsNumber(s[4 * k]);
    ByteIsNumber(s[4 * k + 1]);
    ByteIsNumber(s[4 * k + 2]);
    ByteIsNumber(s[4 * k + 3]);
    WrapOnce(ByteValue(s[4 * k]), ByteValue(s[4 * k + 1]), ByteValue(s[4 * k + 2]), ByteValue(s[4 * k + 3]));
  }

  lemma {:induction false} WrapOnce(a: nat, b: nat, c: nat, d: nat)
    requires a < 256 && b < 256 && c < 256 && d < 256
    ensures var u := a + 0x100 * b + 0x1_0000 * c + 0x100_0000 * d;
      Int32Of(a, b, c, d) == if u < 0x8000_0000 then u else u - 0x1_0000_0000
  {
  }

  /** Int32Traits.CastFromBytes. */
  function Int32s(s: seq<byte>): (r: seq<int>)
    ensures |r| == |s| / 4
    ensures forall k :: 0 <= k < |r| ==> IsInt32(r[k])
  {
    seq(|s| / 4, k requires 0 <= k < |s| / 4 => Int32At(s, k))
  }

  /** The bytes under a slice of int32 values (Int32Traits.CastToBytes). */
  function Int32Bytes(vs: seq<int>): (s: seq<byte>)
    ensures |s| == 4 * |vs|
  {
    seq(4 * |vs|, i requires 0 <= i < 4 * |vs| => ToByte(ByteOfInt(vs[i / 4], i % 4)))
  }

  lemma {:induction false} Int32RoundTrip(vs: seq<int>)
    requires forall k :: 0 <= k < |vs| ==> IsInt32(vs[k])
    ensures Int32s(Int32Bytes(vs)) == vs
  {
    hide ByteValue, ToByte, ByteOfInt, Int32Of;
    var s := Int32Bytes(vs);
    forall k | 0 <= k < |vs|
      ensures Int32s(s)[k] == vs[k]
    {
      var v := vs[k];
      BytesInRange(v);
      ByteRoundTrip(ByteOfInt(v, 0));
      ByteRoundTrip(ByteOfInt(v, 1));
      ByteRoundTrip(ByteOfInt(v, 2));
      ByteRoundTrip(ByteOfInt(v, 3));
      BytesOfInt32(v);
    }
  }

  /** Any bytes are the bytes of the values read from them. */
  lemma {:induction false} BytesRoundTrip(s: seq<byte>)
    requires |s| % 4 == 0
    ensures Int32Bytes(Int32s(s)) == s
  {
    hide ByteValue, ToByte, ByteOfInt, Int32Of;
    forall i | 0 <= i < |s|
      ensures Int32Bytes(Int32s(s))[i] == s[i]
    {
      var k := i / 4;
      BytesOfAssembled(ByteValue(s[4 * k]), ByteValue(s[4 * k + 1]), ByteValue(s[4 * k + 2]), ByteValue(s[4 * k + 3]));
      ByteBack(s[i]);
      assert i == 4 * k + i % 4;
    }
  }

  lemma {:induction false} ByteBack(b: byte)
    ensures ToByte(ByteValue(b)) == b
  {
    hide ByteValue, ToByte;
    ByteIsNumber(b);
    ByteIsNumber(ToByte(ByteValue(b)));
    ByteRoundTrip(ByteValue(b));
  }

  lemma {:induction false} BytesOfAssembled(a: nat, b: nat, c: nat, d: nat)
    requires a < 256 && b < 256 && c < 256 && d < 256
    ensures var v := Int32Of(a, b, c, d);
      ByteOfInt(v, 0) == a && ByteOfInt(v, 1) == b && ByteOfInt(v, 2) == c && ByteOfInt(v, 3) == d
  {
    var v := Int32Of(a, b, c, d);
    WrapOnce(a, b, c, d);
    var high := if d < 128 then d else d - 256;
    var upper := c + 256 * high;
    var middle := b + 256 * upper;
    assert v == a + 256 * middle;
    assert v / 256 == middle && v / 65536 == upper && v / 16777216 == high;
  }

  lemma {:induction false} BytesInRange(v: int)
    ensures 0 <= ByteOfInt(v, 0) < 256 && 0 <= ByteOfInt(v, 1) < 256
    ensures 0 <= ByteOfInt(v, 2) < 256 && 0 <= ByteOfInt(v, 3) < 256
  {
  }
}
