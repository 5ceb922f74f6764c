/** Key/value metadata of the Arrow C data interface (arrow/cdata/cdata_exports.go, cdata.go). */
module CMetadata {
  import opened Bits
  import opened Int32View
  import opened Wrappers

  /** A Go string: its bytes. */
  type Str = seq<byte>

  datatype Metadata = Metadata(keys: seq<Str>, values: seq<Str>)

  const NO_METADATA := Metadata([], [])

  /** The importer sees C memory through a slice of this many bytes. */
  const MAX_LEN: nat := 0x7fff_ffff

  function Int32Raw(v: int): (s: seq<byte>)
    ensures |s| == 4
  {
    Int32Bytes([ToInt32(v)])
  }

  function EncodedString(s: Str): seq<byte> {
    Int32Raw(|s|) + s
  }

  function EncodedPairs(keys: seq<Str>, values: seq<Str>): seq<byte>
    requires |keys| == |values|
  {
    if keys == [] then []
    else EncodedString(keys[0]) + EncodedString(values[0]) + EncodedPairs(keys[1..], values[1..])
  }

  /** A count, then each key and each value with its length before it. */
  function Encoded(md: Metadata): seq<byte>
    requires |md.keys| == |md.values|
  {
    Int32Raw(|md.keys|) + EncodedPairs(md.keys, md.values)
  }

  lemma {:induction false} EncodedSnoc(keys: seq<Str>, values: seq<Str>, k: Str, v: Str)
    requires |keys| == |values|
    ensures EncodedPairs(keys + [k], values + [v]) == EncodedPairs(keys, values) + (EncodedString(k) + EncodedString(v))
  {
    hide EncodedString;
    if keys == [] {
      assert [k][1..] == [] && [v][1..] == [];
    } else {
      assert (keys + [k])[1..] == keys[1..] + [k] && (values + [v])[1..] == values[1..] + [v];
      EncodedSnoc(keys[1..], values[1..], k, v);
    }
  }

  lemma {:induction false} NothingEncoded(md: Metadata)
    requires |md.keys| == |md.values|
    ensures EncodedPairs(md.keys[..0], md.values[..0]) == []
  {
  }

  /** One pair more, written piece by piece. */
  lemma {:induction false} PairEncoded(md: Metadata, i: nat, b: seq<byte>)
    requires |md.keys| == |md.values| && i < |md.keys|
    requires b == Int32Raw(|md.keys|) + EncodedPairs(md.keys[..i], md.values[..i])
                  + Int32Raw(|md.keys[i]|) + md.keys[i] + Int32Raw(|md.values[i]|) + md.values[i]
    ensures b == Int32Raw(|md.keys|) + EncodedPairs(md.keys[..i + 1], md.values[..i + 1])
  {
    hide Int32Raw, EncodedPairs;
    EncodedSnoc(md.keys[..i], md.values[..i], md.keys[i], md.values[i]);
    assert md.keys[..i + 1] == md.keys[..i] + [md.keys[i]] && md.values[..i + 1] == md.values[..i] + [md.values[i]];
  }

  /** encodeCMetadata: fails, where the source panics, on unequal numbers of keys and values. */
  method EncodeCMetadata(md: Metadata) returns (r: Result<seq<byte>>)
    ensures r.Success? <==> |md.keys| == |md.values|
    ensures r.Success? ==> r.value == Encoded(md)
  {
    hide Int32Raw, EncodedPairs;
    if |md.keys| != |md.values| {
      return Failure("unequal metadata key/values length");
    }
    var b := Int32Raw(|md.keys|);
    NothingEncoded(md);
    for i := 0 to |md.keys|
      invariant b == Int32Raw(|md.keys|) + EncodedPairs(md.keys[..i], md.values[..i])
    {
      b := b + Int32Raw(|md.keys[i]|);
      b := b + md.keys[i];
      b := b + Int32Raw(|md.values[i]|);
      b := b + md.values[i];
      PairEncoded(md, i, b);
    }
    assert md.keys[..|md.keys|] == md.keys && md.values[..|md.values|] == md.values;
    return Success(b);
  }

  // ---------------------------------------------------------------- the layout of the bytes

  /** The count and the lengths fit the int32 values they are stored in. */
  predicate Fits(md: Metadata) {
    && |md.keys| == |md.values| <= MAX_INT32
    && (forall i :: 0 <= i < |md.keys| ==> |md.keys[i]| <= MAX_INT32)
    && (forall i :: 0 <= i < |md.values| ==> |md.values[i]| <= MAX_INT32)
  }

  /** Where pair i starts: behind the count, and the lengths and bytes of the pairs before. */
  function PairStart(md: Metadata, i: nat): (p: nat)
    requires i <= |md.keys| == |md.values|
  {
    if i == 0 then 4 else PairStart(md, i - 1) + 4 + |md.keys[i - 1]| + 4 + |md.values[i - 1]|
  }

  lemma {:induction false} PairsLength(md: Metadata, i: nat)
    requires i <= |md.keys| == |md.values|
    ensures 4 + |EncodedPairs(md.keys[..i], md.values[..i])| == PairStart(md, i)
  {
    if i > 0 {
      PairsLength(md, i - 1);
      EncodedSnoc(md.keys[..i - 1], md.values[..i - 1], md.keys[i - 1], md.values[i - 1]);
      assert md.keys[..i] == md.keys[..i - 1] + [md.keys[i - 1]];
      assert md.values[..i] == md.values[..i - 1] + [md.values[i - 1]];
    }
  }

  lemma {:induction false} EncodedSplit(keys: seq<Str>, values: seq<Str>, i: nat)
    requires i < |keys| == |values|
    ensures EncodedPairs(keys, values) == EncodedPairs(keys[..i], values[..i])
      + ((EncodedString(keys[i]) + EncodedString(values[i])) + EncodedPairs(keys[i + 1..], values[i + 1..]))
  {
    hide EncodedString;
    if i == 0 {
      assert EncodedPairs(keys[..0], values[..0]) == [];
    } else {
      EncodedSplit(keys[1..], values[1..], i - 1);
      assert keys[1..][..i - 1] == keys[..i][1..] && values[1..][..i - 1] == values[..i][1..];
      assert keys[1..][i..] == keys[i + 1..] && values[1..][i..] == values[i + 1..];
    }
  }

  /** The little-endian int32 in four bytes. */
  function LengthAt(b: seq<byte>, p: nat): int
    requires p + 4 <= |b|
  {
    Int32At(b[p..p + 4], 0)
  }

  lemma {:induction false} RawAt(v: nat, b: seq<byte>, p: nat)
    requires v <= MAX_INT32 && p + 4 <= |b| && b[p..p + 4] == Int32Raw(v)
    ensures LengthAt(b, p) == v
  {
    hide Int32Bytes, Int32At;
    Int32RoundTrip([v]);
    assert Int32s(Int32Bytes([v]))[0] == v;
  }

  lemma {:induction false} PartsAt(head: seq<byte>, a: seq<byte>, k: seq<byte>, c: seq<byte>, v: seq<byte>,
    after: seq<byte>, b: seq<byte>)
    requires |a| == 4 && |c| == 4 && b == head + a + k + c + v + after
    ensures var p := |head|; var q := p + 4 + |k|;
      && q + 4 + |v| + |after| == |b|
      && b[p..p + 4] == a && b[p + 4..q] == k && b[q..q + 4] == c && b[q + 4..q + 4 + |v|] == v
  {
  }

  /**
   The encoded bytes: the count first, and for each pair the length and the bytes
   of its key, then the length and the bytes of its value, and nothing else.
   */
  lemma {:induction false} EncodedLayout(md: Metadata, i: nat)
    requires Fits(md) && i < |md.keys|
    ensures var b, k, v := Encoded(md), md.keys[i], md.values[i];
      var p := PairStart(md, i); var q := p + 4 + |k|;
      && |b| == PairStart(md, |md.keys|) && LengthAt(b, 0) == |md.keys|
      && q + 4 + |v| == PairStart(md, i + 1) <= |b|
      && LengthAt(b, p) == |k| && b[p + 4..q] == k
      && LengthAt(b, q) == |v| && b[q + 4..q + 4 + |v|] == v
  {
    hide Int32Raw, EncodedPairs, LengthAt;
    var b, k, v := Encoded(md), md.keys[i], md.values[i];
    var p := PairStart(md, i);
    var q := p + 4 + |k|;
    var before, after := EncodedPairs(md.keys[..i], md.values[..i]), EncodedPairs(md.keys[i + 1..], md.values[i + 1..]);
    EncodedSplit(md.keys, md.values, i);
    PairsLength(md, i);
    PairsLength(md, |md.keys|);
    assert md.keys[..|md.keys|] == md.keys && md.values[..|md.values|] == md.values;
    var head := Int32Raw(|md.keys|) + before;
    assert b == head + Int32Raw(|k|) + k + Int32Raw(|v|) + v + after;
    PartsAt(head, Int32Raw(|k|), k, Int32Raw(|v|), v, after, b);
    assert b[0..4] == Int32Raw(|md.keys|);
    RawAt(|md.keys|, b, 0);
    RawAt(|k|, b, p);
    RawAt(|v|, b, q);
  }

  /** Without pairs, four bytes of zero. */
  lemma {:induction false} NothingEncodedLayout()
    ensures |Encoded(NO_METADATA)| == 4 && LengthAt(Encoded(NO_METADATA), 0) == 0
  {
    hide Int32Bytes;
    RawAt(0, Encoded(NO_METADATA), 0);
  }

  // ---------------------------------------------------------------- decoding

  /** readint32 and readstr: what was read, and the rest. None where the source panics. */
  function ReadInt32(data: seq<byte>): Option<(int, seq<byte>)> {
    if |data| < 4 then None else Some((Int32At(data, 0), data[4..]))
  }

  function ReadString(data: seq<byte>): Option<(Str, seq<byte>)> {
    var l := ReadInt32(data);
    if l.None? || l.value.0 < 0 || l.value.0 > |l.value.1| then None
    else Some((l.value.1[..l.value.0], l.value.1[l.value.0..]))
  }

  function ReadPair(data: seq<byte>): Option<((Str, Str), seq<byte>)> {
    var k := ReadString(data);
    if k.None? then None
    else
      var v := ReadString(k.value.1);
      if v.None? then None else Some(((k.value.0, v.value.0), v.value.1))
  }

  function ReadPairs(data: seq<byte>, n: nat): Option<(Metadata, seq<byte>)> {
    if n == 0 then Some((NO_METADATA, data))
    else
      var p := ReadPair(data);
      if p.None? then None
      else
        var rest := ReadPairs(p.value.1, n - 1);
        if rest.None? then None
        else
          Some((Metadata([p.value.0.0] + rest.value.0.keys, [p.value.0.1] + rest.value.0.values), rest.value.1))
  }

  /** The bytes that the importer's slice covers. */
  function Seen(memory: seq<byte>): seq<byte> {
    if |memory| <= MAX_LEN then memory else memory[..MAX_LEN]
  }

  /** What the importer makes of the memory at md, of which it sees MAX_LEN bytes. */
  function Decoded(memory: seq<byte>): Option<(Metadata, seq<byte>)> {
    var n := ReadInt32(Seen(memory));
    if n.None? || n.value.0 < 0 then None else ReadPairs(n.value.1, n.value.0)
  }

  /** decodeCMetadata of a pointer that is not nil; the rest of the memory is never looked at. */
  method DecodeCMetadata(memory: seq<byte>) returns (r: Result<Metadata>)
    ensures r.Success? <==> Decoded(memory).Some?
    ensures r.Success? ==> r.value == Decoded(memory).value.0
  {
    hide Int32At;
    var data := Seen(memory);
    if |data| < 4 {
      return Failure("slice bounds out of range");
    }
    var npairs := Int32At(data, 0);
    data := data[4..];
    ghost var start := data;
    if npairs == 0 {
      return Success(NO_METADATA);
    }
    if npairs < 0 {
      return Failure("makeslice: len out of range");
    }
    var keys, vals := [], [];
    for i := 0 to npairs
      invariant |keys| == |vals| == i
      invariant Continues(start, npairs, keys, vals, data)
    {
      ReadMore(start, npairs, keys, vals, data);
      var k := ReadString(data);
      if k.None? {
        return Failure("slice bounds out of range");
      }
      var v := ReadString(k.value.1);
      if v.None? {
        return Failure("slice bounds out of range");
      }
      keys, vals, data := keys + [k.value.0], vals + [v.value.0], v.value.1;
    }
    return Success(Metadata(keys, vals));
  }

  /** Having read keys and vals, the rest decides about the whole. */
  ghost predicate Continues(start: seq<byte>, n: nat, keys: seq<Str>, vals: seq<Str>, data: seq<byte>) {
    && |keys| == |vals| <= n
    && var whole, rest := ReadPairs(start, n), ReadPairs(data, n - |keys|);
       (whole.Some? <==> rest.Some?)
       && (whole.Some? ==> whole.value.0 == Metadata(keys + rest.value.0.keys, vals + rest.value.0.values))
  }

  lemma {:induction false} ReadMore(start: seq<byte>, n: nat, keys: seq<Str>, vals: seq<Str>, data: seq<byte>)
    requires |keys| < n && Continues(start, n, keys, vals, data)
    ensures ReadPair(data).Some? ==>
      Continues(start, n, keys + [ReadPair(data).value.0.0], vals + [ReadPair(data).value.0.1], ReadPair(data).value.1)
    ensures ReadPair(data).None? ==> ReadPairs(start, n).None?
  {
    hide ReadPair;
    var p := ReadPair(data);
    if p.Some? {
      var rest := ReadPairs(p.value.1, n - |keys| - 1);
      if rest.Some? {
        assert keys + ([p.value.0.0] + rest.value.0.keys) == (keys + [p.value.0.0]) + rest.value.0.keys;
        assert vals + ([p.value.0.1] + rest.value.0.values) == (vals + [p.value.0.1]) + rest.value.0.values;
      }
    }
  }

  // ---------------------------------------------------------------- round trip

  lemma {:induction false} ReadInt32Back(v: nat, rest: seq<byte>)
    requires v <= MAX_INT32
    ensures ReadInt32(Int32Raw(v) + rest) == Some((v, rest))
  {
    hide Int32Bytes, Int32Of, ByteValue;
    var raw := Int32Bytes([v]);
    Int32RoundTrip([v]);
    assert Int32s(raw)[0] == v;
    assert Int32At(raw + rest, 0) == Int32At(raw, 0);
    assert (raw + rest)[4..] == rest;
  }

  lemma {:induction false} ReadStringBack(s: Str, rest: seq<byte>)
    requires |s| <= MAX_INT32
    ensures ReadString(EncodedString(s) + rest) == Some((s, rest))
  {
    hide ReadInt32, Int32Raw;
    ReadInt32Back(|s|, s + rest);
    assert EncodedString(s) + rest == Int32Raw(|s|) + (s + rest);
    assert (s + rest)[..|s|] == s && (s + rest)[|s|..] == rest;
  }

  /** A string that is cut short cannot be read. */
  lemma {:induction false} ReadStringCut(s: Str, data: seq<byte>)
    requires |s| <= MAX_INT32 && |data| < |EncodedString(s)| && data == EncodedString(s)[..|data|]
    ensures ReadString(data).None?
  {
    hide ReadInt32, Int32Raw;
    if |data| >= 4 {
      var part := s[..|data| - 4];
      ReadInt32Back(|s|, part);
      assert data == Int32Raw(|s|) + part;
    } else {
      TooShort(data);
    }
  }

  lemma {:induction false} TooShort(data: seq<byte>)
    requires |data| < 4
    ensures ReadInt32(data).None?
  {
  }

  lemma {:induction false} ReadPairsBack(md: Metadata, rest: seq<byte>)
    requires Fits(md)
    ensures ReadPairs(EncodedPairs(md.keys, md.values) + rest, |md.keys|) == Some((md, rest))
    decreases |md.keys|
  {
    hide ReadString, EncodedString;
    if md.keys == [] {
      assert EncodedPairs([], []) + rest == rest;
    } else {
      var k, v, tail := md.keys[0], md.values[0], Metadata(md.keys[1..], md.values[1..]);
      var more := EncodedPairs(tail.keys, tail.values) + rest;
      assert EncodedPairs(md.keys, md.values) + rest == EncodedString(k) + (EncodedString(v) + more);
      ReadStringBack(k, EncodedString(v) + more);
      ReadStringBack(v, more);
      ReadPairsBack(tail, rest);
      assert [k] + tail.keys == md.keys && [v] + tail.values == md.values;
    }
  }

  /** Pairs that are cut short cannot all be read. */
  lemma {:induction false} ReadPairsCut(md: Metadata, data: seq<byte>)
    requires Fits(md) && |data| < |EncodedPairs(md.keys, md.values)|
    requires data == EncodedPairs(md.keys, md.values)[..|data|]
    ensures ReadPairs(data, |md.keys|).None?
    decreases |md.keys|
  {
    hide ReadString, EncodedString;
    var k, v, tail := md.keys[0], md.values[0], Metadata(md.keys[1..], md.values[1..]);
    var ek, ev, et := EncodedString(k), EncodedString(v), EncodedPairs(tail.keys, tail.values);
    assert EncodedPairs(md.keys, md.values) == ek + (ev + et);
    if |data| < |ek| {
      ReadStringCut(k, data);
    } else {
      var second := data[|ek|..];
      assert data == ek + second && second == (ev + et)[..|second|];
      ReadStringBack(k, second);
      if |second| < |ev| {
        ReadStringCut(v, second);
      } else {
        var third := second[|ev|..];
        assert second == ev + third && third == et[..|third|];
        ReadStringBack(v, third);
        ReadPairsCut(tail, third);
      }
    }
  }

  /**
   Decoding undoes encoding, whatever follows the encoded bytes and whatever
   the strings hold, exactly as long as the encoded bytes lie in the memory
   that the importer sees; it then consumes just those bytes.
   */
  lemma {:induction false} DecodeEncode(md: Metadata, suffix: seq<byte>)
    requires Fits(md)
    ensures Decoded(Encoded(md) + suffix).Some? <==> |Encoded(md)| <= 0x7fff_ffff
    ensures |Encoded(md)| <= 0x7fff_ffff ==> Decoded(Encoded(md) + suffix).value.0 == md
    ensures |Encoded(md)| <= 0x7fff_ffff ==>
      var rest := if |Encoded(md) + suffix| <= 0x7fff_ffff then suffix else suffix[..0x7fff_ffff - |Encoded(md)|];
      Decoded(Encoded(md) + suffix).value.1 == rest
  {
    hide ReadInt32, Int32Raw, ReadPairs, EncodedPairs;
    var memory := Encoded(md) + suffix;
    var data := Seen(memory);
    var count, pairs := Int32Raw(|md.keys|), EncodedPairs(md.keys, md.values);
    var rest := data[4..];
    assert data == count + rest;
    ReadInt32Back(|md.keys|, rest);
    if |Encoded(md)| <= 0x7fff_ffff {
      var left := data[4 + |pairs|..];
      assert rest == pairs + left;
      ReadPairsBack(md, left);
    } else {
      assert rest == pairs[..|rest|];
      ReadPairsCut(md, rest);
    }
  }

  lemma {:induction false} RawOfRead(data: seq<byte>)
    requires ReadInt32(data).Some? && 0 <= ReadInt32(data).value.0
    ensures data == Int32Raw(ReadInt32(data).value.0) + ReadInt32(data).value.1
    ensures ReadInt32(data).value.0 <= 0x7fff_ffff
  {
    hide Int32Bytes, Int32Of, ByteValue;
    var raw := data[..4];
    BytesRoundTrip(raw);
    assert Int32At(raw, 0) == Int32At(data, 0) && Int32s(raw) == [Int32At(data, 0)];
  }

  lemma {:induction false} StringOfRead(data: seq<byte>)
    requires ReadString(data).Some?
    ensures data == EncodedString(ReadString(data).value.0) + ReadString(data).value.1
    ensures |ReadString(data).value.0| <= 0x7fff_ffff
  {
    hide ReadInt32, Int32Raw;
    RawOfRead(data);
  }

  lemma {:induction false} PairsOfRead(data: seq<byte>, n: nat)
    requires n <= 0x7fff_ffff && ReadPairs(data, n).Some?
    ensures var (md, rest) := ReadPairs(data, n).value;
      Fits(md) && |md.keys| == n && data == EncodedPairs(md.keys, md.values) + rest
    decreases n
  {
    hide ReadString, EncodedString;
    if n > 0 {
      var ((k, v), more) := ReadPair(data).value;
      StringOfRead(data);
      StringOfRead(ReadString(data).value.1);
      PairsOfRead(more, n - 1);
      var (tail, rest) := ReadPairs(more, n - 1).value;
      var md := Metadata([k] + tail.keys, [v] + tail.values);
      assert md.keys[1..] == tail.keys && md.values[1..] == tail.values;
      assert data == EncodedString(k) + (EncodedString(v) + (EncodedPairs(tail.keys, tail.values) + rest));
    }
  }

  /** What is decoded, from any bytes at all, is encoded at the start of the memory that the importer sees. */
  lemma {:induction false} EncodeDecode(memory: seq<byte>)
    ensures Decoded(memory).Some? ==>
      var (md, rest) := Decoded(memory).value;
      Fits(md) && Encoded(md) + rest == if |memory| <= 0x7fff_ffff then memory else memory[..0x7fff_ffff]
  {
    hide ReadInt32, Int32Raw, ReadPairs, EncodedPairs;
    if Decoded(memory).Some? {
      var data := Seen(memory);
      var (n, pairs) := ReadInt32(data).value;
      RawOfRead(data);
      PairsOfRead(pairs, n);
    }
  }

  /** So decoding succeeds exactly on memory that starts with encoded metadata. */
  lemma {:induction false} DecodesExactly(memory: seq<byte>)
    ensures Decoded(memory).Some? <==>
      exists md :: Fits(md) && |Encoded(md)| <= 0x7fff_ffff && Encoded(md) <= memory
  {
    hide Encoded, Decoded;
    EncodeDecode(memory);
    if Decoded(memory).Some? {
      var (md, rest) := Decoded(memory).value;
      assert Encoded(md) <= memory;
    }
    if md :| Fits(md) && |Encoded(md)| <= 0x7fff_ffff && Encoded(md) <= memory {
      DecodeEncode(md, memory[|Encoded(md)|..]);
      assert Encoded(md) + memory[|Encoded(md)|..] == memory;
    }
  }
}
