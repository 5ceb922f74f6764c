/** Growable byte buffers, and their view as int32 values (arrow/array/bufferbuilder.go and its numeric variants). */
module BufferBuilders {
  import opened Bits
  import opened BitUtil
  import opened Int32View
  import opened Memory
  import opened Builders

  class BufferBuilder {
    var buffer: Buffer?
    var length: nat
    var capacity: nat

    ghost function Repr(): set<object>
      reads this, buffer
    {
      if buffer == null then {this} else var b: Buffer := buffer; {this, b, b.buf}
    }

    /** The slice bytes of the source is the allocated memory of the buffer. */
    ghost predicate Valid()
      reads this, buffer, Repr()
    {
      && length <= capacity
      && (buffer == null ==> capacity == 0)
      && (buffer != null ==> buffer.Valid() && capacity == buffer.buf.Length && ZeroBehind(buffer.buf[..], length))
    }

    /** Bytes() */
    ghost function Contents(): (r: seq<byte>)
      requires Valid()
      reads this, buffer, Repr()
      ensures |r| == length
    {
      if buffer == null then [] else buffer.buf[..length]
    }

    method Bytes() returns (r: seq<byte>)
      requires Valid()
      ensures r == Contents()
    {
      r := if buffer == null then [] else buffer.buf[..length];
    }

    constructor ()
      ensures Valid() && Contents() == [] && buffer == null && fresh(Repr())
    {
      buffer := null;
      length := 0;
      capacity := 0;
    }

    /**
     resize: the contents are kept as long as there is room for them, and new bytes
     are zero. Below the current length the buffer shrinks all the same, and the
     builder is of no use if its length does not fit any more.
     */
    method Resize(elements: nat)
      requires Valid()
      modifies Repr()
      ensures length == old(length) && elements <= capacity && (Valid() <==> length <= capacity)
      ensures Valid() ==> Contents() == old(Contents())
      ensures buffer != null && buffer.length == elements && (old(buffer) != null ==> buffer == old(buffer))
      ensures elements > old(capacity) ==> capacity < elements + 64 && capacity % 64 == 0
      ensures fresh(Repr() - old(Repr()))
    {
      if buffer == null {
        buffer := new Buffer();
      }
      buffer.Resize(elements);
      var oldCapacity := capacity;
      capacity := buffer.buf.Length;
      if capacity > oldCapacity {
        ZeroBytes(buffer.buf, oldCapacity);
      }
    }

    /**
     Room for n more bytes, as Append, Advance and AppendValue make it: none is
     taken back, and what is missing is made up to a power of two.
     */
    method MakeRoom(n: nat)
      requires Valid()
      modifies Repr()
      ensures Valid() && Contents() == old(Contents()) && length + n <= capacity
      ensures n > 0 ==> buffer != null
      ensures length + n <= old(capacity) ==>
        && buffer == old(buffer) && Repr() == old(Repr()) && capacity == old(capacity)
        && (buffer != null ==> buffer.length == old(buffer.length))
      ensures length + n > old(capacity) ==>
        && buffer != null && IsPowerOf2(buffer.length) && length + n < buffer.length <= 2 * (length + n)
        && buffer.length <= capacity < buffer.length + 64 && capacity % 64 == 0
      ensures fresh(Repr() - old(Repr()))
    {
      if capacity < length + n {
        Resize(NextPowerOf2(length + n));
      }
    }

    /** Advance: the bytes skipped are zero. */
    method Advance(n: nat)
      requires Valid()
      modifies Repr()
      ensures Valid() && Contents() == old(Contents()) + seq(n, i => 0)
      ensures capacity >= old(capacity) && (old(length) + n <= old(capacity) ==> capacity == old(capacity))
      ensures fresh(Repr() - old(Repr()))
    {
      MakeRoom(n);
      length := length + n;
    }

    method Append(v: seq<byte>)
      requires Valid()
      modifies Repr()
      ensures Valid() && Contents() == old(Contents()) + v
      ensures capacity >= old(capacity) && (old(length) + |v| <= old(capacity) ==> capacity == old(capacity))
      ensures fresh(Repr() - old(Repr()))
    {
      MakeRoom(|v|);
      if buffer != null {
        forall i | 0 <= i < |v| {
          buffer.buf[length + i] := v[i];
        }
      }
      length := length + |v|;
    }

    /** AppendValue of the int32 view: four bytes, lowest first. */
    method AppendInt32(v: int)
      requires Valid() && IsInt32(v)
      modifies Repr()
      ensures Valid() && Contents() == old(Contents()) + Int32Bytes([v])
      ensures capacity >= old(capacity) && (old(length) + 4 <= old(capacity) ==> capacity == old(capacity))
      ensures fresh(Repr() - old(Repr()))
    {
      hide Int32Bytes;
      MakeRoom(4);
      PutInt32(buffer.buf, length, v);
      length := length + 4;
    }

    /** Finish: hands over a buffer of exactly the bytes appended, or nil if there never was one, and starts again. */
    method Finish() returns (result: Buffer?)
      requires Valid()
      modifies Repr()
      ensures Valid() && Contents() == [] && buffer == null && fresh(Repr() - old(Repr()))
      ensures result == old(buffer)
      ensures result != null ==> result.Valid() && (old(length) > 0 ==> result.Bytes() == old(Contents()))
    {
      if length > 0 {
        buffer.ResizeNoShrink(length);
      }
      result := buffer;
      buffer := null;
      capacity := 0;
      length := 0;
    }
  }

  /** Int32Traits.PutValue */
  method PutInt32(bytes: array<byte>, at: nat, v: int)
    requires at + 4 <= bytes.Length && IsInt32(v)
    modifies bytes
    ensures forall i :: 0 <= i < bytes.Length ==>
      bytes[i] == if at <= i < at + 4 then Int32Bytes([v])[i - at] else old(bytes[i])
  {
    hide ToByte, ByteOfInt;
    BytesInRange(v);
    bytes[at] := ToByte(ByteOfInt(v, 0));
    bytes[at + 1] := ToByte(ByteOfInt(v, 1));
    bytes[at + 2] := ToByte(ByteOfInt(v, 2));
    bytes[at + 3] := ToByte(ByteOfInt(v, 3));
  }

  ghost predicate ZeroBehind(s: seq<byte>, n: nat) {
    forall i :: n <= i < |s| ==> s[i] == 0
  }
}
