/** Resizable buffers (arrow/memory/buffer.go). */
module Memory {
  import opened Bits
  import opened BitUtil

  /** buf holds at least the length bytes in use; what lies behind them is allocated but not in use. */
  class Buffer {
    var buf: array<byte>
    var length: nat

    predicate Valid()
      reads this
    {
      length <= buf.Length && buf.Length % 64 == 0
    }

    /** Bytes() */
    ghost function Bytes(): seq<byte>
      requires Valid()
      reads this, buf
    {
      buf[..length]
    }

    /** NewResizableBuffer: nothing allocated yet. */
    constructor ()
      ensures Valid() && length == 0 && buf.Length == 0 && fresh(buf)
    {
      length := 0;
      buf := new byte[0];
    }

    /** mem.Allocate or mem.Reallocate: the common prefix is kept, and new bytes hold anything. */
    method Reallocate(newCap: nat)
      modifies this`buf
      ensures fresh(buf) && buf.Length == newCap
      ensures forall i :: 0 <= i < newCap && i < old(buf.Length) ==> buf[i] == old(buf[i])
    {
      var bytes := new byte[newCap];
      var n := if buf.Length < newCap then buf.Length else newCap;
      forall i | 0 <= i < n {
        bytes[i] := buf[i];
      }
      buf := bytes;
    }

    /** Shrinking gives memory back; growing allocates only beyond what is allocated already. */
    method Resize(newSize: nat)
      requires Valid()
      modifies this
      ensures Valid() && length == newSize && (buf == old(buf) || fresh(buf))
      ensures forall i :: 0 <= i < buf.Length && i < old(buf.Length) ==> buf[i] == old(buf[i])
      ensures old(length) < newSize <= old(buf.Length) || newSize <= old(buf.Length) < newSize + 64 ==> buf == old(buf)
      ensures newSize <= old(length) || newSize > old(buf.Length) ==> newSize <= buf.Length < newSize + 64
    {
      var newCap := RoundUp(newSize, 64);
      RoundUpCovers(newSize, 64, buf.Length);
      if newSize > length {
        if newSize > buf.Length {
          Reallocate(newCap);
        }
      } else if buf.Length != newCap {
        Reallocate(newCap);
      }
      length := newSize;
    }

    /** Like Resize, but never gives memory back. */
    method ResizeNoShrink(newSize: nat)
      requires Valid()
      modifies this
      ensures Valid() && length == newSize && (buf == old(buf) || fresh(buf))
      ensures buf.Length >= old(buf.Length) && forall i :: 0 <= i < old(buf.Length) ==> buf[i] == old(buf[i])
      ensures newSize <= old(buf.Length) ==> buf == old(buf)
      ensures newSize > old(buf.Length) ==> newSize <= buf.Length < newSize + 64
    {
      if newSize > buf.Length {
        RoundUpCovers(newSize, 64, buf.Length);
        Reallocate(RoundUp(newSize, 64));
      }
      length := newSize;
    }
  }

  lemma {:induction false} RoundUpCovers(v: nat, f: nat, m: nat)
    requires f == 64
    ensures v <= RoundUp(v, f) < v + f && RoundUp(v, f) % f == 0
    ensures v <= m && m % f == 0 ==> RoundUp(v, f) <= m
  {
  }
}
