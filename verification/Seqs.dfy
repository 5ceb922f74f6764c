/** Sequences of sequences laid end to end: the shape of chunks, gathered buffers and gathered children. */
module Seqs {

  function Flatten<T>(ss: seq<seq<T>>): seq<T> {
    if ss == [] then [] else ss[0] + Flatten(ss[1..])
  }

  /** The position in Flatten(ss) at which ss[k] starts. */
  function Start<T>(ss: seq<seq<T>>, k: nat): (n: nat)
    requires k <= |ss|
    ensures k == 0 ==> n == 0
    decreases k
  {
    if k == 0 then 0 else |ss[0]| + Start(ss[1..], k - 1)
  }

  lemma {:induction false} FlattenLength<T>(ss: seq<seq<T>>)
    ensures |Flatten(ss)| == Start(ss, |ss|)
  {
    if ss != [] {
      FlattenLength(ss[1..]);
    }
  }

  lemma {:induction false} StartNext<T>(ss: seq<seq<T>>, k: nat)
    requires k < |ss|
    ensures Start(ss, k + 1) == Start(ss, k) + |ss[k]|
  {
    if k > 0 {
      StartNext(ss[1..], k - 1);
    }
  }

  lemma {:induction false} StartMonotone<T>(ss: seq<seq<T>>, j: nat, k: nat)
    requires j <= k <= |ss|
    ensures Start(ss, j) <= Start(ss, k)
    decreases k
  {
    if j < k {
      StartNext(ss, k - 1);
      StartMonotone(ss, j, k - 1);
    }
  }

  /** Element j of piece k sits at Start(ss, k) + j. */
  lemma {:induction false} FlattenAt<T>(ss: seq<seq<T>>, k: nat, j: nat)
    requires k < |ss| && j < |ss[k]|
    ensures Start(ss, k) + j < |Flatten(ss)| && Flatten(ss)[Start(ss, k) + j] == ss[k][j]
  {
    if k > 0 {
      FlattenAt(ss[1..], k - 1, j);
    }
  }

  /** Every position of the whole lies in exactly one piece. */
  lemma {:induction false} Locate<T>(ss: seq<seq<T>>, m: nat) returns (k: nat, j: nat)
    requires m < |Flatten(ss)|
    ensures k < |ss| && j < |ss[k]| && m == Start(ss, k) + j
  {
    if m < |ss[0]| {
      k, j := 0, m;
    } else {
      k, j := Locate(ss[1..], m - |ss[0]|);
      k := k + 1;
    }
  }

  lemma {:induction false} ConcatAssociative<T>(a: seq<T>, b: seq<T>, c: seq<T>)
    ensures a + (b + c) == (a + b) + c
  {
  }

  lemma {:induction false} FlattenConcat<T>(x: seq<seq<T>>, y: seq<seq<T>>)
    ensures Flatten(x + y) == Flatten(x) + Flatten(y)
  {
    if x == [] {
      assert x + y == y;
    } else {
      FlattenConcat(x[1..], y);
      assert (x + y)[0] == x[0] && (x + y)[1..] == x[1..] + y;
      ConcatAssociative(x[0], Flatten(x[1..]), Flatten(y));
    }
  }

  lemma {:induction false} FlattenSnoc<T>(ss: seq<seq<T>>, s: seq<T>)
    ensures Flatten(ss + [s]) == Flatten(ss) + s
  {
    FlattenConcat(ss, [s]);
    assert Flatten([s]) == s + Flatten([]);
  }

  lemma {:induction false} StartPrefix<T>(ss: seq<seq<T>>, k: nat)
    requires k <= |ss|
    ensures Start(ss, k) == |Flatten(ss[..k])|
  {
    if k > 0 {
      StartPrefix(ss[1..], k - 1);
      assert ss[..k][1..] == ss[1..][..k - 1];
    }
  }

  /** The slice of the whole that piece k covers is piece k. */
  lemma {:induction false} FlattenPiece<T>(ss: seq<seq<T>>, k: nat)
    requires k < |ss|
    ensures Start(ss, k) + |ss[k]| <= |Flatten(ss)|
    ensures Flatten(ss)[Start(ss, k)..Start(ss, k) + |ss[k]|] == ss[k]
  {
    assert ss == ss[..k] + ([ss[k]] + ss[k + 1..]);
    FlattenConcat(ss[..k], [ss[k]] + ss[k + 1..]);
    StartPrefix(ss, k);
  }

  /** A range of a range is a range. */
  lemma {:induction false} RangeOfRange<T>(s: seq<T>, at: nat, n: nat, from: nat, len: nat)
    requires at + n <= |s| && from + len <= n
    ensures s[at..at + n][from..from + len] == s[at + from..at + from + len]
  {
    var x, y := s[at..at + n][from..from + len], s[at + from..at + from + len];
    assert forall k :: 0 <= k < len ==> x[k] == y[k];
  }

  /** Pieces all n times as long start n times as far. */
  lemma {:induction false} ScaledStarts<S, T>(ss: seq<seq<S>>, ts: seq<seq<T>>, n: nat, k: nat)
    requires k <= |ss| == |ts|
    requires forall i :: 0 <= i < k ==> |ts[i]| == n * |ss[i]|
    ensures Start(ts, k) == n * Start(ss, k)
  {
    if k > 0 {
      ScaledStarts(ss, ts, n, k - 1);
      StartNext(ss, k - 1);
      StartNext(ts, k - 1);
    }
  }
}
