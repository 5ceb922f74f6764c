/** The methods of Data (arrow/array/data.go) as runs of the protocol's steps. */
module RefCountMethods {
  import opened Wrappers
  import opened RefCounts

  /** From s, the steps are allowed and lead to t. */
  ghost predicate Steps(s: State, t: State, steps: seq<Action>) {
    AllAllowed(s, steps) && Run(s, steps) == Success(t)
  }

  lemma {:induction false} NoSteps(s: State)
    ensures Steps(s, s, [])
  {
  }

  lemma {:induction false} StepsThen(s: State, t: State, steps: seq<Action>, a: Action)
    requires Inv(s) && Steps(s, t, steps) && Allowed(t, a)
    ensures Inv(t) && Apply(t, a).Success? && Inv(Apply(t, a).value)
    ensures Steps(s, Apply(t, a).value, steps + [a])
  {
    hide Inv, Allowed, Apply;
    RunSafe(s, steps);
    StepSafe(t, a);
    assert Run(t, [a]) == Run(Apply(t, a).value, []) by {
      assert [a][1..] == [];
    }
    RunConcat(s, steps, [a]);
  }

  /** Counts raised by the occurrences in refs. */
  ghost predicate CountsRaised(before: seq<Node>, after: seq<Node>, refs: seq<nat>) {
    && |before| == |after|
    && forall x :: 0 <= x < |before| ==> after[x] == before[x].(count := before[x].count + multiset(refs)[x])
  }

  lemma {:induction false} NoneRaised(nodes: seq<Node>, refs: seq<nat>)
    ensures CountsRaised(nodes, nodes, refs[..0])
  {
  }

  lemma {:induction false} RaiseOne(before: seq<Node>, after: seq<Node>, refs: seq<nat>, i: nat, next: seq<Node>)
    requires i < |refs| && CountsRaised(before, after, refs[..i]) && refs[i] < |after|
    requires next == after[refs[i] := Raised(after[refs[i]])]
    ensures CountsRaised(before, next, refs[..i + 1])
  {
    assert refs[..i + 1] == refs[..i] + [refs[i]];
  }

  lemma {:induction false} RaisedTwice(a: seq<Node>, b: seq<Node>, c: seq<Node>, x: seq<nat>, y: seq<nat>)
    requires CountsRaised(a, b, x) && CountsRaised(b, c, y)
    ensures CountsRaised(a, c, x + y)
  {
  }

  /** Resources that are still alive refer to the same things, and no count went up. */
  ghost predicate OnlyLess(before: seq<Node>, after: seq<Node>) {
    && |before| == |after|
    && forall x :: 0 <= x < |before| ==>
         after[x].count <= before[x].count && (after[x].count > 0 ==> after[x] == before[x].(count := after[x].count))
  }

  /** Every resource has references beyond those in refs. */
  ghost predicate KeptAlive(nodes: seq<Node>, refs: seq<nat>) {
    forall x :: 0 <= x < |nodes| && x in refs ==> nodes[x].count > multiset(refs)[x]
  }

  /** The first i references of refs have been released. */
  ghost predicate Released(before: seq<Node>, after: seq<Node>, refs: seq<nat>, i: nat)
    requires i <= |refs|
  {
    OnlyLess(before, after) && (KeptAlive(before, refs) ==> CountsRaised(after, before, refs[..i]))
  }

  lemma {:induction false} NothingReleased(nodes: seq<Node>, refs: seq<nat>)
    ensures Released(nodes, nodes, refs, 0)
  {
  }

  lemma {:induction false} LessAgain(before: seq<Node>, was: seq<Node>, after: seq<Node>, refs: seq<nat>, i: nat)
    requires i < |refs| && refs[i] < |was| && Released(before, was, refs, i) && OnlyLess(was, after)
    requires was[refs[i]].count > 1 ==> after == was[refs[i] := Lowered(was[refs[i]])]
    ensures Released(before, after, refs, i + 1)
  {
    assert refs[..i + 1] == refs[..i] + [refs[i]];
    assert refs == refs[..i] + [refs[i]] + refs[i + 1..];
  }

  lemma {:induction false} FreedIsLess(nodes: seq<Node>, x: nat)
    requires x < |nodes| && nodes[x].count > 0
    ensures OnlyLess(nodes, nodes[x := Lowered(nodes[x])])
  {
  }

  lemma {:induction false} LessTransitive(a: seq<Node>, b: seq<Node>, c: seq<Node>)
    requires OnlyLess(a, b) && OnlyLess(b, c)
    ensures OnlyLess(a, c)
  {
  }

  /** References held and references stored: each decrement of t uses one up. */
  ghost function Weight(s: State, t: nat): nat
    requires t < |s.threads|
  {
    |s.threads[t].held| + Stored(s.nodes, |s.nodes|)
  }

  ghost function Stored(nodes: seq<Node>, k: nat): nat
    requires k <= |nodes|
  {
    if k == 0 then 0 else Stored(nodes, k - 1) + |nodes[k - 1].Refs()|
  }

  lemma {:induction false} StoredUpdate(nodes: seq<Node>, i: nat, n: Node, k: nat)
    requires i < |nodes| && k <= |nodes|
    ensures k <= i ==> Stored(nodes[i := n], k) == Stored(nodes, k)
    ensures i < k ==> Stored(nodes[i := n], k) + |nodes[i].Refs()| == Stored(nodes, k) + |n.Refs()|
  {
    hide Node.Refs;
    if k > 0 {
      StoredUpdate(nodes, i, n, k - 1);
    }
  }

  lemma {:induction false} ReleaseWeight(s: State, t: nat)
    requires t < |s.threads| && s.threads[t].releases != [] && s.threads[t].releases[0] in s.threads[t].held
    requires ReleaseStep(s, t).Success?
    ensures Weight(ReleaseStep(s, t).value, t) < Weight(s, t)
  {
    var th, s' := s.threads[t], ReleaseStep(s, t).value;
    var x := th.releases[0];
    StoredUpdate(s.nodes, x, s'.nodes[x], |s.nodes|);
    LoweredRefs(s.nodes[x]);
    assert |th.held - multiset{x}| == |th.held| - 1;
  }

  lemma {:induction false} LoweredRefs(n: Node)
    ensures Lowered(n).Refs() == if n.count == 1 then [] else n.Refs()
  {
  }

  /** An operation that is not about to start releasing from an object may always go on. */
  lemma {:induction false} AdvanceAllowed(s: State, t: nat)
    requires t < |s.threads| && !s.threads[t].Idle()
    requires s.threads[t].releases == [] && s.threads[t].retains == [] && Target(s.threads[t].next) != {} ==>
      forall u :: 0 <= u < |s.threads| && u != t ==> s.threads[t].next.d !in s.threads[u].via
    ensures Allowed(s, Advance(t))
  {
  }

  class Resources {
    var nodes: seq<Node>
    ghost var threads: seq<Thread>

    ghost function Now(): State
      reads this
    {
      State(nodes, threads)
    }

    constructor (ghost n: nat)
      ensures Now() == Start(n) && Inv(Now())
    {
      nodes := [];
      threads := seq(n, i => NOBODY);
      new;
      StartInv(n);
    }

    /** One atomic Retain of the operation that t runs, as the next step of a run that began in s. */
    method RetainOne(ghost t: nat, x: nat, ghost s: State, ghost before: seq<Action>) returns (ghost steps: seq<Action>)
      requires Inv(s) && Steps(s, Now(), before) && t < |threads|
      requires threads[t].releases == [] && threads[t].retains != [] && threads[t].retains[0] == x
      modifies this
      ensures Inv(Now()) && Steps(s, Now(), steps)
      ensures x < |old(nodes)| && nodes == old(nodes)[x := Raised(old(nodes)[x])]
      ensures threads == old(threads)[t :=
        old(threads)[t].(held := old(threads)[t].held + multiset{x}, retains := old(threads)[t].retains[1..])]
    {
      hide Inv, Allowed, Steps;
      AdvanceAllowed(Now(), t);
      StepsThen(s, Now(), before, Advance(t));
      steps := before + [Advance(t)];
      nodes := nodes[x := Raised(nodes[x])];
      threads := threads[t := threads[t].(held := threads[t].held + multiset{x}, retains := threads[t].retains[1..])];
    }

    /** A loop that retains every reference of a list; rest is still to be retained after it. */
    method RetainAll(ghost t: nat, refs: seq<nat>, ghost rest: seq<nat>, ghost s: State, ghost before: seq<Action>)
      returns (ghost steps: seq<Action>)
      requires Inv(s) && Inv(Now()) && Steps(s, Now(), before) && t < |threads|
      requires threads[t].releases == [] && threads[t].retains == refs + rest
      modifies this
      ensures Inv(Now()) && Steps(s, Now(), steps)
      ensures CountsRaised(old(nodes), nodes, refs)
      ensures threads == old(threads)[t :=
        old(threads)[t].(held := old(threads)[t].held + multiset(refs), retains := rest)]
    {
      hide Inv, Steps, CountsRaised;
      steps := before;
      NoneRaised(nodes, refs);
      ghost var th := threads[t];
      WholeList(th.held, refs, rest);
      for i := 0 to |refs|
        invariant Inv(Now()) && Steps(s, Now(), steps)
        invariant CountsRaised(old(nodes), nodes, refs[..i])
        invariant threads == old(threads)[t := th.(held := th.held + multiset(refs[..i]), retains := refs[i..] + rest)]
      {
        ghost var was := nodes;
        NextOfList(refs, rest, i);
        steps := RetainOne(t, refs[i], s, steps);
        RaiseOne(old(nodes), was, refs, i, nodes);
        assert th.held + multiset(refs[..i]) + multiset{refs[i]} == th.held + multiset(refs[..i + 1]);
      }
    }

    /** The end of NewData and NewSliceData. */
    method NewObject(ghost t: nat, buffers: seq<nat>, childData: seq<nat>, ghost s: State, ghost before: seq<Action>)
      returns (d: nat, ghost steps: seq<Action>)
      requires Inv(s) && Steps(s, Now(), before) && t < |threads|
      requires threads[t].releases == [] && threads[t].retains == []
      requires threads[t].next == Publish(buffers, childData)
            || (threads[t].next.PublishSlice? && threads[t].next.d < |nodes| && nodes[threads[t].next.d].count > 0
                && nodes[threads[t].next.d].buffers == buffers && nodes[threads[t].next.d].childData == childData)
      modifies this
      ensures Inv(Now()) && Steps(s, Now(), steps)
      ensures d == |old(nodes)| && nodes == old(nodes) + [NewNode(buffers, childData)]
      ensures threads == old(threads)[t := old(threads)[t].(owned := old(threads)[t].owned + multiset{d},
        held := old(threads)[t].held - multiset(buffers + childData), via := {}, next := Nothing)]
    {
      hide Inv, Allowed, Steps;
      AdvanceAllowed(Now(), t);
      StepsThen(s, Now(), before, Advance(t));
      steps := before + [Advance(t)];
      d := |nodes|;
      threads := PublishStep(Now(), t, buffers, childData).threads;
      nodes := nodes + [NewNode(buffers, childData)];
    }

    /** The two loops of NewData, and those of NewSliceData over the same lists. */
    method RetainBoth(ghost t: nat, buffers: seq<nat>, childData: seq<nat>, ghost s: State, ghost before: seq<Action>)
      returns (ghost steps: seq<Action>)
      requires Inv(s) && Inv(Now()) && Steps(s, Now(), before) && t < |threads| && threads[t].held == multiset{}
      requires threads[t].releases == [] && threads[t].retains == buffers + childData
      modifies this
      ensures Inv(Now()) && Steps(s, Now(), steps)
      ensures CountsRaised(old(nodes), nodes, buffers + childData)
      ensures threads == old(threads)[t :=
        old(threads)[t].(held := multiset(buffers + childData), retains := [])]
    {
      hide Inv, Steps, CountsRaised;
      ghost var was := nodes;
      steps := RetainAll(t, buffers, childData, s, before);
      ghost var half := nodes;
      assert childData + [] == childData;
      steps := RetainAll(t, childData, [], s, steps);
      RaisedTwice(was, half, nodes, buffers, childData);
      AllHeld(buffers, childData);
    }

    /** NewData: a new object with one reference, owned by the caller; each occurrence adds one to a count. */
    method NewData(ghost t: nat, buffers: seq<nat>, childData: seq<nat>, ghost via: set<nat>)
      returns (d: nat, ghost steps: seq<Action>)
      requires Inv(Now()) && Allowed(Now(), Begin(t, CallNewData(buffers, childData, via)))
      modifies this
      ensures Inv(Now()) && Steps(old(Now()), Now(), steps)
      ensures d == |old(nodes)| && |nodes| == d + 1 && nodes[d] == NewNode(buffers, childData)
      ensures CountsRaised(old(nodes), nodes[..d], buffers + childData)
      ensures t < |threads| &&
        threads == old(threads)[t := old(threads)[t].(owned := old(threads)[t].owned + multiset{d})]
    {
      hide Inv, Allowed, Steps, CountsRaised;
      ghost var s := Now();
      BeginsIdle(s, t, CallNewData(buffers, childData, via));
      steps := BeginCall(t, CallNewData(buffers, childData, via));
      steps := RetainBoth(t, buffers, childData, s, steps);
      RaisedLength(s.nodes, nodes, buffers + childData);
      ghost var raised := nodes;
      NoneLeft(multiset(buffers + childData));
      d, steps := NewObject(t, buffers, childData, s, steps);
      assert nodes[..d] == raised;
    }

    /** The beginning of a call, which no other goroutine notices. */
    ghost method BeginCall(t: nat, call: Call) returns (steps: seq<Action>)
      requires Inv(Now()) && Allowed(Now(), Begin(t, call))
      modifies `threads
      ensures Inv(Now()) && Steps(old(Now()), Now(), steps)
      ensures t < |old(threads)| && threads == old(threads)[t := Begun(old(threads)[t], call)]
    {
      hide Inv, Allowed, Steps;
      BeginsIdle(Now(), t, call);
      NoSteps(Now());
      StepsThen(Now(), Now(), [], Begin(t, call));
      steps := [] + [Begin(t, call)];
      threads := threads[t := Begun(threads[t], call)];
    }

    /** Reading one list of the object that is sliced. */
    ghost method ReadList(t: nat, s: State, before: seq<Action>) returns (steps: seq<Action>)
      requires Inv(s) && Steps(s, Now(), before) && t < |threads|
      requires threads[t].releases == [] && threads[t].retains == []
      requires threads[t].next.ReadBuffers? || threads[t].next.ReadChildren?
      modifies `threads
      ensures Inv(Now()) && Steps(s, Now(), steps)
      ensures old(threads)[t].next.d < |nodes| && nodes[old(threads)[t].next.d].count > 0
      ensures old(threads)[t].next.ReadBuffers? ==> threads == old(threads)[t := old(threads)[t].(
        retains := nodes[old(threads)[t].next.d].buffers, next := ReadChildren(old(threads)[t].next.d))]
      ensures old(threads)[t].next.ReadChildren? ==> threads == old(threads)[t := old(threads)[t].(
        retains := nodes[old(threads)[t].next.d].childData, next := PublishSlice(old(threads)[t].next.d))]
    {
      hide Inv, Allowed, Steps;
      AdvanceAllowed(Now(), t);
      StepsThen(s, Now(), before, Advance(t));
      steps := before + [Advance(t)];
      threads := NextStep(Now(), t).value.threads;
    }

    /** What NewSliceData does before it makes the object: read each list, then retain what it names. */
    method RetainSliced(ghost t: nat, d: nat, ghost s: State, ghost before: seq<Action>)
      returns (ghost steps: seq<Action>)
      requires Inv(s) && Inv(Now()) && Steps(s, Now(), before) && t < |threads| && threads[t].held == multiset{}
      requires threads[t].releases == [] && threads[t].retains == [] && threads[t].next == ReadBuffers(d) && d < |nodes|
      modifies this
      ensures Inv(Now()) && Steps(s, Now(), steps)
      ensures CountsRaised(old(nodes), nodes, old(nodes)[d].buffers + old(nodes)[d].childData)
      ensures threads == old(threads)[t := old(threads)[t].(
        held := multiset(old(nodes)[d].buffers + old(nodes)[d].childData), next := PublishSlice(d))]
    {
      hide Inv, Steps, CountsRaised;
      ghost var was := nodes;
      ghost var buffers, childData := nodes[d].buffers, nodes[d].childData;
      steps := ReadList(t, s, before);
      assert buffers + [] == buffers && childData + [] == childData;
      steps := RetainAll(t, nodes[d].buffers, [], s, steps);
      RaisedAt(was, nodes, buffers, d);
      ghost var half := nodes;
      steps := ReadList(t, s, steps);
      steps := RetainAll(t, nodes[d].childData, [], s, steps);
      RaisedTwice(was, half, nodes, buffers, childData);
      AllHeld(buffers, childData);
    }

    /** NewSliceData, once its range has been accepted: a new object that refers to what d refers to. */
    method NewSliceData(ghost t: nat, d: nat) returns (o: nat, ghost steps: seq<Action>)
      requires Inv(Now()) && d < |nodes| && Allowed(Now(), Begin(t, CallNewSliceData(d)))
      modifies this
      ensures Inv(Now()) && Steps(old(Now()), Now(), steps)
      ensures o == |old(nodes)| && |nodes| == o + 1
      ensures nodes[o] == NewNode(old(nodes)[d].buffers, old(nodes)[d].childData)
      ensures CountsRaised(old(nodes), nodes[..o], old(nodes)[d].buffers + old(nodes)[d].childData)
      ensures t < |threads| &&
        threads == old(threads)[t := old(threads)[t].(owned := old(threads)[t].owned + multiset{o})]
    {
      hide Inv, Allowed, Steps, CountsRaised;
      ghost var s := Now();
      ghost var refs := nodes[d].buffers + nodes[d].childData;
      BeginsIdle(s, t, CallNewSliceData(d));
      AliveTarget(s, t, d);
      steps := BeginCall(t, CallNewSliceData(d));
      steps := RetainSliced(t, d, s, steps);
      RaisedAt(s.nodes, nodes, refs, d);
      RaisedAlive(s.nodes, nodes, refs, d);
      NoneLeft(multiset(refs));
      ghost var raised := nodes;
      o, steps := NewObject(t, nodes[d].buffers, nodes[d].childData, s, steps);
      assert nodes[..o] == raised;
    }

    /** One decrement by the operation that t runs; a resource that reaches zero releases what it refers to. */
    method ReleaseOne(ghost t: nat, x: nat, ghost rest: seq<nat>, ghost s: State, ghost before: seq<Action>)
      returns (ghost steps: seq<Action>)
      requires Inv(s) && Inv(Now()) && Steps(s, Now(), before) && t < |threads| && threads[t].releases == [x] + rest
      modifies this
      ensures Inv(Now()) && Steps(s, Now(), steps) && x < |old(nodes)|
      ensures threads == old(threads)[t :=
        old(threads)[t].(held := old(threads)[t].held - multiset{x}, releases := rest)]
      ensures OnlyLess(old(nodes), nodes)
      ensures old(nodes)[x].count > 1 ==> nodes == old(nodes)[x := Lowered(old(nodes)[x])]
      ensures Weight(Now(), t) < old(Weight(Now(), t))
      decreases Weight(Now(), t), 0
    {
      hide Inv, Steps, Allowed, Weight, OnlyLess, ReleaseStep;
      ghost var th := threads[t];
      AdvanceAllowed(Now(), t);
      StepsThen(s, Now(), before, Advance(t));
      ReleasingHeld(Now(), t);
      ReleaseWeight(Now(), t);
      Releasing(Now(), t, rest);
      FreedIsLess(nodes, x);
      var n := nodes[x];
      steps := before + [Advance(t)];
      nodes := nodes[x := Lowered(n)];
      ghost var refs := if n.count == 1 then n.Refs() else [];
      threads := threads[t := th.(held := th.held - multiset{x} + multiset(refs), releases := refs + rest)];
      if n.count == 1 {
        ghost var freed := nodes;
        steps := ReleaseAll(t, n.Refs(), rest, s, steps);
        LessTransitive(old(nodes), freed, nodes);
        Returned(th.held - multiset{x}, refs);
      } else {
        assert th.held - multiset{x} + multiset(refs) == th.held - multiset{x} && refs + rest == rest;
      }
    }

    /** The release loops of Release and Reset; rest is still to be released after it. */
    method ReleaseAll(ghost t: nat, refs: seq<nat>, ghost rest: seq<nat>, ghost s: State, ghost before: seq<Action>)
      returns (ghost steps: seq<Action>)
      requires Inv(s) && Inv(Now()) && Steps(s, Now(), before) && t < |threads| && threads[t].releases == refs + rest
      modifies this
      ensures Inv(Now()) && Steps(s, Now(), steps)
      ensures threads == old(threads)[t :=
        old(threads)[t].(held := old(threads)[t].held - multiset(refs), releases := rest)]
      ensures OnlyLess(old(nodes), nodes)
      ensures KeptAlive(old(nodes), refs) ==> CountsRaised(nodes, old(nodes), refs)
      ensures Weight(Now(), t) <= old(Weight(Now(), t))
      decreases Weight(Now(), t), 1
    {
      hide Inv, Steps, Weight, Released;
      steps := before;
      ghost var th := threads[t];
      NothingReleased(nodes, refs);
      WholeReleased(th.held, refs, rest);
      for i := 0 to |refs|
        invariant Inv(Now()) && Steps(s, Now(), steps)
        invariant threads == old(threads)[t := th.(held := th.held - multiset(refs[..i]), releases := refs[i..] + rest)]
        invariant Released(old(nodes), nodes, refs, i)
        invariant Weight(Now(), t) <= old(Weight(Now(), t))
      {
        ghost var was := nodes;
        NextReleased(th.held, refs, rest, i);
        steps := ReleaseOne(t, refs[i], refs[i + 1..] + rest, s, steps);
        LessAgain(old(nodes), was, nodes, refs, i);
      }
      AllReleased(old(nodes), nodes, refs);
    }

    /** Release by a client that owns a reference. */
    method Release(ghost t: nat, x: nat) returns (ghost steps: seq<Action>)
      requires Inv(Now()) && Allowed(Now(), Begin(t, CallRelease(x)))
      modifies this
      ensures Inv(Now()) && Steps(old(Now()), Now(), steps)
      ensures t < |threads| &&
        threads == old(threads)[t := old(threads)[t].(owned := old(threads)[t].owned - multiset{x})]
      ensures OnlyLess(old(nodes), nodes)
    {
      hide Inv, Steps, Allowed, Weight, OnlyLess;
      ghost var s := Now();
      BeginsIdle(s, t, CallRelease(x));
      steps := BeginCall(t, CallRelease(x));
      assert [x] + [] == [x];
      steps := ReleaseOne(t, x, [], s, steps);
      assert multiset{} + multiset{x} - multiset{x} == multiset{};
    }

    /** Reset starts to release the old buffers: the list is loose from now on. */
    method StartBuffers(ghost t: nat, d: nat, ghost s: State, ghost before: seq<Action>)
      returns (ghost steps: seq<Action>)
      requires Inv(s) && Steps(s, Now(), before) && t < |threads| && d < |nodes|
      requires threads[t].releases == [] && threads[t].retains == [] && threads[t].next.OpenBuffers?
      requires threads[t].next.d == d
      requires forall u :: 0 <= u < |threads| && u != t ==> d !in threads[u].via
      modifies this
      ensures Inv(Now()) && Steps(s, Now(), steps)
      ensures nodes == old(nodes)[d := old(nodes)[d].(buffersLoose := true)]
      ensures threads == old(threads)[t := old(threads)[t].(
        held := old(threads)[t].held + multiset(nodes[d].buffers), releases := nodes[d].buffers,
        next := AssignBuffers(d, old(threads)[t].next.buffers, old(threads)[t].next.childData))]
    {
      hide Inv, Steps, Allowed;
      AdvanceAllowed(Now(), t);
      StepsThen(s, Now(), before, Advance(t));
      steps := before + [Advance(t)];
      threads := NextStep(Now(), t).value.threads;
      nodes := nodes[d := nodes[d].(buffersLoose := true)];
    }

    /** d.buffers = buffers */
    method SetBuffers(ghost t: nat, d: nat, buffers: seq<nat>, ghost s: State, ghost before: seq<Action>)
      returns (ghost steps: seq<Action>)
      requires Inv(s) && Steps(s, Now(), before) && t < |threads| && d < |nodes|
      requires threads[t].releases == [] && threads[t].retains == []
      requires threads[t].next.AssignBuffers? && threads[t].next.d == d && threads[t].next.buffers == buffers
      requires forall u :: 0 <= u < |threads| && u != t ==> d !in threads[u].via
      modifies this
      ensures Inv(Now()) && Steps(s, Now(), steps)
      ensures nodes == old(nodes)[d := old(nodes)[d].(buffers := buffers, buffersLoose := false)]
      ensures threads == old(threads)[t := old(threads)[t].(
        held := old(threads)[t].held - multiset(buffers), retains := old(threads)[t].next.childData,
        next := OpenChildren(d, old(threads)[t].next.childData))]
    {
      hide Inv, Steps, Allowed;
      AdvanceAllowed(Now(), t);
      StepsThen(s, Now(), before, Advance(t));
      steps := before + [Advance(t)];
      threads := NextStep(Now(), t).value.threads;
      nodes := nodes[d := nodes[d].(buffers := buffers, buffersLoose := false)];
    }

    /** Reset starts to release the old children. */
    method StartChildren(ghost t: nat, d: nat, ghost s: State, ghost before: seq<Action>)
      returns (ghost steps: seq<Action>)
      requires Inv(s) && Steps(s, Now(), before) && t < |threads| && d < |nodes|
      requires threads[t].releases == [] && threads[t].retains == [] && threads[t].next.OpenChildren?
      requires threads[t].next.d == d
      requires forall u :: 0 <= u < |threads| && u != t ==> d !in threads[u].via
      modifies this
      ensures Inv(Now()) && Steps(s, Now(), steps)
      ensures nodes == old(nodes)[d := old(nodes)[d].(childDataLoose := true)]
      ensures threads == old(threads)[t := old(threads)[t].(
        held := old(threads)[t].held + multiset(nodes[d].childData), releases := nodes[d].childData,
        next := AssignChildren(d, old(threads)[t].next.childData))]
    {
      hide Inv, Steps, Allowed;
      AdvanceAllowed(Now(), t);
      StepsThen(s, Now(), before, Advance(t));
      steps := before + [Advance(t)];
      threads := NextStep(Now(), t).value.threads;
      nodes := nodes[d := nodes[d].(childDataLoose := true)];
    }

    /** d.childData = childData */
    method SetChildren(ghost t: nat, d: nat, childData: seq<nat>, ghost s: State, ghost before: seq<Action>)
      returns (ghost steps: seq<Action>)
      requires Inv(s) && Steps(s, Now(), before) && t < |threads| && d < |nodes|
      requires threads[t].releases == [] && threads[t].retains == []
      requires threads[t].next.AssignChildren? && threads[t].next.d == d && threads[t].next.childData == childData
      requires forall u :: 0 <= u < |threads| && u != t ==> d !in threads[u].via
      modifies this
      ensures Inv(Now()) && Steps(s, Now(), steps)
      ensures nodes == old(nodes)[d := old(nodes)[d].(childData := childData, childDataLoose := false)]
      ensures threads == old(threads)[t := old(threads)[t].(
        held := old(threads)[t].held - multiset(childData), via := {}, next := Nothing)]
    {
      hide Inv, Steps, Allowed;
      AdvanceAllowed(Now(), t);
      StepsThen(s, Now(), before, Advance(t));
      steps := before + [Advance(t)];
      threads := NextStep(Now(), t).value.threads;
      nodes := nodes[d := nodes[d].(childData := childData, childDataLoose := false)];
    }

    /** The release loop of Reset over the old list. */
    method ReleaseBuffers(ghost t: nat, d: nat, ghost s: State, ghost before: seq<Action>)
      returns (ghost steps: seq<Action>)
      requires Inv(s) && Inv(Now()) && Steps(s, Now(), before) && t < |threads| && d < |nodes| && d in threads[t].owned
      requires threads[t].releases == [] && threads[t].retains == [] && threads[t].next.OpenBuffers?
      requires threads[t].next.d == d
      requires forall u :: 0 <= u < |threads| && u != t ==> d !in threads[u].via
      modifies this
      ensures Inv(Now()) && Steps(s, Now(), steps)
      ensures |nodes| == |old(nodes)| && nodes[d] == old(nodes)[d].(count := nodes[d].count, buffersLoose := true)
      ensures threads == old(threads)[t := old(threads)[t].(
        next := AssignBuffers(d, old(threads)[t].next.buffers, old(threads)[t].next.childData))]
      ensures KeptAlive(old(nodes)[d := old(nodes)[d].(buffersLoose := true)], old(nodes)[d].buffers) ==>
        CountsRaised(nodes, old(nodes)[d := old(nodes)[d].(buffersLoose := true)], old(nodes)[d].buffers)
    {
      hide Inv, Steps, CountsRaised, OnlyLess, KeptAlive, Weight;
      ghost var th := threads[t];
      steps := StartBuffers(t, d, s, before);
      ghost var loose := nodes;
      var olds := nodes[d].buffers;
      assert olds + [] == olds;
      steps := ReleaseAll(t, olds, [], s, steps);
      OwnerAlive(Now(), t, d);
      LessAt(loose, nodes, d);
      Returned(th.held, olds);
    }

    /** The first half of Reset: retain the new buffers, release the old ones, assign. */
    method ResetBuffers(ghost t: nat, d: nat, buffers: seq<nat>, ghost s: State, ghost before: seq<Action>)
      returns (ghost steps: seq<Action>)
      requires Inv(s) && Inv(Now()) && Steps(s, Now(), before) && t < |threads| && d < |nodes|
      requires threads[t].releases == [] && threads[t].retains == buffers && threads[t].held == multiset{}
      requires threads[t].next.OpenBuffers? && threads[t].next.d == d && threads[t].next.buffers == buffers
      requires forall u :: 0 <= u < |threads| && u != t ==> d !in threads[u].via
      modifies this
      ensures Inv(Now()) && Steps(s, Now(), steps)
      ensures |nodes| == |old(nodes)|
      ensures nodes[d] == old(nodes)[d].(count := nodes[d].count, buffers := buffers)
      ensures buffers == old(nodes)[d].buffers ==> nodes == old(nodes)
      ensures threads == old(threads)[t := old(threads)[t].(
        retains := old(threads)[t].next.childData, next := OpenChildren(d, old(threads)[t].next.childData))]
    {
      hide Inv, Steps, CountsRaised, OnlyLess, KeptAlive, Weight;
      ghost var was, th := nodes, threads[t];
      OwnedTarget(Now(), t);
      ListAlive(Now(), d);
      assert buffers + [] == buffers;
      steps := RetainAll(t, buffers, [], s, before);
      RaisedAt(was, nodes, buffers, d);
      ghost var raised := nodes;
      steps := ReleaseBuffers(t, d, s, steps);
      if buffers == was[d].buffers {
        HalfReset(was, raised, raised[d := raised[d].(buffersLoose := true)], nodes, d, buffers);
      }
      Returned(th.held, buffers);
      steps := SetBuffers(t, d, buffers, s, steps);
    }

    /** The release loop of Reset over the old list. */
    method ReleaseChildren(ghost t: nat, d: nat, ghost s: State, ghost before: seq<Action>)
      returns (ghost steps: seq<Action>)
      requires Inv(s) && Inv(Now()) && Steps(s, Now(), before) && t < |threads| && d < |nodes| && d in threads[t].owned
      requires threads[t].releases == [] && threads[t].retains == [] && threads[t].next.OpenChildren?
      requires threads[t].next.d == d
      requires forall u :: 0 <= u < |threads| && u != t ==> d !in threads[u].via
      modifies this
      ensures Inv(Now()) && Steps(s, Now(), steps)
      ensures |nodes| == |old(nodes)| && nodes[d] == old(nodes)[d].(count := nodes[d].count, childDataLoose := true)
      ensures threads == old(threads)[t := old(threads)[t].(next := AssignChildren(d, old(threads)[t].next.childData))]
      ensures KeptAlive(old(nodes)[d := old(nodes)[d].(childDataLoose := true)], old(nodes)[d].childData) ==>
        CountsRaised(nodes, old(nodes)[d := old(nodes)[d].(childDataLoose := true)], old(nodes)[d].childData)
    {
      hide Inv, Steps, CountsRaised, OnlyLess, KeptAlive, Weight;
      ghost var th := threads[t];
      steps := StartChildren(t, d, s, before);
      ghost var loose := nodes;
      var olds := nodes[d].childData;
      assert olds + [] == olds;
      steps := ReleaseAll(t, olds, [], s, steps);
      OwnerAlive(Now(), t, d);
      LessAt(loose, nodes, d);
      Returned(th.held, olds);
    }

    /** The second half of Reset: the same for the children. */
    method ResetChildren(ghost t: nat, d: nat, childData: seq<nat>, ghost s: State, ghost before: seq<Action>)
      returns (ghost steps: seq<Action>)
      requires Inv(s) && Inv(Now()) && Steps(s, Now(), before) && t < |threads| && d < |nodes|
      requires threads[t].releases == [] && threads[t].retains == childData && threads[t].held == multiset{}
      requires threads[t].next.OpenChildren? && threads[t].next.d == d && threads[t].next.childData == childData
      requires forall u :: 0 <= u < |threads| && u != t ==> d !in threads[u].via
      modifies this
      ensures Inv(Now()) && Steps(s, Now(), steps)
      ensures |nodes| == |old(nodes)|
      ensures nodes[d] == old(nodes)[d].(count := nodes[d].count, childData := childData)
      ensures childData == old(nodes)[d].childData ==> nodes == old(nodes)
      ensures threads == old(threads)[t := old(threads)[t].(retains := [], via := {}, next := Nothing)]
    {
      hide Inv, Steps, CountsRaised, OnlyLess, KeptAlive, Weight;
      ghost var was, th := nodes, threads[t];
      OwnedTarget(Now(), t);
      ListAlive(Now(), d);
      assert childData + [] == childData;
      steps := RetainAll(t, childData, [], s, before);
      RaisedAt(was, nodes, childData, d);
      ghost var raised := nodes;
      steps := ReleaseChildren(t, d, s, steps);
      if childData == was[d].childData {
        HalfReset(was, raised, raised[d := raised[d].(childDataLoose := true)], nodes, d, childData);
      }
      Returned(th.held, childData);
      steps := SetChildren(t, d, childData, s, steps);
    }

    /**
     Reset, in the order of the source. Other operations may go on in between its
     steps; here it runs alone. Reset to what the object names already, nothing
     changes.
     */
    method Reset(ghost t: nat, d: nat, buffers: seq<nat>, childData: seq<nat>, ghost via: set<nat>)
      returns (ghost steps: seq<Action>)
      requires Inv(Now()) && d < |nodes| && Allowed(Now(), Begin(t, CallReset(d, buffers, childData, via)))
      requires forall u :: 0 <= u < |threads| && u != t ==> d !in threads[u].via
      modifies this
      ensures Inv(Now()) && Steps(old(Now()), Now(), steps)
      ensures threads == old(threads)
      ensures |nodes| == |old(nodes)|
      ensures nodes[d] == old(nodes)[d].(count := nodes[d].count, buffers := buffers, childData := childData)
      ensures buffers == old(nodes)[d].buffers && childData == old(nodes)[d].childData ==> nodes == old(nodes)
    {
      hide Inv, Steps, Allowed;
      BeginsIdle(Now(), t, CallReset(d, buffers, childData, via));
      ghost var s := Now();
      steps := BeginCall(t, CallReset(d, buffers, childData, via));
      steps := ResetBuffers(t, d, buffers, s, steps);
      steps := ResetChildren(t, d, childData, s, steps);
      assert threads == s.threads[t := s.threads[t]];
    }
  }

  /** What d refers to is alive. */
  lemma {:induction false} ListAlive(s: State, d: nat)
    requires Inv(s) && d < |s.nodes| && !s.nodes[d].Loose()
    ensures forall x :: x in s.nodes[d].buffers || x in s.nodes[d].childData ==> x < |s.nodes| && s.nodes[x].count > 0
  {
    hide Inv;
    forall x | x in s.nodes[d].buffers || x in s.nodes[d].childData
      ensures x < |s.nodes| && s.nodes[x].count > 0
    {
      OwnAlive(s, d, x);
    }
  }

  lemma {:induction false} OwnerAlive(s: State, t: nat, d: nat)
    requires Inv(s) && t < |s.threads| && d in s.threads[t].owned
    ensures d < |s.nodes| && s.nodes[d].count > 0
  {
    hide Inv;
    HeldAlive(s, t, d);
  }

  lemma {:induction false} LessAt(before: seq<Node>, after: seq<Node>, d: nat)
    requires OnlyLess(before, after) && d < |after| && after[d].count > 0
    ensures |after| == |before| && after[d] == before[d].(count := after[d].count)
  {
  }

  /** Retaining and releasing the same references leaves every count as it was. */
  lemma {:induction false} HalfReset(was: seq<Node>, raised: seq<Node>, loose: seq<Node>, after: seq<Node>, d: nat,
    refs: seq<nat>)
    requires CountsRaised(was, raised, refs) && d < |raised| == |loose| && loose == raised[d := loose[d]]
    requires loose[d].count == raised[d].count
    requires KeptAlive(loose, refs) ==> CountsRaised(after, loose, refs)
    requires forall x :: x in refs ==> x < |was| && was[x].count > 0
    ensures after == was[d := loose[d].(count := was[d].count)]
  {
    assert KeptAlive(loose, refs);
  }

  lemma {:induction false} ReleasingHeld(s: State, t: nat)
    requires Inv(s) && t < |s.threads| && s.threads[t].releases != []
    ensures s.threads[t].releases[0] in s.threads[t].held
  {
    hide NodeOk, LooseOk, ResetsApart, ReadsOwned, PhaseOk;
    assert ThreadOk(s.nodes, s.threads[t]);
    ReleaseHeld(s.nodes, s.threads[t]);
  }

  lemma {:induction false} Releasing(s: State, t: nat, rest: seq<nat>)
    requires t < |s.threads| && s.threads[t].releases != [] && Apply(s, Advance(t)).Success?
    requires s.threads[t].releases == [s.threads[t].releases[0]] + rest
    ensures var th, x := s.threads[t], s.threads[t].releases[0];
      && x < |s.nodes| && s.nodes[x].count > 0 && Apply(s, Advance(t)) == ReleaseStep(s, t)
      && var refs := if s.nodes[x].count == 1 then s.nodes[x].Refs() else [];
         ReleaseStep(s, t).value == State(s.nodes[x := Lowered(s.nodes[x])],
           s.threads[t := th.(held := th.held - multiset{x} + multiset(refs), releases := refs + rest)])
  {
  }

  lemma {:induction false} Returned(held: multiset<nat>, refs: seq<nat>)
    ensures held + multiset(refs) - multiset(refs) == held
  {
  }

  lemma {:induction false} WholeReleased(held: multiset<nat>, refs: seq<nat>, rest: seq<nat>)
    ensures held - multiset(refs[..0]) == held && refs[0..] + rest == refs + rest
    ensures refs[..|refs|] == refs && refs[|refs|..] + rest == rest
  {
  }

  lemma {:induction false} NextReleased(held: multiset<nat>, refs: seq<nat>, rest: seq<nat>, i: nat)
    requires i < |refs|
    ensures refs[i..] + rest == [refs[i]] + (refs[i + 1..] + rest)
    ensures held - multiset(refs[..i]) - multiset{refs[i]} == held - multiset(refs[..i + 1])
  {
    assert refs[..i + 1] == refs[..i] + [refs[i]];
  }

  lemma {:induction false} AllReleased(before: seq<Node>, after: seq<Node>, refs: seq<nat>)
    requires Released(before, after, refs, |refs|)
    ensures OnlyLess(before, after) && (KeptAlive(before, refs) ==> CountsRaised(after, before, refs))
  {
    assert refs[..|refs|] == refs;
  }

  lemma {:induction false} AliveTarget(s: State, t: nat, d: nat)
    requires Inv(s) && Allowed(s, Begin(t, CallNewSliceData(d)))
    ensures d < |s.nodes| && s.nodes[d].count > 0
  {
    hide Inv;
    HeldAlive(s, t, d);
  }

  lemma {:induction false} RaisedAlive(before: seq<Node>, after: seq<Node>, refs: seq<nat>, d: nat)
    requires CountsRaised(before, after, refs) && d < |before|
    ensures |after| == |before| && after[d].count >= before[d].count
  {
  }

  lemma {:induction false} AllHeld(buffers: seq<nat>, childData: seq<nat>)
    ensures multiset{} + multiset(buffers) + multiset(childData) == multiset(buffers + childData)
  {
  }

  lemma {:induction false} NoneLeft(held: multiset<nat>)
    ensures held - held == multiset{}
  {
  }

  lemma {:induction false} NextOfList(refs: seq<nat>, rest: seq<nat>, i: nat)
    requires i < |refs|
    ensures (refs[i..] + rest)[0] == refs[i] && (refs[i..] + rest)[1..] == refs[i + 1..] + rest
    ensures refs[..i + 1] == refs[..i] + [refs[i]]
  {
  }

  lemma {:induction false} WholeList(held: multiset<nat>, refs: seq<nat>, rest: seq<nat>)
    ensures held + multiset(refs[..0]) == held && refs[0..] + rest == refs + rest
    ensures refs[..|refs|] == refs && refs[|refs|..] + rest == rest
  {
  }

  /** A call begins in a goroutine that runs nothing else. */
  lemma {:induction false} BeginsIdle(s: State, t: nat, call: Call)
    requires Inv(s) && Allowed(s, Begin(t, call))
    ensures t < |s.threads| && s.threads[t].Idle() && s.threads[t].held == multiset{} && s.threads[t].via == {}
  {
    hide Inv, MayBegin;
    IdleThread(s, t);
  }

  lemma {:induction false} RaisedAt(before: seq<Node>, after: seq<Node>, refs: seq<nat>, d: nat)
    requires CountsRaised(before, after, refs) && d < |before|
    ensures |after| == |before| && after[d] == before[d].(count := after[d].count)
  {
  }

  lemma {:induction false} RaisedLength(before: seq<Node>, after: seq<Node>, refs: seq<nat>)
    requires CountsRaised(before, after, refs)
    ensures |before| == |after|
  {
  }
}
