/**
 Reference counting of array data (arrow/array/data.go) as a protocol of atomic
 steps of several goroutines.

 Resources are the allocated buffers and the Data objects, numbered as they are
 created. A call of Release, NewData, NewSliceData or Reset is a series of atomic
 steps on the counts and on the lists of an object, in the order of the source;
 the steps of different goroutines interleave in any order.
 */
module RefCounts {
  import opened Wrappers

  /**
   A resource: its reference count, what a Data refers to (a buffer refers to
   nothing), and how often it was freed. A list is loose while Reset releases
   what it names: the object still names these resources, and has given up its
   references to them.
   */
  datatype Node = Node(count: int, buffers: seq<nat>, childData: seq<nat>, frees: nat,
                       buffersLoose: bool, childDataLoose: bool) {
    /** The references that the object holds. */
    function Refs(): seq<nat> {
      (if buffersLoose then [] else buffers) + (if childDataLoose then [] else childData)
    }

    predicate Loose() {
      buffersLoose || childDataLoose
    }
  }

  function NewNode(buffers: seq<nat>, childData: seq<nat>): Node {
    Node(1, buffers, childData, 0, false, false)
  }

  /** What an operation does once its loop over retains or releases has ended. */
  datatype Next =
    | Nothing
    | Publish(buffers: seq<nat>, childData: seq<nat>)                  // NewData returns the new object
    | ReadBuffers(d: nat)                                              // NewSliceData ranges over data.buffers,
    | ReadChildren(d: nat)                                             // then over data.childData,
    | PublishSlice(d: nat)                                             // then reads both again for the new object
    | OpenBuffers(d: nat, buffers: seq<nat>, childData: seq<nat>)      // Reset starts to release d.buffers,
    | AssignBuffers(d: nat, buffers: seq<nat>, childData: seq<nat>)    // assigns d.buffers,
    | OpenChildren(d: nat, childData: seq<nat>)                        // starts to release d.childData,
    | AssignChildren(d: nat, childData: seq<nat>)                      // assigns d.childData

  /**
   A goroutine. owned: references that it has to give back. held: references of
   its unfinished operation, either retained for an object or taken out of one.
   via: the objects that the operation reads. First it goes through releases,
   then through retains, then it does next.
   */
  datatype Thread = Thread(owned: multiset<nat>, held: multiset<nat>, via: set<nat>,
                           releases: seq<nat>, retains: seq<nat>, next: Next) {
    predicate Idle() {
      releases == [] && retains == [] && next.Nothing?
    }

    function Has(x: nat): nat {
      owned[x] + held[x]
    }
  }

  datatype State = State(nodes: seq<Node>, threads: seq<Thread>)

  /** What NewData and Reset are given is owned by the caller, or named by an object in via (by d itself, for Reset). */
  datatype Call =
    | CallRelease(x: nat)
    | CallNewData(buffers: seq<nat>, childData: seq<nat>, via: set<nat>)
    | CallNewSliceData(d: nat)
    | CallReset(d: nat, buffers: seq<nat>, childData: seq<nat>, via: set<nat>)

  datatype Action =
    | Allocate(t: nat)                    // a new buffer
    | Retain(t: nat, x: nat)              // Retain called by a client
    | HandOver(t: nat, to: nat, x: nat)   // a reference is passed to another goroutine
    | Begin(t: nat, call: Call)
    | Advance(t: nat)                     // the next atomic step of the operation that t runs

  // ---------------------------------------------------------------- the steps

  function Touch(s: State, x: nat): Result<State> {
    if x >= |s.nodes| then Failure("no such resource")
    else if s.nodes[x].count <= 0 then Failure("used after being freed")
    else Success(s)
  }

  function WithThread(s: State, t: nat, th: Thread): State
    requires t < |s.threads|
  {
    s.(threads := s.threads[t := th])
  }

  function WithNode(s: State, x: nat, n: Node, t: nat, th: Thread): State
    requires x < |s.nodes| && t < |s.threads|
  {
    State(s.nodes[x := n], s.threads[t := th])
  }

  /** atomic.AddInt64(&refCount, 1) */
  function Raised(n: Node): Node {
    n.(count := n.count + 1)
  }

  /** The decrement; at zero the resource is freed. */
  function Lowered(n: Node): Node {
    if n.count == 1 then Node(0, [], [], n.frees + 1, false, false) else n.(count := n.count - 1)
  }

  /** A freed resource leaves its references to be released first. */
  function ReleaseStep(s: State, t: nat): Result<State>
    requires t < |s.threads| && s.threads[t].releases != []
  {
    var th := s.threads[t];
    var x := th.releases[0];
    if Touch(s, x).Failure? then Touch(s, x)
    else
      var refs := if s.nodes[x].count == 1 then s.nodes[x].Refs() else [];
      Success(WithNode(s, x, Lowered(s.nodes[x]), t,
        th.(held := th.held - multiset{x} + multiset(refs), releases := refs + th.releases[1..])))
  }

  function RetainStep(s: State, t: nat): Result<State>
    requires t < |s.threads| && s.threads[t].retains != []
  {
    var th := s.threads[t];
    var x := th.retains[0];
    if Touch(s, x).Failure? then Touch(s, x)
    else Success(WithNode(s, x, Raised(s.nodes[x]), t,
      th.(held := th.held + multiset{x}, retains := th.retains[1..])))
  }

  /** The operation ends with a new object, which the caller owns. */
  function PublishStep(s: State, t: nat, buffers: seq<nat>, childData: seq<nat>): State
    requires t < |s.threads|
  {
    var th := s.threads[t];
    State(s.nodes + [NewNode(buffers, childData)], s.threads[t := th.(
      owned := th.owned + multiset{|s.nodes|}, held := th.held - multiset(buffers + childData), via := {},
      next := Nothing)])
  }

  function NextStep(s: State, t: nat): Result<State>
    requires t < |s.threads|
  {
    var th := s.threads[t];
    match th.next
    case Nothing => Failure("nothing to do")
    case Publish(buffers, childData) => Success(PublishStep(s, t, buffers, childData))
    case ReadBuffers(d) =>
      if Touch(s, d).Failure? then Touch(s, d)
      else Success(WithThread(s, t, th.(retains := s.nodes[d].buffers, next := ReadChildren(d))))
    case ReadChildren(d) =>
      if Touch(s, d).Failure? then Touch(s, d)
      else Success(WithThread(s, t, th.(retains := s.nodes[d].childData, next := PublishSlice(d))))
    case PublishSlice(d) =>
      if Touch(s, d).Failure? then Touch(s, d)
      else Success(PublishStep(s, t, s.nodes[d].buffers, s.nodes[d].childData))
    case OpenBuffers(d, buffers, childData) =>
      if Touch(s, d).Failure? then Touch(s, d)
      else Success(WithNode(s, d, s.nodes[d].(buffersLoose := true), t,
        th.(held := th.held + multiset(s.nodes[d].buffers), releases := s.nodes[d].buffers,
            next := AssignBuffers(d, buffers, childData))))
    case AssignBuffers(d, buffers, childData) =>
      if Touch(s, d).Failure? then Touch(s, d)
      else Success(WithNode(s, d, s.nodes[d].(buffers := buffers, buffersLoose := false), t,
        th.(held := th.held - multiset(buffers), retains := childData, next := OpenChildren(d, childData))))
    case OpenChildren(d, childData) =>
      if Touch(s, d).Failure? then Touch(s, d)
      else Success(WithNode(s, d, s.nodes[d].(childDataLoose := true), t,
        th.(held := th.held + multiset(s.nodes[d].childData), releases := s.nodes[d].childData,
            next := AssignChildren(d, childData))))
    case AssignChildren(d, childData) =>
      if Touch(s, d).Failure? then Touch(s, d)
      else Success(WithNode(s, d, s.nodes[d].(childData := childData, childDataLoose := false), t,
        th.(held := th.held - multiset(childData), via := {}, next := Nothing)))
  }

  function Begun(th: Thread, call: Call): Thread {
    match call
    case CallRelease(x) => th.(owned := th.owned - multiset{x}, held := th.held + multiset{x}, releases := [x])
    case CallNewData(buffers, childData, via) =>
      th.(via := via, retains := buffers + childData, next := Publish(buffers, childData))
    case CallNewSliceData(d) => th.(via := {d}, next := ReadBuffers(d))
    case CallReset(d, buffers, childData, via) =>
      th.(via := via, retains := buffers, next := OpenBuffers(d, buffers, childData))
  }

  function Apply(s: State, a: Action): Result<State> {
    if a.t >= |s.threads| then Failure("no such goroutine")
    else
      var th := s.threads[a.t];
      match a
      case Allocate(t) =>
        Success(State(s.nodes + [NewNode([], [])], s.threads[t := th.(owned := th.owned + multiset{|s.nodes|})]))
      case Retain(t, x) =>
        if Touch(s, x).Failure? then Touch(s, x)
        else Success(WithNode(s, x, Raised(s.nodes[x]), t, th.(owned := th.owned + multiset{x})))
      case HandOver(t, to, x) =>
        if to >= |s.threads| then Failure("no such goroutine")
        else
          var given := WithThread(s, t, th.(owned := th.owned - multiset{x}));
          Success(WithThread(given, to, given.threads[to].(owned := given.threads[to].owned + multiset{x})))
      case Begin(t, call) => Success(WithThread(s, t, Begun(th, call)))
      case Advance(t) =>
        if th.releases != [] then ReleaseStep(s, t)
        else if th.retains != [] then RetainStep(s, t)
        else NextStep(s, t)
  }

  // ---------------------------------------------------------------- the rules

  predicate Names(nodes: seq<Node>, d: nat, x: nat) {
    d < |nodes| && x in nodes[d].Refs()
  }

  /** x is owned, or named by an object in via. */
  ghost predicate Reachable(nodes: seq<Node>, owned: multiset<nat>, via: set<nat>, x: nat) {
    x in owned || exists d :: d in via && Names(nodes, d, x)
  }

  ghost predicate AllReachable(nodes: seq<Node>, owned: multiset<nat>, via: set<nat>, own: seq<nat>, xs: seq<nat>) {
    forall x :: x in xs ==> x in own || Reachable(nodes, owned, via, x)
  }

  /** The object that an unfinished Reset changes. */
  function Target(next: Next): set<nat> {
    match next
    case OpenBuffers(d, _, _) => {d}
    case AssignBuffers(d, _, _) => {d}
    case OpenChildren(d, _) => {d}
    case AssignChildren(d, _) => {d}
    case _ => {}
  }

  /** The object that the next step starts to release from. */
  function Opens(th: Thread): set<nat> {
    if th.releases == [] && th.retains == [] && (th.next.OpenBuffers? || th.next.OpenChildren?) then {th.next.d} else {}
  }

  /** No operation is between the first release and the assignment of a Reset of an object in via. */
  ghost predicate NoneLoose(nodes: seq<Node>, via: set<nat>) {
    forall d :: d in via ==> d < |nodes| && !nodes[d].Loose()
  }

  /** Clients call operations on what they own. Two Resets of an object do not overlap; a loose object is not read. */
  ghost predicate MayBegin(s: State, th: Thread, call: Call) {
    match call
    case CallRelease(x) => x in th.owned
    case CallNewData(buffers, childData, via) =>
      && (forall d :: d in via ==> d in th.owned) && NoneLoose(s.nodes, via)
      && AllReachable(s.nodes, th.owned, via, [], buffers + childData)
    case CallNewSliceData(d) => d in th.owned && NoneLoose(s.nodes, {d})
    case CallReset(d, buffers, childData, via) =>
      && d in th.owned && d !in via && d < |s.nodes|
      && (forall e :: e in via ==> e in th.owned) && NoneLoose(s.nodes, via)
      && (forall u :: 0 <= u < |s.threads| ==> d !in Target(s.threads[u].next))
      && AllReachable(s.nodes, th.owned, via, s.nodes[d].buffers, buffers)
      && AllReachable(s.nodes, th.owned, via, s.nodes[d].childData, childData)
  }

  /** No other goroutine reads an object that t starts to release from. */
  ghost predicate NoOtherReader(s: State, t: nat)
    requires t < |s.threads|
  {
    forall u :: 0 <= u < |s.threads| && u != t ==> s.threads[u].via !! Opens(s.threads[t])
  }

  ghost predicate Allowed(s: State, a: Action) {
    && a.t < |s.threads|
    && var th := s.threads[a.t];
    match a
    case Allocate(_) => th.Idle()
    case Retain(_, x) => th.Idle() && x in th.owned
    case HandOver(_, to, x) => th.Idle() && to < |s.threads| && x in th.owned
    case Begin(_, call) => th.Idle() && MayBegin(s, th, call)
    case Advance(t) => !th.Idle() && NoOtherReader(s, t)
  }

  // ---------------------------------------------------------------- the invariant

  /** How often x occurs among the references of the first k resources. */
  function Occurrences(nodes: seq<Node>, x: nat, k: nat): nat
    requires k <= |nodes|
  {
    if k == 0 then 0 else Occurrences(nodes, x, k - 1) + multiset(nodes[k - 1].Refs())[x]
  }

  /** How many references to x the first k goroutines have. */
  function Holding(threads: seq<Thread>, x: nat, k: nat): nat
    requires k <= |threads|
  {
    if k == 0 then 0 else Holding(threads, x, k - 1) + threads[k - 1].Has(x)
  }

  function Holders(s: State, x: nat): nat {
    Holding(s.threads, x, |s.threads|) + Occurrences(s.nodes, x, |s.nodes|)
  }

  /** A resource has been freed (once) exactly when its count is 0; it names existing resources, and none once freed. */
  ghost predicate NodeShape(n: Node, bound: nat) {
    && n.frees == (if n.count == 0 then 1 else 0)
    && (n.count == 0 ==> n.buffers == [] && n.childData == [] && !n.Loose())
    && forall r :: r in n.Refs() ==> r < bound
  }

  /** The count is exact. */
  ghost predicate NodeOk(s: State, x: nat)
    requires x < |s.nodes|
  {
    s.nodes[x].count == Holders(s, x) && NodeShape(s.nodes[x], |s.nodes|)
  }

  /** The references that next will use up. */
  function Uses(nodes: seq<Node>, next: Next): multiset<nat> {
    match next
    case Publish(buffers, childData) => multiset(buffers + childData)
    case ReadChildren(d) => if d < |nodes| then multiset(nodes[d].buffers) else multiset{}
    case PublishSlice(d) => if d < |nodes| then multiset(nodes[d].buffers + nodes[d].childData) else multiset{}
    case OpenBuffers(_, buffers, _) => multiset(buffers)
    case AssignBuffers(_, buffers, _) => multiset(buffers)
    case OpenChildren(_, childData) => multiset(childData)
    case AssignChildren(_, childData) => multiset(childData)
    case _ => multiset{}
  }

  /** What is held, with what will be retained, is what will be released and used. */
  ghost predicate Balanced(nodes: seq<Node>, th: Thread) {
    && (th.releases == [] || th.retains == [])
    && th.held + multiset(th.retains) == multiset(th.releases) + Uses(nodes, th.next)
  }

  /** What the operation reads is owned, so that it stays, and is not loose. */
  ghost predicate ReadsOwned(nodes: seq<Node>, th: Thread) {
    && (forall x :: x in th.owned || x in th.held ==> x < |nodes|)
    && (forall d :: d in th.via ==> d in th.owned) && NoneLoose(nodes, th.via)
    && (forall d :: d in Target(th.next) ==> d in th.owned && d !in th.via)
  }

  ghost predicate PhaseOk(nodes: seq<Node>, th: Thread) {
    match th.next
    case Nothing => th.via == {} && th.retains == []
    case Publish(_, _) => AllReachable(nodes, th.owned, th.via, [], th.retains)
    case ReadBuffers(d) => d in th.via && th.retains == []
    case ReadChildren(d) => d in th.via && AllReachable(nodes, th.owned, th.via, [], th.retains)
    case PublishSlice(d) => d in th.via && AllReachable(nodes, th.owned, th.via, [], th.retains)
    case OpenBuffers(d, _, childData) =>
      && d < |nodes| && !nodes[d].Loose()
      && AllReachable(nodes, th.owned, th.via, nodes[d].buffers, th.retains)
      && AllReachable(nodes, th.owned, th.via, nodes[d].childData, childData)
    case AssignBuffers(d, _, childData) =>
      && d < |nodes| && nodes[d].buffersLoose && !nodes[d].childDataLoose && th.retains == []
      && AllReachable(nodes, th.owned, th.via, nodes[d].childData, childData)
    case OpenChildren(d, _) =>
      d < |nodes| && !nodes[d].Loose() && AllReachable(nodes, th.owned, th.via, nodes[d].childData, th.retains)
    case AssignChildren(d, _) => d < |nodes| && !nodes[d].buffersLoose && nodes[d].childDataLoose && th.retains == []
  }

  ghost predicate ThreadOk(nodes: seq<Node>, th: Thread) {
    Balanced(nodes, th) && ReadsOwned(nodes, th) && PhaseOk(nodes, th)
  }

  predicate AssignsBuffers(th: Thread, d: nat) {
    th.next.AssignBuffers? && th.next.d == d
  }

  predicate AssignsChildren(th: Thread, d: nat) {
    th.next.AssignChildren? && th.next.d == d
  }

  /** A list is loose only while some Reset is about to assign it. */
  ghost predicate LooseOk(s: State, d: nat)
    requires d < |s.nodes|
  {
    && (s.nodes[d].buffersLoose ==> exists t :: 0 <= t < |s.threads| && AssignsBuffers(s.threads[t], d))
    && (s.nodes[d].childDataLoose ==> exists t :: 0 <= t < |s.threads| && AssignsChildren(s.threads[t], d))
  }

  ghost predicate ResetsApart(threads: seq<Thread>) {
    forall t, u :: 0 <= t < u < |threads| ==> Target(threads[t].next) !! Target(threads[u].next)
  }

  ghost predicate Inv(s: State) {
    && (forall x :: 0 <= x < |s.nodes| ==> NodeOk(s, x) && LooseOk(s, x))
    && (forall t :: 0 <= t < |s.threads| ==> ThreadOk(s.nodes, s.threads[t]))
    && ResetsApart(s.threads)
  }

  // ---------------------------------------------------------------- sums

  lemma {:induction false} OccurrencesUpdate(nodes: seq<Node>, i: nat, n: Node, x: nat, k: nat)
    requires i < |nodes| && k <= |nodes|
    ensures k <= i ==> Occurrences(nodes[i := n], x, k) == Occurrences(nodes, x, k)
    ensures i < k ==>
      Occurrences(nodes[i := n], x, k) + multiset(nodes[i].Refs())[x]
        == Occurrences(nodes, x, k) + multiset(n.Refs())[x]
  {
    hide Node.Refs;
    if k > 0 {
      OccurrencesUpdate(nodes, i, n, x, k - 1);
    }
  }

  lemma {:induction false} OccurrencesAppend(nodes: seq<Node>, n: Node, x: nat, k: nat)
    requires k <= |nodes|
    ensures Occurrences(nodes + [n], x, k) == Occurrences(nodes, x, k)
  {
    hide Node.Refs;
    if k > 0 {
      OccurrencesAppend(nodes, n, x, k - 1);
    }
  }

  lemma {:induction false} HoldingUpdate(threads: seq<Thread>, t: nat, th: Thread, x: nat, k: nat)
    requires t < |threads| && k <= |threads|
    ensures k <= t ==> Holding(threads[t := th], x, k) == Holding(threads, x, k)
    ensures t < k ==> Holding(threads[t := th], x, k) + threads[t].Has(x) == Holding(threads, x, k) + th.Has(x)
  {
    hide Thread.Has;
    if k > 0 {
      HoldingUpdate(threads, t, th, x, k - 1);
    }
  }

  const NOBODY := Thread(multiset{}, multiset{}, {}, [], [], Nothing)

  /** The references of two goroutines are part of all. */
  lemma {:induction false} HoldingTwo(threads: seq<Thread>, t: nat, u: nat, x: nat)
    requires t < |threads| && u < |threads|
    ensures threads[t].Has(x) <= Holding(threads, x, |threads|)
    ensures t != u ==> threads[t].Has(x) + threads[u].Has(x) <= Holding(threads, x, |threads|)
  {
    HoldingUpdate(threads, t, NOBODY, x, |threads|);
    HoldingUpdate(threads[t := NOBODY], u, NOBODY, x, |threads|);
  }

  /** Something occurs only if some resource refers to it. */
  lemma {:induction false} Referrer(nodes: seq<Node>, x: nat, k: nat) returns (d: nat)
    requires k <= |nodes| && Occurrences(nodes, x, k) > 0
    ensures d < k && x in nodes[d].Refs()
  {
    hide Node.Refs;
    if multiset(nodes[k - 1].Refs())[x] > 0 {
      d := k - 1;
    } else {
      d := Referrer(nodes, x, k - 1);
    }
  }

  lemma {:induction false} Occurs(nodes: seq<Node>, x: nat, d: nat, k: nat)
    requires d < k <= |nodes| && x in nodes[d].Refs()
    ensures Occurrences(nodes, x, k) > 0
  {
    hide Node.Refs;
    if d < k - 1 {
      Occurs(nodes, x, d, k - 1);
    } else {
      assert x in multiset(nodes[d].Refs());
    }
  }

  lemma {:induction false} Holder(threads: seq<Thread>, x: nat, k: nat) returns (t: nat)
    requires k <= |threads| && Holding(threads, x, k) > 0
    ensures t < k && threads[t].Has(x) > 0
  {
    if threads[k - 1].Has(x) > 0 {
      t := k - 1;
    } else {
      t := Holder(threads, x, k - 1);
    }
  }

  // ---------------------------------------------------------------- what is alive

  lemma {:induction false} HeldAlive(s: State, t: nat, x: nat)
    requires Inv(s) && t < |s.threads| && s.threads[t].Has(x) > 0
    ensures x < |s.nodes| && s.nodes[x].count > 0
  {
    hide Occurrences, Holding;
    assert ThreadOk(s.nodes, s.threads[t]);
    assert NodeOk(s, x);
    HoldingTwo(s.threads, t, t, x);
  }

  lemma {:induction false} NamedAlive(s: State, d: nat, x: nat)
    requires Inv(s) && Names(s.nodes, d, x)
    ensures x < |s.nodes| && s.nodes[x].count > 0
  {
    hide Holding;
    assert NodeOk(s, d);
    assert NodeOk(s, x);
    Occurs(s.nodes, x, d, |s.nodes|);
  }

  lemma {:induction false} NothingBeyond(s: State, x: nat)
    requires Inv(s) && x >= |s.nodes|
    ensures Holders(s, x) == 0
  {
    if Holding(s.threads, x, |s.threads|) > 0 {
      var t := Holder(s.threads, x, |s.threads|);
      HeldAlive(s, t, x);
      assert false;
    }
    if Occurrences(s.nodes, x, |s.nodes|) > 0 {
      var d := Referrer(s.nodes, x, |s.nodes|);
      NamedAlive(s, d, x);
      assert false;
    }
  }

  /** When one goroutine holds the last reference, nobody owns the resource. */
  lemma {:induction false} LastReference(s: State, t: nat, u: nat, x: nat)
    requires Inv(s) && t < |s.threads| && u < |s.threads| && x in s.threads[t].held
    requires x < |s.nodes| && s.nodes[x].count == 1
    ensures x !in s.threads[u].owned
  {
    hide Occurrences, Holding;
    assert NodeOk(s, x);
    HoldingTwo(s.threads, t, u, x);
  }

  // ---------------------------------------------------------------- what a step may leave alone

  /** Only the count may differ. */
  predicate SameLists(n: Node, n': Node) {
    n' == n.(count := n'.count, frees := n'.frees)
  }

  /** The objects that th reads or resets are as before. */
  ghost predicate Untouched(nodes: seq<Node>, nodes': seq<Node>, th: Thread) {
    && |nodes| <= |nodes'|
    && forall d :: d in th.via || d in Target(th.next) ==> d < |nodes| && SameLists(nodes[d], nodes'[d])
  }

  lemma {:induction false} ReachableKept(nodes: seq<Node>, nodes': seq<Node>,
    owned: multiset<nat>, owned': multiset<nat>,
    via: set<nat>, own: seq<nat>, xs: seq<nat>, xs': seq<nat>)
    requires AllReachable(nodes, owned, via, own, xs) && |nodes| <= |nodes'| && (forall x :: x in xs' ==> x in xs)
    requires forall x :: x in owned ==> x in owned'
    requires forall d :: d in via ==> d < |nodes| && SameLists(nodes[d], nodes'[d])
    ensures AllReachable(nodes', owned', via, own, xs')
  {
    hide Node.Refs;
    forall x | x in xs'
      ensures x in own || Reachable(nodes', owned', via, x)
    {
      if x !in own && x !in owned {
        var d :| d in via && Names(nodes, d, x);
        SameRefs(nodes[d], nodes'[d]);
        assert Names(nodes', d, x);
      }
    }
  }

  lemma {:induction false} SameRefs(n: Node, n': Node)
    requires SameLists(n, n')
    ensures n'.Refs() == n.Refs() && n'.Loose() == n.Loose()
  {
  }

  lemma {:induction false} PhaseKept(nodes: seq<Node>, nodes': seq<Node>, th: Thread, th': Thread)
    requires ReadsOwned(nodes, th) && PhaseOk(nodes, th) && ReadsOwned(nodes', th') && Untouched(nodes, nodes', th)
    requires th' == th.(owned := th'.owned, held := th'.held, releases := th'.releases, retains := th'.retains)
    requires forall x :: x in th'.retains ==> x in th.retains
    requires forall x :: x in th.owned ==> x in th'.owned
    ensures PhaseOk(nodes', th')
  {
    hide AllReachable, Node.Refs;
    assert th'.retains != [] ==> th'.retains[0] in th.retains;
    match th.next {
      case Nothing =>
      case Publish(_, _) => ReachableKept(nodes, nodes', th.owned, th'.owned, th.via, [], th.retains, th'.retains);
      case ReadBuffers(d) =>
      case ReadChildren(d) => ReachableKept(nodes, nodes', th.owned, th'.owned, th.via, [], th.retains, th'.retains);
      case PublishSlice(d) => ReachableKept(nodes, nodes', th.owned, th'.owned, th.via, [], th.retains, th'.retains);
      case OpenBuffers(d, _, childData) =>
        ReachableKept(nodes, nodes', th.owned, th'.owned, th.via, nodes[d].buffers, th.retains, th'.retains);
        ReachableKept(nodes, nodes', th.owned, th'.owned, th.via, nodes[d].childData, childData, childData);
      case AssignBuffers(d, _, childData) =>
        ReachableKept(nodes, nodes', th.owned, th'.owned, th.via, nodes[d].childData, childData, childData);
      case OpenChildren(d, _) =>
        ReachableKept(nodes, nodes', th.owned, th'.owned, th.via, nodes[d].childData, th.retains, th'.retains);
      case AssignChildren(d, _) =>
    }
  }

  lemma {:induction false} ReadsKept(nodes: seq<Node>, nodes': seq<Node>, th: Thread)
    requires ReadsOwned(nodes, th) && Untouched(nodes, nodes', th)
    ensures ReadsOwned(nodes', th)
  {
    hide Node.Refs;
    forall d | d in th.via
      ensures d < |nodes'| && !nodes'[d].Loose()
    {
      SameRefs(nodes[d], nodes'[d]);
    }
  }

  /** What other goroutines do elsewhere does not matter to th. */
  lemma {:induction false} ThreadKept(nodes: seq<Node>, nodes': seq<Node>, th: Thread)
    requires ThreadOk(nodes, th) && Untouched(nodes, nodes', th)
    ensures ThreadOk(nodes', th)
  {
    hide PhaseOk, ReadsOwned;
    ReadsKept(nodes, nodes', th);
    PhaseKept(nodes, nodes', th, th);
    assert Uses(nodes', th.next) == Uses(nodes, th.next) by {
      UsesKept(nodes, nodes', th);
    }
  }

  lemma {:induction false} UsesKept(nodes: seq<Node>, nodes': seq<Node>, th: Thread)
    requires Untouched(nodes, nodes', th) && ReadsOwned(nodes, th) && PhaseOk(nodes, th)
    ensures Uses(nodes', th.next) == Uses(nodes, th.next)
  {
    hide AllReachable, NoneLoose;
  }

  // ---------------------------------------------------------------- a step of one goroutine

  /** t goes from th to th' while the nodes change: loose lists still have their Reset. */
  ghost predicate LooseMoves(nodes: seq<Node>, nodes': seq<Node>, th: Thread, th': Thread) {
    && |nodes| <= |nodes'|
    && forall y :: 0 <= y < |nodes'| ==>
      && (nodes'[y].buffersLoose ==>
            AssignsBuffers(th', y) || (y < |nodes| && nodes[y].buffersLoose && !AssignsBuffers(th, y)))
      && (nodes'[y].childDataLoose ==>
            AssignsChildren(th', y) || (y < |nodes| && nodes[y].childDataLoose && !AssignsChildren(th, y)))
  }

  /** Only t moves, and it does not touch what the others read or reset. */
  ghost predicate OnlyMoves(s: State, s': State, t: nat) {
    && t < |s.threads| && |s'.threads| == |s.threads| && s'.threads == s.threads[t := s'.threads[t]]
    && forall u :: 0 <= u < |s.threads| && u != t ==>
      Untouched(s.nodes, s'.nodes, s.threads[u]) && Target(s'.threads[t].next) !! Target(s.threads[u].next)
  }

  lemma {:induction false} LooseKept(s: State, s': State, t: nat, y: nat)
    requires Inv(s) && OnlyMoves(s, s', t) && LooseMoves(s.nodes, s'.nodes, s.threads[t], s'.threads[t])
    requires y < |s'.nodes|
    ensures LooseOk(s', y)
  {
    hide NodeOk, ThreadOk, Untouched;
    if s'.nodes[y].buffersLoose && !AssignsBuffers(s'.threads[t], y) {
      assert LooseOk(s, y);
      var u :| 0 <= u < |s.threads| && AssignsBuffers(s.threads[u], y);
      assert AssignsBuffers(s'.threads[u], y);
    }
    if s'.nodes[y].childDataLoose && !AssignsChildren(s'.threads[t], y) {
      assert LooseOk(s, y);
      var u :| 0 <= u < |s.threads| && AssignsChildren(s.threads[u], y);
      assert AssignsChildren(s'.threads[u], y);
    }
  }

  lemma {:induction false} InvKept(s: State, s': State, t: nat)
    requires Inv(s) && OnlyMoves(s, s', t) && LooseMoves(s.nodes, s'.nodes, s.threads[t], s'.threads[t])
    requires ThreadOk(s'.nodes, s'.threads[t])
    requires forall y :: 0 <= y < |s'.nodes| ==> NodeOk(s', y)
    ensures Inv(s')
  {
    hide NodeOk, ThreadOk, Untouched, LooseMoves, LooseOk;
    forall u | 0 <= u < |s'.threads|
      ensures ThreadOk(s'.nodes, s'.threads[u])
    {
      if u != t {
        assert ThreadOk(s.nodes, s.threads[u]);
        ThreadKept(s.nodes, s'.nodes, s.threads[u]);
      }
    }
    forall y | 0 <= y < |s'.nodes|
      ensures LooseOk(s', y)
    {
      LooseKept(s, s', t, y);
    }
  }

  /** The references to y that t and node x hold change as the count does. */
  ghost predicate Conserved(th: Thread, th': Thread, n: Node, n': Node, x: nat, y: nat) {
    th'.Has(y) + multiset(n'.Refs())[y] + (if y == x then n.count else 0)
      == th.Has(y) + multiset(n.Refs())[y] + (if y == x then n'.count else 0)
  }

  lemma {:induction false} NodesKept(s: State, s': State, t: nat, x: nat)
    requires Inv(s) && t < |s.threads| && x < |s.nodes| == |s'.nodes| && |s'.threads| == |s.threads|
    requires s' == WithNode(s, x, s'.nodes[x], t, s'.threads[t]) && NodeShape(s'.nodes[x], |s.nodes|)
    requires forall y: nat :: Conserved(s.threads[t], s'.threads[t], s.nodes[x], s'.nodes[x], x, y)
    ensures forall y :: 0 <= y < |s'.nodes| ==> NodeOk(s', y)
  {
    hide Occurrences, Holding, ThreadOk, LooseOk, NodeShape, Node.Refs, Thread.Has, ResetsApart;
    forall y | 0 <= y < |s'.nodes|
      ensures NodeOk(s', y)
    {
      assert NodeOk(s, y);
      OccurrencesUpdate(s.nodes, x, s'.nodes[x], y, |s.nodes|);
      HoldingUpdate(s.threads, t, s'.threads[t], y, |s.threads|);
      assert Conserved(s.threads[t], s'.threads[t], s.nodes[x], s'.nodes[x], x, y);
    }
  }

  lemma {:induction false} NodesSame(s: State, s': State, t: nat)
    requires Inv(s) && t < |s.threads| && |s'.threads| == |s.threads| && s' == WithThread(s, t, s'.threads[t])
    requires forall y: nat :: s'.threads[t].Has(y) == s.threads[t].Has(y)
    ensures forall y :: 0 <= y < |s'.nodes| ==> NodeOk(s', y)
  {
    hide Occurrences, Holding, ThreadOk, LooseOk, NodeShape, Node.Refs, Thread.Has, ResetsApart;
    forall y | 0 <= y < |s'.nodes|
      ensures NodeOk(s', y)
    {
      assert NodeOk(s, y);
      HoldingUpdate(s.threads, t, s'.threads[t], y, |s.threads|);
    }
  }

  lemma {:induction false} NodesAppended(s: State, s': State, t: nat, n: Node)
    requires Inv(s) && t < |s.threads| && |s'.threads| == |s.threads|
    requires s' == State(s.nodes + [n], s.threads[t := s'.threads[t]])
    requires n.count == 1 && NodeShape(n, |s.nodes|)
    requires forall y: nat :: s'.threads[t].Has(y) + multiset(n.Refs())[y]
                              == s.threads[t].Has(y) + if y == |s.nodes| then 1 else 0
    ensures forall y :: 0 <= y < |s'.nodes| ==> NodeOk(s', y)
  {
    hide Holding, ThreadOk, LooseOk, Node.Refs, Thread.Has, ResetsApart;
    NothingBeyond(s, |s.nodes|);
    forall y | 0 <= y < |s'.nodes|
      ensures NodeOk(s', y)
    {
      OccurrencesAppend(s.nodes, n, y, |s.nodes|);
      HoldingUpdate(s.threads, t, s'.threads[t], y, |s.threads|);
      if y < |s.nodes| {
        assert NodeOk(s, y);
      }
    }
  }

  // ---------------------------------------------------------------- releases and retains

  lemma {:induction false} FirstOf(xs: seq<nat>)
    requires xs != []
    ensures multiset(xs) == multiset{xs[0]} + multiset(xs[1..]) && xs[0] in multiset(xs)
  {
    assert xs == [xs[0]] + xs[1..];
  }

  /** What is next to be released is held. */
  lemma {:induction false} ReleaseHeld(nodes: seq<Node>, th: Thread)
    requires Balanced(nodes, th) && th.releases != []
    ensures th.releases[0] in th.held
  {
    hide Uses;
    FirstOf(th.releases);
    assert (th.held + multiset(th.retains))[th.releases[0]] > 0;
    assert th.retains == [];
  }

  lemma {:induction false} LoweredConserved(th: Thread, th': Thread, n: Node, x: nat, y: nat)
    requires x in th.held && n.count > 0
    requires th' == th.(releases := th'.releases,
      held := th.held - multiset{x} + multiset(if n.count == 1 then n.Refs() else []))
    ensures Conserved(th, th', n, Lowered(n), x, y)
  {
    if n.count == 1 {
      assert Lowered(n).Refs() == [];
    }
  }

  lemma {:induction false} ReleaseReads(s: State, nodes': seq<Node>, t: nat, u: nat, x: nat)
    requires Inv(s) && t < |s.threads| && u < |s.threads| && x in s.threads[t].held
    requires x < |s.nodes| && s.nodes[x].count > 0 && nodes' == s.nodes[x := Lowered(s.nodes[x])]
    ensures Untouched(s.nodes, nodes', s.threads[u])
  {
    hide PhaseOk, Balanced, NodeOk, LooseOk, Node.Refs, ResetsApart;
    assert ThreadOk(s.nodes, s.threads[u]);
    if s.nodes[x].count == 1 {
      LastReference(s, t, u, x);
    }
  }

  lemma {:induction false} ReleaseStepSafe(s: State, t: nat)
    requires Inv(s) && t < |s.threads| && s.threads[t].releases != []
    ensures ReleaseStep(s, t).Success? && Inv(ReleaseStep(s, t).value)
  {
    hide PhaseOk, ReadsOwned, Untouched, Conserved, Node.Refs, NodeShape, Holders, LooseOk, ResetsApart;
    var th := s.threads[t];
    var x := th.releases[0];
    assert ThreadOk(s.nodes, th);
    ReleaseHeld(s.nodes, th);
    HeldAlive(s, t, x);
    var s' := ReleaseStep(s, t).value;
    var th' := s'.threads[t];
    forall u | 0 <= u < |s.threads|
      ensures Untouched(s.nodes, s'.nodes, s.threads[u])
    {
      ReleaseReads(s, s'.nodes, t, u, x);
    }
    forall y: nat
      ensures Conserved(th, th', s.nodes[x], s'.nodes[x], x, y)
    {
      LoweredConserved(th, th', s.nodes[x], x, y);
    }
    LoweredShape(s, x);
    NodesKept(s, s', t, x);
    ReleaseThread(s, s', t);
    TargetsApart(s, s', t);
    InvKept(s, s', t);
  }

  lemma {:induction false} LoweredShape(s: State, x: nat)
    requires Inv(s) && x < |s.nodes| && s.nodes[x].count > 0
    ensures NodeShape(Lowered(s.nodes[x]), |s.nodes|)
  {
    hide Holders;
    assert NodeOk(s, x);
    if s.nodes[x].count > 1 {
      SameRefs(s.nodes[x], Lowered(s.nodes[x]));
    }
  }

  lemma {:induction false} TargetsApart(s: State, s': State, t: nat)
    requires Inv(s) && t < |s.threads| && |s'.threads| == |s.threads|
    requires Target(s'.threads[t].next) <= Target(s.threads[t].next)
    ensures forall u :: 0 <= u < |s.threads| && u != t ==> Target(s'.threads[t].next) !! Target(s.threads[u].next)
  {
    hide NodeOk, ThreadOk, LooseOk;
    forall u | 0 <= u < |s.threads| && u != t
      ensures Target(s'.threads[t].next) !! Target(s.threads[u].next)
    {
      if u < t {
        assert Target(s.threads[u].next) !! Target(s.threads[t].next);
      } else {
        assert Target(s.threads[t].next) !! Target(s.threads[u].next);
      }
    }
  }

  /** What a release sets free. */
  function ReleasedRefs(s: State, th: Thread): seq<nat>
    requires th.releases != [] && th.releases[0] < |s.nodes|
  {
    if s.nodes[th.releases[0]].count == 1 then s.nodes[th.releases[0]].Refs() else []
  }

  lemma {:induction false} ReleaseThread(s: State, s': State, t: nat)
    requires Inv(s) && t < |s.threads| && s.threads[t].releases != [] && ReleaseStep(s, t) == Success(s')
    requires s.threads[t].releases[0] in s.threads[t].held && Untouched(s.nodes, s'.nodes, s.threads[t])
    ensures ThreadOk(s'.nodes, s'.threads[t])
  {
    hide NodeOk, LooseOk, ResetsApart, PhaseOk, Uses, Untouched, Target, NoneLoose, Node.Refs;
    var th, th' := s.threads[t], s'.threads[t];
    assert ThreadOk(s.nodes, th);
    ReadsKept(s.nodes, s'.nodes, th);
    UsesKept(s.nodes, s'.nodes, th);
    assert Balanced(s'.nodes, th') by {
      assert th.held == th.held + multiset(th.retains);
      ReleaseBalanced(th.held, th.releases, ReleasedRefs(s, th), Uses(s.nodes, th.next));
      assert th'.held == th'.held + multiset(th'.retains);
    }
    assert ReadsOwned(s'.nodes, th') by {
      RefsInside(s, th.releases[0]);
    }
    PhaseKept(s.nodes, s'.nodes, th, th');
  }

  lemma {:induction false} ReleaseBalanced(held: multiset<nat>, releases: seq<nat>, refs: seq<nat>, uses: multiset<nat>)
    requires releases != [] && held == multiset(releases) + uses
    ensures held - multiset{releases[0]} + multiset(refs) == multiset(refs + releases[1..]) + uses
  {
    FirstOf(releases);
  }

  lemma {:induction false} RefsInside(s: State, x: nat)
    requires Inv(s) && x < |s.nodes|
    ensures forall y :: y in multiset(s.nodes[x].Refs()) ==> y < |s.nodes|
  {
    hide Holders;
    assert NodeOk(s, x);
    forall y | y in multiset(s.nodes[x].Refs())
      ensures y < |s.nodes|
    {
      assert y in s.nodes[x].Refs();
    }
  }

  lemma {:induction false} ReachableAlive(s: State, t: nat, x: nat)
    requires Inv(s) && t < |s.threads| && Reachable(s.nodes, s.threads[t].owned, s.threads[t].via, x)
    ensures x < |s.nodes| && s.nodes[x].count > 0
  {
    hide Inv, Node.Refs;
    var th := s.threads[t];
    if x in th.owned {
      HeldAlive(s, t, x);
    } else {
      var d :| d in th.via && Names(s.nodes, d, x);
      NamedAlive(s, d, x);
    }
  }

  lemma {:induction false} OwnAlive(s: State, d: nat, x: nat)
    requires Inv(s) && d < |s.nodes|
    requires (!s.nodes[d].buffersLoose && x in s.nodes[d].buffers)
          || (!s.nodes[d].childDataLoose && x in s.nodes[d].childData)
    ensures x < |s.nodes| && s.nodes[x].count > 0
  {
    hide Inv;
    assert Names(s.nodes, d, x);
    NamedAlive(s, d, x);
  }

  /** What is next to be retained has not been freed. */
  lemma {:induction false} RetainAlive(s: State, t: nat)
    requires Inv(s) && t < |s.threads| && s.threads[t].retains != []
    ensures s.threads[t].retains[0] < |s.nodes| && s.nodes[s.threads[t].retains[0]].count > 0
  {
    hide NodeOk, LooseOk, ResetsApart, Balanced, Reachable, Node.Refs;
    var th := s.threads[t];
    var x := th.retains[0];
    assert ThreadOk(s.nodes, th);
    if Reachable(s.nodes, th.owned, th.via, x) {
      ReachableAlive(s, t, x);
    } else {
      OwnAlive(s, th.next.d, x);
    }
  }

  /** Only counts change. */
  lemma {:induction false} CountsOnly(s: State, nodes': seq<Node>, x: nat, u: nat)
    requires Inv(s) && x < |s.nodes| && nodes' == s.nodes[x := Raised(s.nodes[x])] && u < |s.threads|
    ensures Untouched(s.nodes, nodes', s.threads[u])
  {
    hide NodeOk, LooseOk, ResetsApart, Balanced, PhaseOk;
    assert ThreadOk(s.nodes, s.threads[u]);
  }

  lemma {:induction false} RaisedShape(s: State, x: nat)
    requires Inv(s) && x < |s.nodes| && s.nodes[x].count > 0
    ensures NodeShape(Raised(s.nodes[x]), |s.nodes|) && Raised(s.nodes[x]).Refs() == s.nodes[x].Refs()
  {
    hide Holders;
    assert NodeOk(s, x);
    SameRefs(s.nodes[x], Raised(s.nodes[x]));
  }

  /** One more reference to x, and one more count. */
  lemma {:induction false} RaiseSafe(s: State, s': State, t: nat, x: nat)
    requires Inv(s) && t < |s.threads| == |s'.threads| && x < |s.nodes| && s.nodes[x].count > 0
    requires s' == WithNode(s, x, Raised(s.nodes[x]), t, s'.threads[t])
    requires s'.threads[t].owned + s'.threads[t].held == s.threads[t].owned + s.threads[t].held + multiset{x}
    requires ThreadOk(s'.nodes, s'.threads[t]) && s'.threads[t].next == s.threads[t].next
    ensures Inv(s')
  {
    hide ThreadOk, Node.Refs, NodeShape, NodeOk, LooseOk, ResetsApart, Untouched;
    var th, th' := s.threads[t], s'.threads[t];
    RaisedShape(s, x);
    forall u | 0 <= u < |s.threads|
      ensures Untouched(s.nodes, s'.nodes, s.threads[u])
    {
      CountsOnly(s, s'.nodes, x, u);
    }
    forall y: nat
      ensures Conserved(th, th', s.nodes[x], s'.nodes[x], x, y)
    {
      assert (th'.owned + th'.held)[y] == (th.owned + th.held + multiset{x})[y];
    }
    NodesKept(s, s', t, x);
    TargetsApart(s, s', t);
    InvKept(s, s', t);
  }

  lemma {:induction false} RetainStepSafe(s: State, t: nat)
    requires Inv(s) && t < |s.threads| && s.threads[t].retains != [] && s.threads[t].releases == []
    ensures RetainStep(s, t).Success? && Inv(RetainStep(s, t).value)
  {
    hide Inv, ThreadOk;
    RetainAlive(s, t);
    var s' := RetainStep(s, t).value;
    var x := s.threads[t].retains[0];
    RetainThread(s, s', t);
    assert s'.threads[t].owned + s'.threads[t].held == s.threads[t].owned + s.threads[t].held + multiset{x};
    RaiseSafe(s, s', t, x);
  }

  lemma {:induction false} RetainThread(s: State, s': State, t: nat)
    requires Inv(s) && t < |s.threads| && s.threads[t].retains != [] && s.threads[t].releases == []
    requires RetainStep(s, t) == Success(s')
    ensures ThreadOk(s'.nodes, s'.threads[t])
  {
    hide NodeOk, LooseOk, ResetsApart, PhaseOk, Uses, Untouched, Target, NoneLoose, Node.Refs;
    var th, th' := s.threads[t], s'.threads[t];
    assert ThreadOk(s.nodes, th);
    CountsOnly(s, s'.nodes, th.retains[0], t);
    ReadsKept(s.nodes, s'.nodes, th);
    UsesKept(s.nodes, s'.nodes, th);
    FirstOf(th.retains);
    assert th'.held + multiset(th'.retains) == th.held + multiset(th.retains);
    assert ReadsOwned(s'.nodes, th');
    PhaseKept(s.nodes, s'.nodes, th, th');
  }

  // ---------------------------------------------------------------- the other steps of an operation

  /** Goroutines other than t do not notice a new resource. */
  lemma {:induction false} AppendUntouched(s: State, n: Node, u: nat)
    requires Inv(s) && u < |s.threads|
    ensures Untouched(s.nodes, s.nodes + [n], s.threads[u])
  {
    hide NodeOk, LooseOk, ResetsApart, Balanced, PhaseOk;
    assert ThreadOk(s.nodes, s.threads[u]);
  }

  /** One more resource, with one reference to it. */
  lemma {:induction false} AppendSafe(s: State, s': State, t: nat, n: Node)
    requires Inv(s) && t < |s.threads| == |s'.threads|
    requires s' == State(s.nodes + [n], s.threads[t := s'.threads[t]])
    requires n.count == 1 && NodeShape(n, |s.nodes|) && !n.Loose()
    requires s'.threads[t].owned + s'.threads[t].held + multiset(n.Refs())
          == s.threads[t].owned + s.threads[t].held + multiset{|s.nodes|}
    requires ThreadOk(s'.nodes, s'.threads[t]) && s'.threads[t].next.Nothing?
    requires !s.threads[t].next.AssignBuffers? && !s.threads[t].next.AssignChildren?
    ensures Inv(s')
  {
    hide ThreadOk, Node.Refs, NodeShape, NodeOk, LooseOk, ResetsApart, Untouched;
    var th, th' := s.threads[t], s'.threads[t];
    forall u | 0 <= u < |s.threads|
      ensures Untouched(s.nodes, s'.nodes, s.threads[u])
    {
      AppendUntouched(s, n, u);
    }
    forall y: nat
      ensures th'.Has(y) + multiset(n.Refs())[y] == th.Has(y) + if y == |s.nodes| then 1 else 0
    {
      assert (th'.owned + th'.held + multiset(n.Refs()))[y] == (th.owned + th.held + multiset{|s.nodes|})[y];
    }
    NodesAppended(s, s', t, n);
    TargetsApart(s, s', t);
    InvKept(s, s', t);
  }

  lemma {:induction false} PublishSafe(s: State, t: nat, buffers: seq<nat>, childData: seq<nat>)
    requires Inv(s) && t < |s.threads| && s.threads[t].releases == [] && s.threads[t].retains == []
    requires s.threads[t].next.Publish? || s.threads[t].next.PublishSlice?
    requires s.threads[t].held == multiset(buffers + childData)
    ensures Inv(PublishStep(s, t, buffers, childData))
  {
    hide NodeOk, LooseOk, ResetsApart, PhaseOk, Holders;
    var th := s.threads[t];
    var s', n := PublishStep(s, t, buffers, childData), NewNode(buffers, childData);
    assert ThreadOk(s.nodes, th);
    forall r | r in n.Refs()
      ensures r < |s.nodes|
    {
      assert r in multiset(buffers + childData);
    }
    NothingNext(s'.nodes, s'.threads[t]);
    AppendSafe(s, s', t, n);
  }

  lemma {:induction false} NothingNext(nodes: seq<Node>, th: Thread)
    requires th.next.Nothing? && th.via == {} && th.retains == [] && th.held == multiset(th.releases)
    requires forall x :: x in th.owned || x in th.held ==> x < |nodes|
    ensures ThreadOk(nodes, th)
  {
  }

  /** A step that only reads. */
  lemma {:induction false} ReadSafe(s: State, s': State, t: nat)
    requires Inv(s) && t < |s.threads| == |s'.threads| && s' == WithThread(s, t, s'.threads[t])
    requires s'.threads[t].owned + s'.threads[t].held == s.threads[t].owned + s.threads[t].held
    requires ThreadOk(s'.nodes, s'.threads[t])
    requires !s.threads[t].next.AssignBuffers? && !s.threads[t].next.AssignChildren?
    requires forall u :: 0 <= u < |s.threads| && u != t ==>
      Target(s'.threads[t].next) !! Target(s.threads[u].next)
    ensures Inv(s')
  {
    hide Node.Refs, NodeShape, NodeOk, LooseOk, ResetsApart, Balanced, PhaseOk, Target;
    var th, th' := s.threads[t], s'.threads[t];
    forall y: nat
      ensures th'.Has(y) == th.Has(y)
    {
      assert (th'.owned + th'.held)[y] == (th.owned + th.held)[y];
    }
    NodesSame(s, s', t);
    forall u | 0 <= u < |s.threads|
      ensures Untouched(s.nodes, s'.nodes, s.threads[u])
    {
      assert ThreadOk(s.nodes, s.threads[u]);
    }
    InvKept(s, s', t);
  }

  lemma {:induction false} NamedReachable(nodes: seq<Node>, owned: multiset<nat>, via: set<nat>, d: nat)
    requires d in via && d < |nodes| && !nodes[d].Loose()
    ensures AllReachable(nodes, owned, via, [], nodes[d].buffers)
    ensures AllReachable(nodes, owned, via, [], nodes[d].childData)
  {
    forall x | x in nodes[d].buffers || x in nodes[d].childData
      ensures Reachable(nodes, owned, via, x)
    {
      assert Names(nodes, d, x);
    }
  }

  lemma {:induction false} ReadListSafe(s: State, t: nat)
    requires Inv(s) && t < |s.threads| && s.threads[t].releases == [] && s.threads[t].retains == []
    requires s.threads[t].next.ReadBuffers? || s.threads[t].next.ReadChildren?
    ensures NextStep(s, t).Success? && Inv(NextStep(s, t).value)
  {
    hide NodeOk, LooseOk, ResetsApart, AllReachable, Node.Refs, Holders, NodeShape;
    var th := s.threads[t];
    var d := th.next.d;
    assert ThreadOk(s.nodes, th);
    HeldAlive(s, t, d);
    NamedReachable(s.nodes, th.owned, th.via, d);
    var s' := NextStep(s, t).value;
    ReadBalanced(s.nodes, th, s'.threads[t]);
    TargetsApart(s, s', t);
    ReadSafe(s, s', t);
  }

  lemma {:induction false} ReadBalanced(nodes: seq<Node>, th: Thread, th': Thread)
    requires Balanced(nodes, th) && th.releases == [] && th.retains == []
    requires (th.next.ReadBuffers? && th.next.d < |nodes|
              && th' == th.(retains := nodes[th.next.d].buffers, next := ReadChildren(th.next.d)))
          || (th.next.ReadChildren? && th.next.d < |nodes|
              && th' == th.(retains := nodes[th.next.d].childData, next := PublishSlice(th.next.d)))
    ensures Balanced(nodes, th')
  {
    var n := nodes[th.next.d];
    assert th.held + multiset(th.retains) == th.held;
    assert multiset(n.buffers + n.childData) == multiset(n.buffers) + multiset(n.childData);
  }

  lemma {:induction false} PublishStepSafe(s: State, t: nat)
    requires Inv(s) && t < |s.threads| && s.threads[t].releases == [] && s.threads[t].retains == []
    requires s.threads[t].next.Publish? || s.threads[t].next.PublishSlice?
    ensures NextStep(s, t).Success? && Inv(NextStep(s, t).value)
  {
    hide NodeOk, LooseOk, ResetsApart, AllReachable, Holders, Node.Refs, NodeShape;
    var th := s.threads[t];
    assert ThreadOk(s.nodes, th);
    assert th.held == th.held + multiset(th.retains) == multiset(th.releases) + Uses(s.nodes, th.next);
    if th.next.PublishSlice? {
      var d := th.next.d;
      HeldAlive(s, t, d);
      PublishSafe(s, t, s.nodes[d].buffers, s.nodes[d].childData);
    } else {
      PublishSafe(s, t, th.next.buffers, th.next.childData);
    }
  }

  // ---------------------------------------------------------------- Reset

  /** Only the goroutine that resets d has anything to do with its lists. */
  lemma {:induction false} ResetUntouched(s: State, n: Node, t: nat, u: nat, d: nat)
    requires Inv(s) && t < |s.threads| && u < |s.threads| && u != t && d < |s.nodes|
    requires Target(s.threads[t].next) == {d} && d !in s.threads[u].via
    ensures Untouched(s.nodes, s.nodes[d := n], s.threads[u])
  {
    hide NodeOk, LooseOk, Balanced, PhaseOk;
    assert ThreadOk(s.nodes, s.threads[u]);
    assert d !in Target(s.threads[u].next) by {
      TargetsApart(s, s, t);
    }
  }

  /** References move between an object and the Reset that changes its lists. */
  lemma {:induction false} ListStepSafe(s: State, s': State, t: nat, d: nat)
    requires Inv(s) && t < |s.threads| == |s'.threads| && d < |s.nodes| == |s'.nodes|
    requires s' == WithNode(s, d, s'.nodes[d], t, s'.threads[t])
    requires s'.nodes[d].count == s.nodes[d].count && NodeShape(s'.nodes[d], |s.nodes|)
    requires s'.threads[t].owned == s.threads[t].owned
    requires s'.threads[t].held + multiset(s'.nodes[d].Refs()) == s.threads[t].held + multiset(s.nodes[d].Refs())
    requires ThreadOk(s'.nodes, s'.threads[t])
    requires Target(s.threads[t].next) == {d} && Target(s'.threads[t].next) <= {d}
    requires s'.nodes[d].buffersLoose ==> AssignsBuffers(s'.threads[t], d)
    requires s'.nodes[d].childDataLoose ==> AssignsChildren(s'.threads[t], d)
    requires forall u :: 0 <= u < |s.threads| && u != t ==> d !in s.threads[u].via
    ensures Inv(s')
  {
    hide ThreadOk, Node.Refs, NodeShape, NodeOk, LooseOk, ResetsApart, Untouched;
    var th, th' := s.threads[t], s'.threads[t];
    forall y: nat
      ensures Conserved(th, th', s.nodes[d], s'.nodes[d], d, y)
    {
      assert (th'.held + multiset(s'.nodes[d].Refs()))[y] == (th.held + multiset(s.nodes[d].Refs()))[y];
    }
    NodesKept(s, s', t, d);
    forall u | 0 <= u < |s.threads| && u != t
      ensures Untouched(s.nodes, s'.nodes, s.threads[u])
    {
      ResetUntouched(s, s'.nodes[d], t, u, d);
    }
    TargetsApart(s, s', t);
    InvKept(s, s', t);
  }

  /** Nobody reads through a loose object. */
  lemma {:induction false} LooseUnread(s: State, d: nat, u: nat)
    requires Inv(s) && u < |s.threads| && d < |s.nodes| && s.nodes[d].Loose()
    ensures d !in s.threads[u].via
  {
    hide NodeOk, LooseOk, Balanced, PhaseOk, ResetsApart;
    assert ThreadOk(s.nodes, s.threads[u]);
  }

  /** The other objects are as before, and so are the lists of d that are named. */
  lemma {:induction false} ReachableBeside(nodes: seq<Node>, n: Node, d: nat, owned: multiset<nat>, via: set<nat>,
    own: seq<nat>, xs: seq<nat>)
    requires AllReachable(nodes, owned, via, own, xs) && d < |nodes| && d !in via && NoneLoose(nodes, via)
    ensures AllReachable(nodes[d := n], owned, via, own, xs)
  {
    ReachableKept(nodes, nodes[d := n], owned, owned, via, own, xs, xs);
  }

  lemma {:induction false} ListsInside(s: State, d: nat)
    requires Inv(s) && d < |s.nodes| && !s.nodes[d].Loose()
    ensures forall r :: r in multiset(s.nodes[d].buffers) || r in multiset(s.nodes[d].childData) ==> r < |s.nodes|
  {
    hide Holders;
    assert NodeOk(s, d);
    forall r | r in multiset(s.nodes[d].buffers) || r in multiset(s.nodes[d].childData)
      ensures r < |s.nodes|
    {
      assert r in s.nodes[d].Refs();
    }
  }

  lemma {:induction false} OpenSafe(s: State, t: nat)
    requires Inv(s) && t < |s.threads| && s.threads[t].releases == [] && s.threads[t].retains == []
    requires s.threads[t].next.OpenBuffers? || s.threads[t].next.OpenChildren?
    requires NoOtherReader(s, t)
    ensures NextStep(s, t).Success? && Inv(NextStep(s, t).value)
  {
    hide NodeOk, LooseOk, ResetsApart, AllReachable, Holders, ThreadOk, NodeShape;
    var th := s.threads[t];
    var d := th.next.d;
    OwnedTarget(s, t);
    HeldAlive(s, t, d);
    var s' := NextStep(s, t).value;
    var n, n' := s.nodes[d], s'.nodes[d];
    ListsInside(s, d);
    OpenShape(s, d, n');
    OpenThread(s, s', t);
    forall u | 0 <= u < |s.threads| && u != t
      ensures d !in s.threads[u].via
    {
      assert Opens(th) == {d};
    }
    OpenRefs(n, n', th.held);
    ListStepSafe(s, s', t, d);
  }

  lemma {:induction false} OwnedTarget(s: State, t: nat)
    requires Inv(s) && t < |s.threads|
    requires !s.threads[t].next.Nothing? && !s.threads[t].next.Publish?
    ensures s.threads[t].next.d in s.threads[t].owned && s.threads[t].next.d < |s.nodes|
    ensures s.threads[t].next.OpenBuffers? || s.threads[t].next.OpenChildren? ==> !s.nodes[s.threads[t].next.d].Loose()
  {
    hide NodeOk, LooseOk, ResetsApart, AllReachable;
    assert ThreadOk(s.nodes, s.threads[t]);
  }

  lemma {:induction false} OpenShape(s: State, d: nat, n': Node)
    requires Inv(s) && d < |s.nodes| && s.nodes[d].count > 0 && !s.nodes[d].Loose()
    requires n' == s.nodes[d].(buffersLoose := true) || n' == s.nodes[d].(childDataLoose := true)
    ensures NodeShape(n', |s.nodes|)
  {
    hide Holders;
    assert NodeOk(s, d);
    forall r | r in n'.Refs()
      ensures r < |s.nodes|
    {
      assert r in s.nodes[d].Refs();
    }
  }

  lemma {:induction false} OpenRefs(n: Node, n': Node, held: multiset<nat>)
    requires !n.Loose()
    ensures n' == n.(buffersLoose := true) ==>
      held + multiset(n.buffers) + multiset(n'.Refs()) == held + multiset(n.Refs())
    ensures n' == n.(childDataLoose := true) ==>
      held + multiset(n.childData) + multiset(n'.Refs()) == held + multiset(n.Refs())
  {
    assert n.Refs() == n.buffers + n.childData;
    assert n' == n.(buffersLoose := true) ==> n'.Refs() == n.childData;
    assert n' == n.(childDataLoose := true) ==> n'.Refs() == n.buffers;
  }

  lemma {:induction false} OpenThread(s: State, s': State, t: nat)
    requires Inv(s) && t < |s.threads| && s.threads[t].releases == [] && s.threads[t].retains == []
    requires s.threads[t].next.OpenBuffers? || s.threads[t].next.OpenChildren?
    requires NextStep(s, t) == Success(s')
    requires var n := s.nodes[s.threads[t].next.d];
      forall r :: r in multiset(n.buffers) || r in multiset(n.childData) ==> r < |s.nodes|
    ensures ThreadOk(s'.nodes, s'.threads[t])
  {
    hide NodeOk, LooseOk, ResetsApart, AllReachable, Node.Refs, Balanced;
    var th, th' := s.threads[t], s'.threads[t];
    var d := th.next.d;
    assert ThreadOk(s.nodes, th);
    OpenBalanced(s, s', t);
    if th.next.OpenBuffers? {
      ReachableBeside(s.nodes, s'.nodes[d], d, th.owned, th.via, s.nodes[d].childData, th.next.childData);
    }
    assert NoneLoose(s'.nodes, th.via);
  }

  lemma {:induction false} OpenBalanced(s: State, s': State, t: nat)
    requires t < |s.threads| && s.threads[t].releases == [] && s.threads[t].retains == []
    requires s.threads[t].next.OpenBuffers? || s.threads[t].next.OpenChildren?
    requires NextStep(s, t) == Success(s') && Balanced(s.nodes, s.threads[t])
    ensures Balanced(s'.nodes, s'.threads[t])
  {
    hide Node.Refs;
    var th, th' := s.threads[t], s'.threads[t];
    assert th.held == Uses(s.nodes, th.next) by {
      assert th.held + multiset(th.retains) == th.held;
    }
    assert Uses(s'.nodes, th'.next) == Uses(s.nodes, th.next);
    assert th'.held + multiset(th'.retains) == th'.held;
  }

  lemma {:induction false} AssignSafe(s: State, t: nat)
    requires Inv(s) && t < |s.threads| && s.threads[t].releases == [] && s.threads[t].retains == []
    requires s.threads[t].next.AssignBuffers? || s.threads[t].next.AssignChildren?
    ensures NextStep(s, t).Success? && Inv(NextStep(s, t).value)
  {
    hide NodeOk, LooseOk, ResetsApart, AllReachable, Holders, ThreadOk, NodeShape, Node.Refs;
    var th := s.threads[t];
    var d := th.next.d;
    OwnedTarget(s, t);
    HeldAlive(s, t, d);
    var s' := NextStep(s, t).value;
    AssignThread(s, s', t);
    AssignNode(s, s', t);
    AssigningLoose(s, t);
    forall u | 0 <= u < |s.threads| && u != t
      ensures d !in s.threads[u].via
    {
      LooseUnread(s, d, u);
    }
    ListStepSafe(s, s', t, d);
  }

  lemma {:induction false} AssigningLoose(s: State, t: nat)
    requires Inv(s) && t < |s.threads|
    requires s.threads[t].next.AssignBuffers? || s.threads[t].next.AssignChildren?
    ensures var d := s.threads[t].next.d;
      && d < |s.nodes| && s.nodes[d].Loose()
      && s.nodes[d].buffersLoose == s.threads[t].next.AssignBuffers?
      && s.nodes[d].childDataLoose == s.threads[t].next.AssignChildren?
  {
    hide NodeOk, LooseOk, ResetsApart, AllReachable;
    assert ThreadOk(s.nodes, s.threads[t]);
  }

  /** What is held is what is assigned. */
  lemma {:induction false} AssignHeld(s: State, t: nat)
    requires Inv(s) && t < |s.threads| && s.threads[t].releases == [] && s.threads[t].retains == []
    requires s.threads[t].next.AssignBuffers? || s.threads[t].next.AssignChildren?
    ensures s.threads[t].held ==
      multiset(if s.threads[t].next.AssignBuffers? then s.threads[t].next.buffers else s.threads[t].next.childData)
    ensures forall r :: r in s.threads[t].held ==> r < |s.nodes|
  {
    hide NodeOk, LooseOk, ResetsApart, AllReachable;
    var th := s.threads[t];
    assert ThreadOk(s.nodes, th);
    assert th.held + multiset(th.retains) == th.held;
  }

  lemma {:induction false} AssignNode(s: State, s': State, t: nat)
    requires Inv(s) && t < |s.threads| && s.threads[t].releases == [] && s.threads[t].retains == []
    requires s.threads[t].next.AssignBuffers? || s.threads[t].next.AssignChildren?
    requires NextStep(s, t) == Success(s')
    ensures var d := s.threads[t].next.d;
      && d < |s.nodes| && s'.nodes[d].count == s.nodes[d].count && NodeShape(s'.nodes[d], |s.nodes|)
      && s'.threads[t].held + multiset(s'.nodes[d].Refs()) == s.threads[t].held + multiset(s.nodes[d].Refs())
  {
    hide LooseOk, ResetsApart, ThreadOk, Holders;
    var th := s.threads[t];
    var d := th.next.d;
    AssigningLoose(s, t);
    AssignHeld(s, t);
    var n, n' := s.nodes[d], s'.nodes[d];
    assert NodeOk(s, d);
    var put := if th.next.AssignBuffers? then th.next.buffers else th.next.childData;
    assert n'.Refs() == if th.next.AssignBuffers? then put + n.Refs() else n.Refs() + put;
    forall r | r in n'.Refs()
      ensures r < |s.nodes|
    {
      assert r in multiset(put) || r in n.Refs();
    }
  }

  lemma {:induction false} AssignThread(s: State, s': State, t: nat)
    requires Inv(s) && t < |s.threads| && s.threads[t].releases == [] && s.threads[t].retains == []
    requires s.threads[t].next.AssignBuffers? || s.threads[t].next.AssignChildren?
    requires NextStep(s, t) == Success(s')
    ensures ThreadOk(s'.nodes, s'.threads[t])
  {
    hide NodeOk, LooseOk, ResetsApart, AllReachable, Node.Refs;
    var th, th' := s.threads[t], s'.threads[t];
    var d := th.next.d;
    assert ThreadOk(s.nodes, th);
    AssignHeld(s, t);
    assert th'.held == multiset{};
    if th.next.AssignBuffers? {
      ReachableBeside(s.nodes, s'.nodes[d], d, th.owned, th.via, s.nodes[d].childData, th.next.childData);
      assert th'.held + multiset(th'.retains) == multiset(th'.releases) + Uses(s'.nodes, th'.next);
    } else {
      NothingNext(s'.nodes, th');
    }
    assert NoneLoose(s'.nodes, th.via);
  }

  /** The next atomic step of an operation, whichever it is. */
  lemma {:induction false} AdvanceSafe(s: State, t: nat)
    requires Inv(s) && Allowed(s, Advance(t))
    ensures Apply(s, Advance(t)).Success? && Inv(Apply(s, Advance(t)).value)
  {
    hide Inv, NextStep, ReleaseStep, RetainStep;
    var th := s.threads[t];
    if th.releases != [] {
      ReleaseStepSafe(s, t);
    } else if th.retains != [] {
      RetainStepSafe(s, t);
    } else {
      match th.next {
        case Publish(_, _) => PublishStepSafe(s, t);
        case PublishSlice(_) => PublishStepSafe(s, t);
        case ReadBuffers(_) => ReadListSafe(s, t);
        case ReadChildren(_) => ReadListSafe(s, t);
        case OpenBuffers(_, _, _) => OpenSafe(s, t);
        case OpenChildren(_, _) => OpenSafe(s, t);
        case AssignBuffers(_, _, _) => AssignSafe(s, t);
        case AssignChildren(_, _) => AssignSafe(s, t);
      }
    }
  }

  // ---------------------------------------------------------------- what clients do

  /** A goroutine that runs nothing holds nothing but what it owns. */
  lemma {:induction false} IdleThread(s: State, t: nat)
    requires Inv(s) && t < |s.threads| && s.threads[t].Idle()
    ensures s.threads[t].held == multiset{} && s.threads[t].via == {}
    ensures forall x :: x in s.threads[t].owned ==> x < |s.nodes|
  {
    hide NodeOk, LooseOk, ResetsApart;
    var th := s.threads[t];
    assert ThreadOk(s.nodes, th);
    assert th.held + multiset(th.retains) == th.held;
  }

  lemma {:induction false} AllocateSafe(s: State, t: nat)
    requires Inv(s) && t < |s.threads| && s.threads[t].Idle()
    ensures Inv(Apply(s, Allocate(t)).value)
  {
    hide NodeOk, LooseOk, ResetsApart, ThreadOk, Node.Refs;
    IdleThread(s, t);
    var s' := Apply(s, Allocate(t)).value;
    NothingNext(s'.nodes, s'.threads[t]);
    NewNodeRefs([], []);
    AppendSafe(s, s', t, NewNode([], []));
  }

  lemma {:induction false} NewNodeRefs(buffers: seq<nat>, childData: seq<nat>)
    ensures NewNode(buffers, childData).Refs() == buffers + childData
  {
  }

  lemma {:induction false} ClientRetainSafe(s: State, t: nat, x: nat)
    requires Inv(s) && Allowed(s, Retain(t, x))
    ensures Apply(s, Retain(t, x)).Success? && Inv(Apply(s, Retain(t, x)).value)
  {
    hide Inv, ThreadOk, Node.Refs;
    IdleThread(s, t);
    HeldAlive(s, t, x);
    var s' := Apply(s, Retain(t, x)).value;
    NothingNext(s'.nodes, s'.threads[t]);
    assert s'.threads[t].owned + s'.threads[t].held == s.threads[t].owned + s.threads[t].held + multiset{x};
    RaiseSafe(s, s', t, x);
  }

  /** A reference of one goroutine less, of another one more. */
  lemma {:induction false} HandOverSafe(s: State, t: nat, to: nat, x: nat)
    requires Inv(s) && Allowed(s, HandOver(t, to, x))
    ensures Inv(Apply(s, HandOver(t, to, x)).value)
  {
    hide LooseOk, ThreadOk, Node.Refs, Holders, Names;
    IdleThread(s, t);
    var s' := Apply(s, HandOver(t, to, x)).value;
    forall y | 0 <= y < |s.nodes|
      ensures NodeOk(s', y)
    {
      assert NodeOk(s, y);
      HandedOver(s, t, to, x, y);
    }
    forall u | 0 <= u < |s.threads|
      ensures ThreadOk(s'.nodes, s'.threads[u]) && s'.threads[u].next == s.threads[u].next
    {
      assert ThreadOk(s.nodes, s.threads[u]);
      if u == t {
        GivenAway(s, s', t, to, x);
      } else if u == to {
        Given(s, t, to, x);
      }
    }
    forall d | 0 <= d < |s.nodes|
      ensures LooseOk(s', d)
    {
      SameNexts(s, s', d);
    }
  }

  lemma {:induction false} SameNexts(s: State, s': State, d: nat)
    requires s'.nodes == s.nodes && |s'.threads| == |s.threads| && d < |s.nodes| && LooseOk(s, d)
    requires forall u :: 0 <= u < |s.threads| ==> s'.threads[u].next == s.threads[u].next
    ensures LooseOk(s', d)
  {
    if s.nodes[d].buffersLoose {
      var u :| 0 <= u < |s.threads| && AssignsBuffers(s.threads[u], d);
      assert AssignsBuffers(s'.threads[u], d);
    }
    if s.nodes[d].childDataLoose {
      var u :| 0 <= u < |s.threads| && AssignsChildren(s.threads[u], d);
      assert AssignsChildren(s'.threads[u], d);
    }
  }

  lemma {:induction false} HandedOver(s: State, t: nat, to: nat, x: nat, y: nat)
    requires t < |s.threads| && to < |s.threads| && x in s.threads[t].owned
    ensures Holders(Apply(s, HandOver(t, to, x)).value, y) == Holders(s, y)
  {
    hide Occurrences, Holding;
    var th := s.threads[t];
    var less := th.(owned := th.owned - multiset{x});
    var given := s.threads[t := less];
    HoldingUpdate(s.threads, t, less, y, |s.threads|);
    HoldingUpdate(given, to, given[to].(owned := given[to].owned + multiset{x}), y, |s.threads|);
  }

  lemma {:induction false} GivenAway(s: State, s': State, t: nat, to: nat, x: nat)
    requires t < |s.threads| && to < |s.threads| && s' == Apply(s, HandOver(t, to, x)).value && s.threads[t].Idle()
    requires ThreadOk(s.nodes, s.threads[t]) && s.threads[t].held == multiset{} && s.threads[t].via == {}
    requires x in s.threads[t].owned
    ensures ThreadOk(s'.nodes, s'.threads[t]) && s'.threads[t].next == s.threads[t].next
  {
    NothingNext(s'.nodes, s'.threads[t]);
  }

  lemma {:induction false} Given(s: State, t: nat, to: nat, x: nat)
    requires t < |s.threads| && to < |s.threads| && t != to && ThreadOk(s.nodes, s.threads[to])
    requires x in s.threads[t].owned && ThreadOk(s.nodes, s.threads[t])
    ensures ThreadOk(s.nodes, s.threads[to].(owned := s.threads[to].owned + multiset{x}))
  {
    hide PhaseOk, Uses;
    var th := s.threads[to];
    var th' := th.(owned := th.owned + multiset{x});
    assert ReadsOwned(s.nodes, th');
    SelfUntouched(s.nodes, th);
    PhaseKept(s.nodes, s.nodes, th, th');
  }

  lemma {:induction false} SelfUntouched(nodes: seq<Node>, th: Thread)
    requires ReadsOwned(nodes, th)
    ensures Untouched(nodes, nodes, th)
  {
  }

  // ---------------------------------------------------------------- calls

  lemma {:induction false} BegunBalanced(nodes: seq<Node>, th: Thread, call: Call)
    requires th.Idle() && th.held == multiset{}
    ensures Balanced(nodes, Begun(th, call))
  {
    var th' := Begun(th, call);
    assert th'.held + multiset(th'.retains) == multiset(th'.releases) + Uses(nodes, th'.next);
  }

  lemma {:induction false} BegunOk(s: State, t: nat, call: Call)
    requires Inv(s) && Allowed(s, Begin(t, call))
    ensures ThreadOk(s.nodes, Begun(s.threads[t], call))
  {
    hide NodeOk, LooseOk, ResetsApart, AllReachable, Node.Refs, Balanced, NoneLoose;
    IdleThread(s, t);
    BegunBalanced(s.nodes, s.threads[t], call);
    match call {
      case CallReset(d, _, _, _) => ResetNotLoose(s, d);
      case _ =>
    }
  }

  /** Only a Reset of d makes d loose. */
  lemma {:induction false} ResetNotLoose(s: State, d: nat)
    requires Inv(s) && d < |s.nodes| && forall u :: 0 <= u < |s.threads| ==> d !in Target(s.threads[u].next)
    ensures !s.nodes[d].Loose()
  {
    hide NodeOk, ThreadOk, ResetsApart;
    assert LooseOk(s, d);
  }

  lemma {:induction false} BeginSafe(s: State, t: nat, call: Call)
    requires Inv(s) && Allowed(s, Begin(t, call))
    ensures Inv(Apply(s, Begin(t, call)).value)
  {
    hide Inv, ThreadOk, AllReachable, NoneLoose;
    IdleThread(s, t);
    BegunOk(s, t, call);
    var th, th' := s.threads[t], Begun(s.threads[t], call);
    assert th'.owned + th'.held == th.owned + th.held;
    ReadSafe(s, Apply(s, Begin(t, call)).value, t);
  }

  /** An allowed step of any goroutine never touches a freed resource, and keeps the counts exact. */
  lemma {:induction false} StepSafe(s: State, a: Action)
    requires Inv(s) && Allowed(s, a)
    ensures Apply(s, a).Success? && Inv(Apply(s, a).value)
  {
    hide Inv, Touch, MayBegin, NoOtherReader, ReleaseStep, RetainStep, NextStep;
    match a {
      case Allocate(t) => AllocateSafe(s, t);
      case Retain(t, x) => ClientRetainSafe(s, t, x);
      case HandOver(t, to, x) => HandOverSafe(s, t, to, x);
      case Begin(t, call) => BeginSafe(s, t, call);
      case Advance(t) => AdvanceSafe(s, t);
    }
  }

  predicate Live(nodes: seq<Node>, x: nat) {
    x < |nodes| && nodes[x].count > 0
  }

  /** What a step of an operation counts or reads, or a client retains, exists and has not been freed. */
  lemma {:induction false} TouchesLive(s: State, a: Action)
    requires a.t < |s.threads| && Apply(s, a).Success?
    ensures a.Retain? ==> Live(s.nodes, a.x)
    ensures a.Advance? ==>
      var th := s.threads[a.t];
      if th.releases != [] then Live(s.nodes, th.releases[0])
      else if th.retains != [] then Live(s.nodes, th.retains[0])
      else th.next.Publish? || (!th.next.Nothing? && Live(s.nodes, th.next.d))
  {
  }

  // ---------------------------------------------------------------- runs

  /** n goroutines, and nothing allocated. */
  function Start(n: nat): State {
    State([], seq(n, i => NOBODY))
  }

  lemma {:induction false} StartInv(n: nat)
    ensures Inv(Start(n))
  {
    forall t | 0 <= t < n
      ensures ThreadOk(Start(n).nodes, Start(n).threads[t])
    {
      NothingNext([], NOBODY);
    }
  }

  function Run(s: State, steps: seq<Action>): Result<State>
    decreases |steps|
  {
    if steps == [] then Success(s)
    else
      var t := Apply(s, steps[0]);
      if t.Failure? then t else Run(t.value, steps[1..])
  }

  ghost predicate AllAllowed(s: State, steps: seq<Action>)
    decreases |steps|
  {
    steps == [] || (Allowed(s, steps[0]) && (Apply(s, steps[0]).Success? ==>
      AllAllowed(Apply(s, steps[0]).value, steps[1..])))
  }

  /** However the steps of the goroutines interleave, as long as they are allowed, none touches a freed resource. */
  lemma {:induction false} RunSafe(s: State, steps: seq<Action>)
    requires Inv(s) && AllAllowed(s, steps)
    ensures Run(s, steps).Success? && Inv(Run(s, steps).value)
    decreases |steps|
  {
    hide Inv, Allowed, Apply;
    if steps != [] {
      StepSafe(s, steps[0]);
      RunSafe(Apply(s, steps[0]).value, steps[1..]);
    }
  }

  ghost predicate AllIdle(s: State) {
    forall t :: 0 <= t < |s.threads| ==> s.threads[t].Idle()
  }

  /** Some Reset is between the first release from this list of d and its assignment. */
  ghost predicate BuffersInReset(s: State, d: nat) {
    exists t :: 0 <= t < |s.threads| && AssignsBuffers(s.threads[t], d)
  }

  ghost predicate ChildrenInReset(s: State, d: nat) {
    exists t :: 0 <= t < |s.threads| && AssignsChildren(s.threads[t], d)
  }

  /** A freed resource is named by no object, except while a Reset is about to replace the list. */
  lemma {:induction false} FreedUnnamed(s: State, x: nat, d: nat)
    requires Inv(s) && x < |s.nodes| && d < |s.nodes| && s.nodes[x].count == 0
    ensures x in s.nodes[d].buffers ==> BuffersInReset(s, d)
    ensures x in s.nodes[d].childData ==> ChildrenInReset(s, d)
  {
    hide NodeOk, ThreadOk, ResetsApart;
    assert LooseOk(s, d);
    var n := s.nodes[d];
    if (x in n.buffers && !n.buffersLoose) || (x in n.childData && !n.childDataLoose) {
      OwnAlive(s, d, x);
    }
  }

  lemma {:induction false} IdleNotLoose(s: State, d: nat)
    requires Inv(s) && AllIdle(s) && d < |s.nodes|
    ensures !s.nodes[d].Loose()
  {
    hide NodeOk, ThreadOk, ResetsApart;
    assert LooseOk(s, d);
  }

  /**
   After any allowed run from the start, in any interleaving: the count of a
   resource is what goroutines and objects hold, and it has been freed at most
   once, exactly when this is nothing. No object names a freed resource, except
   the object of a Reset that is about to replace the list. Between operations,
   what goroutines hold is what they own, and objects hold all that they name.
   */
  lemma {:induction false} FreedOnceAndOnlyUnused(n: nat, steps: seq<Action>, x: nat)
    requires AllAllowed(Start(n), steps)
    ensures Run(Start(n), steps).Success?
    ensures var s := Run(Start(n), steps).value; x < |s.nodes| ==>
      && s.nodes[x].count == Holders(s, x)
      && s.nodes[x].frees <= 1 && (s.nodes[x].frees == 1 <==> Holders(s, x) == 0)
      && (s.nodes[x].frees == 1 ==> forall d :: 0 <= d < |s.nodes| ==>
            && (x in s.nodes[d].buffers ==> BuffersInReset(s, d))
            && (x in s.nodes[d].childData ==> ChildrenInReset(s, d)))
    ensures var s := Run(Start(n), steps).value; AllIdle(s) ==>
      && (forall t :: 0 <= t < |s.threads| ==> s.threads[t].held == multiset{})
      && (forall d :: 0 <= d < |s.nodes| ==> s.nodes[d].Refs() == s.nodes[d].buffers + s.nodes[d].childData)
  {
    hide Occurrences, Holding, BuffersInReset, ChildrenInReset;
    StartInv(n);
    RunSafe(Start(n), steps);
    var s := Run(Start(n), steps).value;
    if x < |s.nodes| {
      assert NodeOk(s, x);
      if s.nodes[x].frees == 1 {
        forall d | 0 <= d < |s.nodes|
          ensures x in s.nodes[d].buffers ==> BuffersInReset(s, d)
          ensures x in s.nodes[d].childData ==> ChildrenInReset(s, d)
        {
          FreedUnnamed(s, x, d);
        }
      }
    }
    if AllIdle(s) {
      forall t | 0 <= t < |s.threads|
        ensures s.threads[t].held == multiset{}
      {
        IdleThread(s, t);
      }
      forall d | 0 <= d < |s.nodes|
        ensures s.nodes[d].Refs() == s.nodes[d].buffers + s.nodes[d].childData
      {
        IdleNotLoose(s, d);
      }
    }
  }

  lemma {:induction false} RunConcat(s: State, a: seq<Action>, b: seq<Action>)
    requires AllAllowed(s, a) && Run(s, a).Success? && AllAllowed(Run(s, a).value, b)
    ensures AllAllowed(s, a + b) && Run(s, a + b) == Run(Run(s, a).value, b)
    decreases |a|
  {
    hide Allowed, Apply;
    if a == [] {
      assert a + b == b;
    } else {
      assert (a + b)[1..] == a[1..] + b;
      RunConcat(Apply(s, a[0]).value, a[1..], b);
    }
  }

  // ---------------------------------------------------------------- nothing leaks

  /** Ranks that go down along every reference: objects do not refer to each other in a cycle. */
  predicate Acyclic(s: State, rank: seq<int>) {
    |rank| == |s.nodes| && forall d :: 0 <= d < |s.nodes| ==> RanksBelow(s.nodes[d].Refs(), rank, rank[d])
  }

  predicate RanksBelow(refs: seq<nat>, rank: seq<int>, bound: int) {
    forall r :: r in refs ==> r < |rank| && rank[r] < bound
  }

  lemma {:induction false} Highest(s: State, rank: seq<int>, x: nat, n: nat) returns (top: nat)
    requires |rank| == |s.nodes| && n <= |s.nodes| && x < |s.nodes| && s.nodes[x].count > 0
    ensures top < |s.nodes| && s.nodes[top].count > 0 && rank[top] >= rank[x]
    ensures forall y :: 0 <= y < n && s.nodes[y].count > 0 ==> rank[y] <= rank[top]
  {
    if n == 0 {
      top := x;
    } else {
      top := Highest(s, rank, x, n - 1);
      if s.nodes[n - 1].count > 0 && rank[n - 1] > rank[top] {
        top := n - 1;
      }
    }
  }

  lemma {:induction false} LiveReferrer(s: State, x: nat) returns (d: nat)
    requires Inv(s) && Occurrences(s.nodes, x, |s.nodes|) > 0
    ensures d < |s.nodes| && x in s.nodes[d].Refs() && s.nodes[d].count > 0
  {
    d := Referrer(s.nodes, x, |s.nodes|);
    assert NodeOk(s, d);
  }

  /** Once every reference has been given back, everything has been freed, unless objects form a cycle. */
  lemma {:induction false} NothingLeaks(s: State, rank: seq<int>, x: nat)
    requires Inv(s) && AllIdle(s) && Acyclic(s, rank) && x < |s.nodes|
    requires forall t :: 0 <= t < |s.threads| ==> s.threads[t].owned == multiset{}
    ensures s.nodes[x].frees == 1
  {
    hide Occurrences, ThreadOk, LooseOk, ResetsApart, Node.Refs, Holding;
    assert NodeOk(s, x);
    if s.nodes[x].count > 0 {
      var top := Highest(s, rank, x, |s.nodes|);
      assert NodeOk(s, top);
      if Holding(s.threads, top, |s.threads|) > 0 {
        var t := Holder(s.threads, top, |s.threads|);
        IdleThread(s, t);
        assert false;
      }
      var d := LiveReferrer(s, top);
      assert false;
    }
  }
}
