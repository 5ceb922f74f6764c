/** Runs that break one rule of the protocol, and what becomes of them. */
module RefCountRules {
  import opened Wrappers
  import opened RefCounts

  /** Object 1 has the only reference to buffer 0, and two references of its own. */
  function Named(count: int, loose: bool): seq<Node> {
    [Node(count, [], [], if count == 0 then 1 else 0, false, false), Node(2, [0], [], 0, loose, false)]
  }

  function Owner(next: Next): Thread {
    Thread(multiset{1}, multiset{}, {}, [], [], next)
  }

  /** Two goroutines share object 1. */
  const SHARED := State(Named(1, false), [Owner(Nothing), Owner(Nothing)])

  lemma {:induction false} SharedInv()
    ensures Inv(SHARED)
  {
    hide AllReachable;
    var s := SHARED;
    NothingNext(s.nodes, Owner(Nothing));
    forall x | 0 <= x < 2
      ensures NodeOk(s, x)
    {
      assert Holding(s.threads, x, 1) == if x == 1 then 1 else 0;
      assert Holding(s.threads, x, 2) == if x == 1 then 2 else 0;
      assert s.nodes[0].Refs() == [] && s.nodes[1].Refs() == [0];
      assert Occurrences(s.nodes, x, 1) == 0;
      assert Occurrences(s.nodes, x, 2) == if x == 0 then 1 else 0;
    }
  }

  /** A run that visits the given states. */
  lemma {:induction false} Visits(states: seq<State>, steps: seq<Action>)
    requires |states| == |steps| + 1
    requires forall i :: 0 <= i < |steps| ==> Apply(states[i], steps[i]) == Success(states[i + 1])
    ensures Run(states[0], steps) == Success(states[|steps|])
    ensures (forall i :: 0 <= i < |steps| ==> Allowed(states[i], steps[i])) ==> AllAllowed(states[0], steps)
    decreases |steps|
  {
    hide Allowed, Apply;
    if steps != [] {
      assert Apply(states[0], steps[0]) == Success(states[1]);
      forall i | 0 <= i < |steps[1..]|
        ensures states[1..][i] == states[i + 1] && steps[1..][i] == steps[i + 1]
      {
      }
      Visits(states[1..], steps[1..]);
    }
  }

  lemma {:induction false} RunMore(s: State, a: seq<Action>, b: seq<Action>)
    requires Run(s, a).Success?
    ensures Run(s, a + b) == Run(Run(s, a).value, b)
    decreases |a|
  {
    hide Apply;
    if a == [] {
      assert a + b == b;
    } else {
      assert (a + b)[1..] == a[1..] + b;
      RunMore(Apply(s, a[0]).value, a[1..], b);
    }
  }

  lemma {:induction false} PairUpdate<T>(a: T, b: T, c: T)
    ensures [a, b][0 := c] == [c, b] && [a, b][1 := c] == [a, c]
  {
  }

  const RESET := CallReset(1, [], [], {})

  const RESETTING := Owner(OpenBuffers(1, [], []))

  const OPENED := Owner(AssignBuffers(1, [], [])).(held := multiset{0}, releases := [0])

  lemma {:induction false} ResetBegins(other: Thread)
    requires 1 !in Target(other.next)
    ensures var s := State(Named(1, false), [Owner(Nothing), other]);
      Allowed(s, Begin(0, RESET)) && Apply(s, Begin(0, RESET)) == Success(State(s.nodes, [RESETTING, other]))
  {
    PairUpdate(Owner(Nothing), other, RESETTING);
  }

  /** The first step of Reset that others can notice, allowed or not. */
  lemma {:induction false} ResetOpens(count: int, loose: bool, other: Thread)
    requires count > 0
    ensures Apply(State(Named(count, loose), [RESETTING, other]), Advance(0))
         == Success(State(Named(count, true), [OPENED, other]))
    ensures Apply(State(Named(count, loose), [other, RESETTING]), Advance(1))
         == Success(State(Named(count, true), [other, OPENED]))
  {
    PairUpdate(RESETTING, other, OPENED);
    PairUpdate(other, RESETTING, OPENED);
    PairUpdate(Named(count, loose)[0], Named(count, loose)[1], Named(count, true)[1]);
    assert multiset{} + multiset([0]) == multiset{0};
  }

  lemma {:induction false} ResetReleases(count: int, other: Thread)
    requires count > 0
    ensures Apply(State(Named(count, true), [OPENED, other]), Advance(0))
         == Success(State(Named(count - 1, true), [Owner(AssignBuffers(1, [], [])), other]))
  {
    PairUpdate(OPENED, other, Owner(AssignBuffers(1, [], [])));
    PairUpdate(Named(count, true)[0], Named(count, true)[1], Named(count - 1, true)[0]);
    assert [0][1..] == [] && multiset{0} - multiset{0} + multiset([]) == multiset{};
    assert Named(count, true)[0].Refs() == [];
  }

  const READ := CallNewSliceData(1)

  function Reader(next: Next): Thread {
    Owner(next).(via := {1})
  }

  const ASSIGNING := Owner(AssignBuffers(1, [], []))

  /** Buffer 0 has been freed, and the live object 1 still names it. */
  const FREED := State(Named(0, true), [ASSIGNING, Owner(Nothing)])

  lemma {:induction false} FirstSteps(other: Thread)
    requires 1 !in other.via
    ensures Allowed(State(Named(1, false), [RESETTING, other]), Advance(0))
    ensures Allowed(State(Named(1, true), [OPENED, other]), Advance(0))
  {
  }

  /**
   Without the rule that nothing starts to read an object between the first
   release and the assignment of its Reset: a slice of the object uses a freed
   buffer.
   */
  lemma {:induction false} StaleRead()
    ensures Inv(SHARED) && AllAllowed(SHARED, [Begin(0, RESET), Advance(0), Advance(0)])
    ensures Run(SHARED, [Begin(0, RESET), Advance(0), Advance(0)]) == Success(FREED)
    ensures !Allowed(FREED, Begin(1, READ))
    ensures Run(FREED, [Begin(1, READ), Advance(1), Advance(1)]) == Failure("used after being freed")
  {
    hide Allowed, Apply;
    SharedInv();
    var idle := Owner(Nothing);
    ResetBegins(idle);
    ResetOpens(1, false, idle);
    ResetReleases(1, idle);
    FirstSteps(idle);
    Visits([SHARED, State(Named(1, false), [RESETTING, idle]), State(Named(1, true), [OPENED, idle]), FREED],
      [Begin(0, RESET), Advance(0), Advance(0)]);
    StaleSteps();
  }

  lemma {:induction false} ReadBegins(nodes: seq<Node>, first: Thread)
    requires nodes == Named(0, true) || nodes == Named(1, false)
    ensures Apply(State(nodes, [first, Owner(Nothing)]), Begin(1, READ))
         == Success(State(nodes, [first, Reader(ReadBuffers(1))]))
    ensures Apply(State(nodes, [first, Reader(ReadBuffers(1))]), Advance(1))
         == Success(State(nodes, [first, Reader(ReadChildren(1)).(retains := [0])]))
  {
    PairUpdate(first, Owner(Nothing), Reader(ReadBuffers(1)));
    PairUpdate(first, Reader(ReadBuffers(1)), Reader(ReadChildren(1)).(retains := [0]));
  }

  lemma {:induction false} StaleSteps()
    ensures !Allowed(FREED, Begin(1, READ))
    ensures Run(FREED, [Begin(1, READ), Advance(1), Advance(1)]) == Failure("used after being freed")
  {
    var s1 := State(FREED.nodes, [ASSIGNING, Reader(ReadBuffers(1))]);
    var s2 := State(FREED.nodes, [ASSIGNING, Reader(ReadChildren(1)).(retains := [0])]);
    ReadBegins(FREED.nodes, ASSIGNING);
    Visits([FREED, s1, s2], [Begin(1, READ), Advance(1)]);
    RunMore(FREED, [Begin(1, READ), Advance(1)], [Advance(1)]);
    assert [Begin(1, READ), Advance(1)] + [Advance(1)] == [Begin(1, READ), Advance(1), Advance(1)];
    assert Run(s2, [Advance(1)]) == Failure("used after being freed");
    assert !NoneLoose(FREED.nodes, {1});
  }

  /** Without the rule that Resets of an object do not overlap: both release what it names. */
  lemma {:induction false} OverlappingResets()
    ensures Inv(SHARED) && Allowed(SHARED, Begin(0, RESET))
    ensures Apply(SHARED, Begin(0, RESET)) == Success(State(Named(1, false), [RESETTING, Owner(Nothing)]))
    ensures !Allowed(State(Named(1, false), [RESETTING, Owner(Nothing)]), Begin(1, RESET))
    ensures Run(SHARED, [Begin(0, RESET), Begin(1, RESET), Advance(0), Advance(1), Advance(0), Advance(1)])
         == Failure("used after being freed")
  {
    hide Allowed, Apply;
    SharedInv();
    ResetBegins(Owner(Nothing));
    SecondReset();
    ResetOpens(1, false, RESETTING);
    ResetOpens(1, true, OPENED);
    ResetReleases(1, OPENED);
    var s := State(Named(0, true), [ASSIGNING, OPENED]);
    var steps := [Begin(0, RESET), Begin(1, RESET), Advance(0), Advance(1), Advance(0)];
    Visits([SHARED, State(Named(1, false), [RESETTING, Owner(Nothing)]), State(Named(1, false), [RESETTING, RESETTING]),
      State(Named(1, true), [OPENED, RESETTING]), State(Named(1, true), [OPENED, OPENED]), s], steps);
    RunMore(SHARED, steps, [Advance(1)]);
    assert steps + [Advance(1)] == [Begin(0, RESET), Begin(1, RESET), Advance(0), Advance(1), Advance(0), Advance(1)];
    ReleaseFreed();
  }

  lemma {:induction false} SecondReset()
    ensures var s := State(Named(1, false), [RESETTING, Owner(Nothing)]);
      && !Allowed(s, Begin(1, RESET))
      && Apply(s, Begin(1, RESET)) == Success(State(s.nodes, [RESETTING, RESETTING]))
  {
    var s := State(Named(1, false), [RESETTING, Owner(Nothing)]);
    PairUpdate(RESETTING, Owner(Nothing), RESETTING);
    assert 1 in Target(s.threads[0].next);
  }

  lemma {:induction false} ReleaseFreed()
    ensures Run(State(Named(0, true), [ASSIGNING, OPENED]), [Advance(1)]) == Failure("used after being freed")
  {
  }

  const HOLDING := Reader(ReadChildren(1)).(held := multiset{0})

  /** A slice has been made, and a reference to buffer 0 is left over. */
  const TORN := State([Named(1, false)[0], NewNode([], []).(count := 2), NewNode([], [])],
                      [Owner(OpenChildren(1, [])), Owner(Nothing).(owned := multiset{1, 2}, held := multiset{0})])

  /**
   Without the rule that Reset does not start to release from an object that is
   being read: the slice retained what the object named before, and holds what
   it names now. Nobody will release what was retained.
   */
  lemma {:induction false} TornRead()
    ensures Inv(SHARED) && AllAllowed(SHARED, [Begin(1, READ), Advance(1), Advance(1), Begin(0, RESET)])
    ensures Run(SHARED, [Begin(1, READ), Advance(1), Advance(1), Begin(0, RESET)])
         == Success(State(Named(2, false), [RESETTING, HOLDING]))
    ensures !Allowed(State(Named(2, false), [RESETTING, HOLDING]), Advance(0))
    ensures Run(State(Named(2, false), [RESETTING, HOLDING]),
          [Advance(0), Advance(0), Advance(0), Advance(1), Advance(1)])
         == Success(TORN)
    ensures TORN.threads[1].Idle() && 0 in TORN.threads[1].held && !Inv(TORN)
  {
    hide Allowed, Apply, Inv;
    SharedInv();
    var idle := Owner(Nothing);
    var reading := Reader(ReadChildren(1)).(retains := [0]);
    ReadBegins(SHARED.nodes, idle);
    ReaderRetains(idle);
    ResetBeside();
    TornAllowed();
    Visits([SHARED, State(Named(1, false), [idle, Reader(ReadBuffers(1))]), State(Named(1, false), [idle, reading]),
      State(Named(2, false), [idle, HOLDING]), State(Named(2, false), [RESETTING, HOLDING])],
      [Begin(1, READ), Advance(1), Advance(1), Begin(0, RESET)]);
    TornSteps();
    if Inv(TORN) {
      IdleThread(TORN, 1);
    }
  }

  lemma {:induction false} ReaderRetains(first: Thread)
    ensures Apply(State(Named(1, false), [first, Reader(ReadChildren(1)).(retains := [0])]), Advance(1))
         == Success(State(Named(2, false), [first, HOLDING]))
  {
    PairUpdate(first, Reader(ReadChildren(1)).(retains := [0]), HOLDING);
    PairUpdate(Named(1, false)[0], Named(1, false)[1], Named(2, false)[0]);
    assert [0][1..] == [] && multiset{} + multiset{0} == multiset{0};
  }

  lemma {:induction false} ResetBeside()
    ensures var s := State(Named(2, false), [Owner(Nothing), HOLDING]);
      Allowed(s, Begin(0, RESET)) && Apply(s, Begin(0, RESET)) == Success(State(s.nodes, [RESETTING, HOLDING]))
  {
    PairUpdate(Owner(Nothing), HOLDING, RESETTING);
  }

  lemma {:induction false} TornAllowed()
    ensures var idle := Owner(Nothing);
      && Allowed(SHARED, Begin(1, READ))
      && Allowed(State(Named(1, false), [idle, Reader(ReadBuffers(1))]), Advance(1))
      && Allowed(State(Named(1, false), [idle, Reader(ReadChildren(1)).(retains := [0])]), Advance(1))
      && !Allowed(State(Named(2, false), [RESETTING, HOLDING]), Advance(0))
  {
    var s := State(Named(2, false), [RESETTING, HOLDING]);
    assert 1 in s.threads[1].via && 1 in Opens(s.threads[0]);
  }

  lemma {:induction false} TornSteps()
    ensures Run(State(Named(2, false), [RESETTING, HOLDING]),
          [Advance(0), Advance(0), Advance(0), Advance(1), Advance(1)])
         == Success(TORN)
  {
    hide Apply;
    ResetOpens(2, false, HOLDING);
    ResetReleases(2, HOLDING);
    TornAssign();
    TornPublish();
    var nodes := [Named(1, false)[0], NewNode([], []).(count := 2)];
    var reset := Owner(OpenChildren(1, []));
    Visits([State(Named(2, false), [RESETTING, HOLDING]), State(Named(2, true), [OPENED, HOLDING]),
      State(Named(1, true), [ASSIGNING, HOLDING]), State(nodes, [reset, HOLDING]),
      State(nodes, [reset, HOLDING.(next := PublishSlice(1))]), TORN],
      [Advance(0), Advance(0), Advance(0), Advance(1), Advance(1)]);
  }

  lemma {:induction false} TornAssign()
    ensures Apply(State(Named(1, true), [ASSIGNING, HOLDING]), Advance(0))
         == Success(State([Named(1, false)[0], NewNode([], []).(count := 2)], [Owner(OpenChildren(1, [])), HOLDING]))
  {
    PairUpdate(ASSIGNING, HOLDING, Owner(OpenChildren(1, [])));
    PairUpdate(Named(1, true)[0], Named(1, true)[1], NewNode([], []).(count := 2));
    var none: seq<nat> := [];
    assert multiset(none) - multiset(none) == multiset{};
  }

  lemma {:induction false} TornPublish()
    ensures var s := State([Named(1, false)[0], NewNode([], []).(count := 2)], [Owner(OpenChildren(1, [])), HOLDING]);
      && Apply(s, Advance(1)) == Success(State(s.nodes, [s.threads[0], HOLDING.(next := PublishSlice(1))]))
      && Apply(State(s.nodes, [s.threads[0], HOLDING.(next := PublishSlice(1))]), Advance(1)) == Success(TORN)
  {
    PairUpdate(Owner(OpenChildren(1, [])), HOLDING, HOLDING.(next := PublishSlice(1)));
    PairUpdate(Owner(OpenChildren(1, [])), HOLDING.(next := PublishSlice(1)), TORN.threads[1]);
    var n := NewNode([], []).(count := 2);
    assert [Named(1, false)[0], n] + [NewNode([], [])] == TORN.nodes;
    assert n.buffers + n.childData == [] && multiset(n.buffers + n.childData) == multiset{};
    assert multiset{1} + multiset{2} == multiset{1, 2} && multiset{0} - multiset{} == multiset{0};
  }
}
