/** The LDREX/STREX retry loops of rtx_core_cm.h.

    `Rmw` is the shape they share.  The state machine lets any number of agents run such loops on one
    word, one instruction at a time, and the histories it produces are shown to be linearizable. */
module RetryLoops {
  import opened History
  import opened Monitor

  /** The names of the loops, so that a history can be read back. */
  datatype Name = Set32 | Clr32 | Chk32All | Chk32Any | Inc16Lt | Inc16Lim | Dec16Nz

  /** One retry loop: leave with CLREX when `exits` holds of the loaded value, otherwise try to store `next` of it. */
  datatype Rmw<!V> = Rmw(name: Name, exits: V -> bool, next: V -> V, result: V -> V, exitResult: V -> V)

  /** Where an agent stands inside its loop. */
  datatype Phase<!V> =
    | Idle
    | Fetch(op: Rmw<V>)            // about to execute LDREX
    | Compute(op: Rmw<V>)          // LDREX done, value in cell.seen
    | Done(op: Rmw<V>, ret: V)     // left the loop, about to return

  datatype State<!V> = State(cell: Cell<V>, phases: map<Agent, Phase<V>>, events: seq<Event<Rmw<V>, V>>) {
    ghost function At(a: Agent): Phase<V> {
      if a in phases then phases[a] else Idle
    }
  }

  datatype Label<!V> =
    | Begin(agent: Agent, op: Rmw<V>)
    | LoadExclusive(agent: Agent)
    | LoseTag(agent: Agent)        // exception entry, or any other reason the monitor may drop
    | StoreFails(agent: Agent)     // STREX returns 1, branch back
    | StoreSucceeds(agent: Agent)
    | ClearAndLeave(agent: Agent)  // CLREX on the early exit
    | Finish(agent: Agent)

  ghost predicate Enabled<V>(s: State<V>, l: Label<V>) {
    match l
    case Begin(a, _) => s.At(a).Idle?
    case LoadExclusive(a) => s.At(a).Fetch?
    case LoseTag(_) => true
    case StoreFails(a) => s.At(a).Compute? && a in s.cell.seen && !s.At(a).op.exits(s.cell.seen[a])
    case StoreSucceeds(a) =>
      s.At(a).Compute? && a in s.cell.tagged && a in s.cell.seen && !s.At(a).op.exits(s.cell.seen[a])
    case ClearAndLeave(a) => s.At(a).Compute? && a in s.cell.seen && s.At(a).op.exits(s.cell.seen[a])
    case Finish(a) => s.At(a).Done?
  }

  ghost function Step<V>(s: State<V>, l: Label<V>): State<V>
    requires Enabled(s, l)
  {
    var a := l.agent;
    match l
    case Begin(_, op) =>
      State(s.cell, s.phases[a := Fetch(op)], s.events + [Invoke(a, op)])
    case LoadExclusive(_) =>
      // The early exit is already decided by the loaded value: the call takes effect here.
      var op := s.At(a).op;
      var v := s.cell.word;
      State(s.cell.Ldrex(a), s.phases[a := Compute(op)],
            if op.exits(v) then s.events + [TakeEffect(a, op, op.exitResult(v))] else s.events)
    case LoseTag(_) =>
      s.(cell := s.cell.Untag(a))
    case StoreFails(_) =>
      State(s.cell.Untag(a), s.phases[a := Fetch(s.At(a).op)], s.events)
    case StoreSucceeds(_) =>
      var op := s.At(a).op;
      var v := s.cell.seen[a];
      State(s.cell.Store(op.next(v)), s.phases[a := Done(op, op.result(v))],
            s.events + [TakeEffect(a, op, op.result(v))])
    case ClearAndLeave(_) =>
      var op := s.At(a).op;
      State(s.cell.Untag(a), s.phases[a := Done(op, op.exitResult(s.cell.seen[a]))], s.events)
    case Finish(_) =>
      State(s.cell, s.phases[a := Idle], s.events + [Return(a, s.At(a).ret)])
  }

  ghost function Initial<V>(v: V): State<V> {
    State(FreshCell(v), map[], [])
  }

  /** The labels can be executed one after the other, starting with a word that holds v. */
  ghost predicate Feasible<V>(v: V, run: seq<Label<V>>)
    decreases |run|, 0
  {
    run == [] || (Feasible(v, run[..|run|-1]) && Enabled(Execute(v, run[..|run|-1]), run[|run|-1]))
  }

  ghost function Execute<V>(v: V, run: seq<Label<V>>): State<V>
    requires Feasible(v, run)
    decreases |run|, 1
  {
    if run == [] then Initial(v) else Step(Execute(v, run[..|run|-1]), run[|run|-1])
  }

  /** A retry loop seen as an operation on a word: it acts in one indivisible step. */
  ghost function AtomicWord<V>(): Spec<Rmw<V>, V, V> {
    Spec((op: Rmw<V>, v: V) => if op.exits(v) then op.exitResult(v) else op.result(v),
         (op: Rmw<V>, v: V) => if op.exits(v) then v else op.next(v))
  }

  // ---- The machine produces only such histories ----

  /** What the history must say about an agent, given where the agent stands. */
  ghost predicate Agrees<V>(s: State<V>, a: Agent) {
    var p := ProgressOf(s.events, a);
    match s.At(a)
    case Idle => p == Quiet
    case Fetch(op) => p == Called(op)
    case Compute(op) =>
      a in s.cell.seen &&
      p == (if op.exits(s.cell.seen[a]) then Effected(op, op.exitResult(s.cell.seen[a])) else Called(op))
    case Done(op, ret) => p == Effected(op, ret)
  }

  ghost predicate Inv<V>(v: V, s: State<V>) {
    && s.cell.Coherent()
    && Legal(AtomicWord(), v, s.events)
    && Replay(AtomicWord(), v, s.events) == s.cell.word
    && forall a :: Agrees(s, a)
  }

  /** A step adds at most one event, of its own agent. */
  lemma StepLogs<V>(v: V, s: State<V>, l: Label<V>) returns (e: Event<Rmw<V>, V>)
    requires Enabled(s, l)
    ensures Step(s, l).events == s.events || (Step(s, l).events == s.events + [e] && e.agent == l.agent)
    ensures forall b :: b != l.agent ==> ProgressOf(Step(s, l).events, b) == ProgressOf(s.events, b)
  {
    var s' := Step(s, l);
    if s'.events == s.events {
      e := Return(l.agent, v);
    } else {
      e := s'.events[|s.events|];
      assert s'.events == s.events + [e];
      Grow(AtomicWord(), v, s.events, e);
    }
  }

  lemma OthersStillAgree<V>(v: V, s: State<V>, l: Label<V>, b: Agent)
    requires Enabled(s, l) && Agrees(s, b) && b != l.agent
    ensures Agrees(Step(s, l), b)
  {
    var _ := StepLogs(v, s, l);
  }

  lemma ActorStillAgrees<V>(v: V, s: State<V>, l: Label<V>)
    requires s.cell.Coherent() && Enabled(s, l) && Agrees(s, l.agent)
    ensures Agrees(Step(s, l), l.agent)
  {
    var e := StepLogs(v, s, l);
    if Step(s, l).events != s.events {
      Grow(AtomicWord(), v, s.events, e);
    }
  }

  lemma StepKeepsInv<V>(v: V, s: State<V>, l: Label<V>)
    requires Inv(v, s) && Enabled(s, l)
    ensures Inv(v, Step(s, l))
  {
    var s' := Step(s, l);
    assert Agrees(s, l.agent);
    ActorStillAgrees(v, s, l);
    forall b ensures Agrees(s', b) {
      assert Agrees(s, b);
      if b != l.agent {
        OthersStillAgree(v, s, l, b);
      }
    }
    StepKeepsReplay(v, s, l);
  }

  /** The history stays legal, and the word stays its outcome. */
  lemma StepKeepsReplay<V>(v: V, s: State<V>, l: Label<V>)
    requires Inv(v, s) && Enabled(s, l)
    ensures var s' := Step(s, l);
            && s'.cell.Coherent() && Legal(AtomicWord(), v, s'.events)
            && Replay(AtomicWord(), v, s'.events) == s'.cell.word
  {
    var e := StepLogs(v, s, l);
    assert Agrees(s, l.agent);
    if Step(s, l).events != s.events {
      Grow(AtomicWord(), v, s.events, e);
    }
  }

  lemma {:induction false} RunKeepsInv<V>(v: V, run: seq<Label<V>>)
    requires Feasible(v, run)
    ensures Inv(v, Execute(v, run))
  {
    if run != [] {
      RunKeepsInv(v, run[..|run|-1]);
      StepKeepsInv(v, Execute(v, run[..|run|-1]), run[|run|-1]);
    }
  }

  /** Over all interleavings of any number of agents, at instruction granularity: the calls on one
      word are linearizable, and the word holds the outcome of the sequential execution. */
  lemma Linearizability<V>(v: V, run: seq<Label<V>>)
    requires Feasible(v, run)
    ensures Linearizable(AtomicWord(), v, Execute(v, run).events)
    ensures Execute(v, run).cell.word == Replay(AtomicWord(), v, Execute(v, run).events)
  {
    RunKeepsInv(v, run);
    var s := Execute(v, run);
    forall a ensures !ProgressOf(s.events, a).Broken? {
      assert Agrees(s, a);
    }
  }

  /** Whoever is inside a call can execute its next instruction: no interleaving is missing because a
      step is not enabled.  While the tag survives, a store can also succeed. */
  lemma NeverStuck<V>(v: V, run: seq<Label<V>>, a: Agent) returns (l: Label<V>)
    requires Feasible(v, run) && !Execute(v, run).At(a).Idle?
    ensures l.agent == a && !l.LoseTag? && Enabled(Execute(v, run), l)
    ensures l.StoreFails? && a in Execute(v, run).cell.tagged ==> Enabled(Execute(v, run), StoreSucceeds(a))
  {
    RunKeepsInv(v, run);
    var s := Execute(v, run);
    assert Agrees(s, a);
    l := match s.At(a)
      case Fetch(_) => LoadExclusive(a)
      case Compute(op) => if op.exits(s.cell.seen[a]) then ClearAndLeave(a) else StoreFails(a)
      case Done(_, _) => Finish(a);
  }
}
