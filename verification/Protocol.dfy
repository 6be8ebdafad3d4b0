/** The event flags object under preemption.

    One kernel context (service calls and post-processing, which never interleave with each other) and
    any number of interrupt handlers work on one flag word.  Every access to the word is a step of its
    own: LDREX, STREX that succeeds or fails, CLREX, plain load.  Handlers may run between any two
    steps of the kernel and between any two steps of each other.

    The lists, the ISR queue and the scheduler are touched by the kernel only, so one kernel action on
    them is one step.  The ISR queue is assumed to accept every registration. */
module Protocol {
  import opened Bits
  import opened Monitor
  import opened FlagWord
  import opened Sweep
  import opened AtomicOps
  import RetryLoops

  type Thread = nat
  const KERNEL: Agent := 0

  /** What a helper does to the word. */
  datatype WordOp = SetOp(bits: Word) | ClearOp(bits: Word) | CheckOp(flags: Word, options: Word) {
    /** The retry loop leaves with CLREX when it has loaded v. */
    predicate Exits(v: Word) {
      CheckOp? && !Condition(v, flags, options)
    }

    function Next(v: Word): Word {
      match this
      case SetOp(b) => v + b
      case ClearOp(b) => v - b
      case CheckOp(f, o) => v - f
    }

    function Result(v: Word): Word {
      if SetOp? then v + bits else v
    }

    /** A check that does not clear is a single load. */
    predicate Plain() {
      CheckOp? && !Clears(options)
    }
  }

  /** The read-modify-write of `AtomicOps` behind a helper. */
  ghost function LoopOf(op: WordOp): RetryLoops.Rmw<Word> {
    match op
    case SetOp(b) => SetBits(b)
    case ClearOp(b) => ClearBits(b)
    case CheckOp(f, o) => CheckLoop(f, o)
  }

  /** The accesses below are those of the retry loops, with the same exits, stores and results. */
  lemma OperationsAreTheLoops(op: WordOp, v: Word)
    requires !op.Plain()
    ensures op.Exits(v) == LoopOf(op).exits(v)
    ensures !op.Exits(v) ==> op.Next(v) == LoopOf(op).next(v) && op.Result(v) == LoopOf(op).result(v)
    ensures op.Exits(v) ==> LoopOf(op).exitResult(v) == {}
  {
    if op.CheckOp? {
      assert LoopOf(op) == if WAIT_ALL in op.options then CheckAll(op.flags) else CheckAny(op.flags);
    }
  }

  /** Inside a retry loop: before the LDREX, or between LDREX and STREX or CLREX. */
  datatype Phase = Fetch | Compute

  datatype Kernel =
    | Rest                                              // a thread runs
    | Setting(flags: Word, phase: Phase)                // svcRtxEventFlagsSet, in EventFlagsSet
    | Sweeping(index: nat, phase: Phase)                // either sweep, at the waiter with this position
    | Clearing(flags: Word, phase: Phase)               // svcRtxEventFlagsClear
    | Waiting(w: Waiter<Thread>, timed: bool, phase: Phase) // svcRtxEventFlagsWait, in EventFlagsCheck
    | Blocking(w: Waiter<Thread>)                       // ... the check failed, the thread is about to be listed
    | Deleting                                          // svcRtxEventFlagsDelete, draining the list

  datatype Isr =
    | IsrSetting(flags: Word, phase: Phase)             // isrRtxEventFlagsSet, in EventFlagsSet
    | IsrRegistering                                    // ... about to call osRtxPostProcess
    | IsrPolling(flags: Word, options: Word, phase: Phase) // isrRtxEventFlagsWait, in EventFlagsCheck
    | IsrClearing(flags: Word, phase: Phase)            // svcRtxEventFlagsClear, called from a handler

  /** Whose outcome it is: a thread's wait, a handler's poll, or a call refused before it began. */
  datatype Caller = ByThread(w: Waiter<Thread>) | ByHandler(agent: Agent) | AtOnce

  /** Sets as they happen to the word, and the outcomes of waits. */
  datatype Entry =
    | DidSet(agent: Agent, bits: Word)
    | Delivered(caller: Caller, flags: Word, options: Word, value: Word)
    | Refused(caller: Caller, code: Word)

  datatype State = State(
    cell: Cell<Word>,
    list: seq<Waiter<Thread>>,
    kernel: Kernel,
    isrs: map<Agent, Isr>,
    registered: nat,
    alive: bool,
    log: seq<Entry>)
  {
    ghost function Log(e: Entry): State {
      this.(log := log + [e])
    }
  }

  /** The word operation an agent is in the middle of. */
  datatype Current = None | In(op: WordOp, phase: Phase)

  ghost function CurrentOf(s: State, a: Agent): Current {
    if a == KERNEL then
      match s.kernel
      case Setting(f, p) => In(SetOp(f), p)
      case Sweeping(i, p) => if i < |s.list| then In(CheckOp(s.list[i].flags, s.list[i].options), p) else None
      case Clearing(f, p) => In(ClearOp(f), p)
      case Waiting(w, _, p) => In(CheckOp(w.flags, w.options), p)
      case _ => None
    else if a in s.isrs then
      match s.isrs[a]
      case IsrSetting(f, p) => In(SetOp(f), p)
      case IsrPolling(f, o, p) => In(CheckOp(f, o), p)
      case IsrClearing(f, p) => In(ClearOp(f), p)
      case IsrRegistering => None
    else None
  }

  ghost function WithPhase(s: State, a: Agent, p: Phase): State
    requires CurrentOf(s, a).In?
  {
    if a == KERNEL then s.(kernel := s.kernel.(phase := p)) else s.(isrs := s.isrs[a := s.isrs[a].(phase := p)])
  }

  ghost function Without<X>(q: seq<X>, i: nat): seq<X>
    requires i < |q|
  {
    q[..i] + q[i+1..]
  }

  ghost function InsertAt<X>(q: seq<X>, i: nat, x: X): seq<X>
    requires i <= |q|
  {
    q[..i] + [x] + q[i..]
  }

  /** The helper has returned `result`: what its caller does next. */
  ghost function Resume(s: State, a: Agent, result: Word): State
    requires CurrentOf(s, a).In?
  {
    if a == KERNEL then
      match s.kernel
      case Setting(_, _) => s.(kernel := Sweeping(0, Fetch))
      case Clearing(_, _) => s.(kernel := Rest)
      case Sweeping(i, _) =>
        var w := s.list[i];
        if result != {} then
          s.(kernel := Sweeping(i, Fetch), list := Without(s.list, i))
            .Log(Delivered(ByThread(w), w.flags, w.options, result))
        else s.(kernel := Sweeping(i + 1, Fetch))
      case Waiting(w, timed, _) =>
        if result != {} then s.(kernel := Rest).Log(Delivered(ByThread(w), w.flags, w.options, result))
        else if timed then s.(kernel := Blocking(w))
        else s.(kernel := Rest).Log(Refused(ByThread(w), OS_ERROR_RESOURCE))
      case _ => s
    else
      match s.isrs[a]
      case IsrSetting(_, _) => s.(isrs := s.isrs[a := IsrRegistering])
      case IsrPolling(f, o, _) =>
        s.(isrs := s.isrs - {a})
         .Log(if result != {} then Delivered(ByHandler(a), f, o, result)
              else Refused(ByHandler(a), OS_ERROR_RESOURCE))
      case IsrClearing(_, _) => s.(isrs := s.isrs - {a})
      case IsrRegistering => s
  }

  datatype Label =
    // one access to the flag word
    | LoadExclusive(agent: Agent)
    | StoreFails(agent: Agent)
    | StoreSucceeds(agent: Agent)
    | ClearAndLeave(agent: Agent)
    | PlainLoad(agent: Agent)
    | LoseTag(agent: Agent)
    // the kernel
    | BeginSet(flags: Word)
    | BeginClear(flags: Word)
    | BeginWait(w: Waiter<Thread>, timed: bool)
    | List(position: nat)          // the thread is suspended and listed at a position its priority decides
    | NotSuspended                 // osRtxThreadWaitEnter refused
    | TakeFromQueue                // post-processing starts
    | EndSweep
    | TimeOut(position: nat)
    | Terminate(position: nat)     // the thread is terminated
    | Resort(position: nat, to: nat) // its priority changed
    | BeginDelete
    | Release
    | EndDelete
    | RefuseParameter
    // interrupt handlers
    | IsrBeginSet(agent: Agent, flags: Word)
    | IsrBeginPoll(agent: Agent, flags: Word, options: Word)
    | IsrBeginClear(agent: Agent, flags: Word)
    | IsrRegister(agent: Agent)

  ghost predicate Enabled(s: State, l: Label) {
    match l
    case LoadExclusive(a) => var c := CurrentOf(s, a); c.In? && c.phase.Fetch? && !c.op.Plain()
    case StoreFails(a) =>
      var c := CurrentOf(s, a);
      c.In? && c.phase.Compute? && a in s.cell.seen && !c.op.Exits(s.cell.seen[a])
    case StoreSucceeds(a) =>
      var c := CurrentOf(s, a);
      c.In? && c.phase.Compute? && a in s.cell.seen && !c.op.Exits(s.cell.seen[a]) && a in s.cell.tagged
    case ClearAndLeave(a) =>
      var c := CurrentOf(s, a);
      c.In? && c.phase.Compute? && a in s.cell.seen && c.op.Exits(s.cell.seen[a])
    case PlainLoad(a) => var c := CurrentOf(s, a); c.In? && c.phase.Fetch? && c.op.Plain()
    case LoseTag(_) => true
    case BeginSet(f) => s.kernel.Rest? && s.alive && ValidFlags(f)
    case BeginClear(f) => s.kernel.Rest? && s.alive && ValidFlags(f)
    case BeginWait(w, _) => s.kernel.Rest? && s.alive && ValidFlags(w.flags)
    case List(k) => s.kernel.Blocking? && k <= |s.list|
    case NotSuspended => s.kernel.Blocking?
    case TakeFromQueue => s.kernel.Rest? && s.registered > 0
    case EndSweep => s.kernel.Sweeping? && s.kernel.index >= |s.list|
    case TimeOut(k) => s.kernel.Rest? && k < |s.list|
    case Terminate(k) => s.kernel.Rest? && k < |s.list|
    case Resort(k, to) => s.kernel.Rest? && k < |s.list| && to < |s.list|
    case BeginDelete => s.kernel.Rest? && s.alive
    case Release => s.kernel.Deleting? && s.list != []
    case EndDelete => s.kernel.Deleting? && s.list == []
    case RefuseParameter => true
    case IsrBeginSet(a, f) => a != KERNEL && a !in s.isrs && s.alive && ValidFlags(f)
    case IsrBeginPoll(a, f, _) => a != KERNEL && a !in s.isrs && s.alive && ValidFlags(f)
    case IsrBeginClear(a, f) => a != KERNEL && a !in s.isrs && s.alive && ValidFlags(f)
    case IsrRegister(a) => a != KERNEL && a in s.isrs && s.isrs[a].IsrRegistering?
  }

  ghost function Step(s: State, l: Label): State
    requires Enabled(s, l)
  {
    match l
    case LoadExclusive(a) => WithPhase(s, a, Compute).(cell := s.cell.Ldrex(a))
    case StoreFails(a) => WithPhase(s, a, Fetch).(cell := s.cell.Untag(a))
    case StoreSucceeds(a) =>
      var op, v := CurrentOf(s, a).op, s.cell.seen[a];
      var s' := Resume(s, a, op.Result(v)).(cell := s.cell.Store(op.Next(v)));
      if op.SetOp? then s'.Log(DidSet(a, op.bits)) else s'
    case ClearAndLeave(a) => Resume(s, a, {}).(cell := s.cell.Untag(a))
    case PlainLoad(a) =>
      var op := CurrentOf(s, a).op;
      Resume(s, a, Check(s.cell.word, op.flags, op.options))
    case LoseTag(a) => s.(cell := s.cell.Untag(a))
    case BeginSet(f) => s.(kernel := Setting(f, Fetch))
    case BeginClear(f) => s.(kernel := Clearing(f, Fetch))
    case BeginWait(w, timed) => s.(kernel := Waiting(w, timed, Fetch))
    case List(k) => s.(kernel := Rest, list := InsertAt(s.list, k, s.kernel.w))
    case NotSuspended => s.(kernel := Rest).Log(Refused(ByThread(s.kernel.w), OS_ERROR_TIMEOUT))
    case TakeFromQueue => s.(registered := s.registered - 1, kernel := if s.alive then Sweeping(0, Fetch) else Rest)
    case EndSweep => s.(kernel := Rest)
    case TimeOut(k) => s.(list := Without(s.list, k)).Log(Refused(ByThread(s.list[k]), OS_ERROR_TIMEOUT))
    case Terminate(k) => s.(list := Without(s.list, k))
    case Resort(k, to) => s.(list := InsertAt(Without(s.list, k), to, s.list[k]))
    case BeginDelete => s.(kernel := Deleting)
    case Release => s.(list := s.list[1..]).Log(Refused(ByThread(s.list[0]), OS_ERROR_RESOURCE))
    case EndDelete => s.(kernel := Rest, alive := false)
    case RefuseParameter => s.Log(Refused(AtOnce, OS_ERROR_PARAMETER))
    case IsrBeginSet(a, f) => s.(isrs := s.isrs[a := IsrSetting(f, Fetch)])
    case IsrBeginPoll(a, f, o) => s.(isrs := s.isrs[a := IsrPolling(f, o, Fetch)])
    case IsrBeginClear(a, f) => s.(isrs := s.isrs[a := IsrClearing(f, Fetch)])
    case IsrRegister(a) => s.(isrs := s.isrs - {a}, registered := s.registered + 1)
  }

  /** svcRtxEventFlagsNew */
  ghost function Initial(): State {
    State(FreshCell({}), [], Rest, map[], 0, true, [])
  }

  ghost predicate Feasible(run: seq<Label>)
    decreases |run|, 0
  {
    run == [] || (Feasible(run[..|run|-1]) && Enabled(Execute(run[..|run|-1]), run[|run|-1]))
  }

  ghost function Execute(run: seq<Label>): State
    requires Feasible(run)
    decreases |run|, 1
  {
    if run == [] then Initial() else Step(Execute(run[..|run|-1]), run[|run|-1])
  }

  // ---- The flag word ----

  ghost predicate WordInv(s: State) {
    && s.cell.Coherent() && ValidFlags(s.cell.word)
    && (s.kernel.Setting? ==> ValidFlags(s.kernel.flags))
    && (forall a :: a in s.isrs && s.isrs[a].IsrSetting? ==> ValidFlags(s.isrs[a].flags))
  }

  /** Between LDREX and the end of the loop the register holds a loaded value. */
  ghost predicate Loaded(s: State, a: Agent) {
    CurrentOf(s, a).In? && CurrentOf(s, a).phase.Compute? ==> a in s.cell.seen
  }

  lemma StoreKeepsWord(s: State, l: Label)
    requires WordInv(s) && Enabled(s, l) && l.StoreSucceeds?
    ensures WordInv(Step(s, l))
  {
    var op := CurrentOf(s, l.agent).op;
    assert op.SetOp? ==> ValidFlags(op.bits);
    assert ValidFlags(op.Next(s.cell.word));
  }

  lemma StepKeepsWord(s: State, l: Label)
    requires WordInv(s) && Enabled(s, l)
    ensures WordInv(Step(s, l))
  {
    if l.StoreSucceeds? {
      StoreKeepsWord(s, l);
    }
  }

  ghost predicate IsAccess(l: Label) {
    l.LoadExclusive? || l.StoreFails? || l.StoreSucceeds? || l.ClearAndLeave? || l.PlainLoad? || l.LoseTag?
  }

  ghost predicate IsIsr(l: Label) {
    l.IsrBeginSet? || l.IsrBeginPoll? || l.IsrBeginClear? || l.IsrRegister?
  }

  lemma OthersNotResumed(s: State, a: Agent, result: Word, b: Agent)
    requires CurrentOf(s, a).In? && b != a
    ensures CurrentOf(Resume(s, a, result), b) == CurrentOf(s, b)
  {
  }

  /** An access of one agent leaves the other agents where they are. */
  lemma OthersUnmoved(s: State, l: Label, b: Agent)
    requires Enabled(s, l) && IsAccess(l) && b != l.agent
    ensures CurrentOf(Step(s, l), b) == CurrentOf(s, b)
  {
    if l.StoreSucceeds? {
      var r := CurrentOf(s, l.agent).op.Result(s.cell.seen[l.agent]);
      OthersNotResumed(s, l.agent, r, b);
      assert CurrentOf(Step(s, l), b) == CurrentOf(Resume(s, l.agent, r), b);
    } else if l.ClearAndLeave? {
      OthersNotResumed(s, l.agent, {}, b);
    } else if l.PlainLoad? {
      var op := CurrentOf(s, l.agent).op;
      OthersNotResumed(s, l.agent, Check(s.cell.word, op.flags, op.options), b);
    }
  }

  /** When a helper returns, its caller is not between LDREX and STREX. */
  lemma ResumedAtRest(s: State, a: Agent, result: Word)
    requires CurrentOf(s, a).In?
    ensures var c := CurrentOf(Resume(s, a, result), a); c.In? ==> c.phase.Fetch?
  {
  }

  lemma OwnAccessKeepsLoaded(s: State, l: Label)
    requires Enabled(s, l) && IsAccess(l) && Loaded(s, l.agent)
    ensures Loaded(Step(s, l), l.agent)
  {
    var s', a := Step(s, l), l.agent;
    if l.StoreSucceeds? {
      ResumedAtRest(s, a, CurrentOf(s, a).op.Result(s.cell.seen[a]));
      assert CurrentOf(s', a) == CurrentOf(Resume(s, a, CurrentOf(s, a).op.Result(s.cell.seen[a])), a);
    } else if l.ClearAndLeave? {
      ResumedAtRest(s, a, {});
    } else if l.PlainLoad? {
      ResumedAtRest(s, a, Check(s.cell.word, CurrentOf(s, a).op.flags, CurrentOf(s, a).op.options));
    }
  }

  lemma IsrStepKeepsLoaded(s: State, l: Label, a: Agent)
    requires Enabled(s, l) && IsIsr(l) && Loaded(s, a)
    ensures Loaded(Step(s, l), a)
  {
    assert a != l.agent ==> CurrentOf(Step(s, l), a) == CurrentOf(s, a);
  }

  lemma KernelStepKeepsLoaded(s: State, l: Label, a: Agent)
    requires Enabled(s, l) && !IsAccess(l) && !IsIsr(l) && Loaded(s, a)
    ensures Loaded(Step(s, l), a)
  {
    assert a != KERNEL ==> CurrentOf(Step(s, l), a) == CurrentOf(s, a);
  }

  lemma StepKeepsLoaded(s: State, l: Label, a: Agent)
    requires Enabled(s, l) && Loaded(s, a)
    ensures Loaded(Step(s, l), a)
  {
    if IsIsr(l) {
      IsrStepKeepsLoaded(s, l, a);
    } else if !IsAccess(l) {
      KernelStepKeepsLoaded(s, l, a);
    } else if a == l.agent {
      OwnAccessKeepsLoaded(s, l);
    } else {
      OthersUnmoved(s, l, a);
    }
  }

  // ---- No lost wake-up ----

  /** The waiter would be woken if it were checked now. */
  ghost predicate Satisfied(s: State, w: Waiter<Thread>) {
    Check(s.cell.word, w.flags, w.options) != {}
  }

  /** Post-processing of the object is queued, or an interrupt handler is about to queue it. */
  ghost predicate Pending(s: State) {
    s.registered > 0 || exists a :: a in s.isrs && s.isrs[a].IsrRegistering?
  }

  /** The kernel's check has loaded a value that fails it: the outcome is fixed whatever the word becomes. */
  ghost predicate DecidedNo(s: State) {
    var c := CurrentOf(s, KERNEL);
    c.In? && c.phase.Compute? && KERNEL in s.cell.seen && c.op.Exits(s.cell.seen[KERNEL])
  }

  ghost predicate ToBeVisited(s: State, j: nat) {
    s.kernel.Sweeping? && (j > s.kernel.index || (j == s.kernel.index && !DecidedNo(s)))
  }

  ghost predicate NoneLost(s: State) {
    && (forall j :: 0 <= j < |s.list| && Satisfied(s, s.list[j]) ==> Pending(s) || ToBeVisited(s, j))
    && (s.kernel.Blocking? && Satisfied(s, s.kernel.w) ==> Pending(s))
    && (s.kernel.Waiting? && DecidedNo(s) && Satisfied(s, s.kernel.w) ==> Pending(s))
    && (!s.alive ==> s.list == [] && s.kernel.Rest?)
  }

  ghost predicate SetsFlags(s: State, l: Label)
    requires Enabled(s, l)
  {
    l.StoreSucceeds? && CurrentOf(s, l.agent).op.SetOp?
  }

  /** Only a successful set adds flags. */
  lemma FlagsOnlyShrink(s: State, l: Label)
    requires WordInv(s) && Enabled(s, l) && !SetsFlags(s, l)
    ensures Step(s, l).cell.word <= s.cell.word
    ensures forall w :: Satisfied(Step(s, l), w) ==> Satisfied(s, w)
  {
    var s' := Step(s, l);
    forall w | Satisfied(s', w) ensures Satisfied(s, w) {
      CheckMonotone(s.cell.word, s'.cell.word, w.flags, w.options);
    }
  }

  /** A registration stays until post-processing takes it. */
  lemma PendingStays(s: State, l: Label)
    requires Pending(s) && Enabled(s, l) && !l.TakeFromQueue?
    ensures Pending(Step(s, l))
  {
    var s' := Step(s, l);
    if s.registered == 0 {
      var a :| a in s.isrs && s.isrs[a].IsrRegistering?;
      if s'.registered == 0 {
        assert a in s'.isrs && s'.isrs[a].IsrRegistering?;
      }
    }
  }

  lemma SetKeepsNoneLost(s: State, l: Label)
    requires WordInv(s) && NoneLost(s) && Enabled(s, l) && SetsFlags(s, l)
    ensures NoneLost(Step(s, l))
  {
    var s' := Step(s, l);
    if l.agent != KERNEL {
      // an interrupt handler: it will register the object next
      assert l.agent in s'.isrs && s'.isrs[l.agent].IsrRegistering?;
      assert Pending(s');
    }
  }

  /** The kernel's check came out negative: nobody satisfied is passed over without a registration. */
  lemma PassedOver(s: State, l: Label, w: Waiter<Thread>)
    requires WordInv(s) && Enabled(s, l) && !SetsFlags(s, l)
    requires (l.StoreSucceeds? || l.PlainLoad?) && l.agent == KERNEL
    requires CurrentOf(s, KERNEL).op == CheckOp(w.flags, w.options)
    requires l.StoreSucceeds? ==> CurrentOf(s, KERNEL).op.Result(s.cell.seen[KERNEL]) == {}
    requires l.PlainLoad? ==> Check(s.cell.word, w.flags, w.options) == {}
    ensures !Satisfied(Step(s, l), w)
  {
    FlagsOnlyShrink(s, l);
  }

  lemma KernelAccessKeepsNoneLost(s: State, l: Label)
    requires WordInv(s) && NoneLost(s) && Enabled(s, l) && !SetsFlags(s, l) && IsAccess(l) && l.agent == KERNEL
    ensures NoneLost(Step(s, l))
  {
    var s' := Step(s, l);
    FlagsOnlyShrink(s, l);
    if Pending(s) {
      PendingStays(s, l);
    } else if s.kernel.Sweeping? && CurrentOf(s, KERNEL).In? {
      var i := s.kernel.index;
      if s'.kernel == Sweeping(i + 1, Fetch) && !l.ClearAndLeave? {
        PassedOver(s, l, s.list[i]);
      }
      forall j | 0 <= j < |s'.list| ensures Satisfied(s', s'.list[j]) ==> ToBeVisited(s', j) {
        assert j < i ==> s'.list[j] == s.list[j];
      }
    } else if s.kernel.Waiting? && s'.kernel.Blocking? && !l.ClearAndLeave? {
      PassedOver(s, l, s.kernel.w);
    }
  }

  lemma OtherAccessKeepsNoneLost(s: State, l: Label)
    requires WordInv(s) && NoneLost(s) && Enabled(s, l) && !SetsFlags(s, l)
    requires (IsAccess(l) || IsIsr(l)) && l.agent != KERNEL
    ensures NoneLost(Step(s, l))
  {
    var s' := Step(s, l);
    FlagsOnlyShrink(s, l);
    assert s'.kernel == s.kernel && s'.list == s.list && CurrentOf(s', KERNEL) == CurrentOf(s, KERNEL);
    assert DecidedNo(s') == DecidedNo(s);
    if Pending(s) {
      PendingStays(s, l);
    }
  }

  lemma InsertedMember<X>(q: seq<X>, i: nat, x: X)
    requires i <= |q|
    ensures forall y :: y in InsertAt(q, i, x) ==> y in q || y == x
  {
  }

  lemma RemovedMember<X>(q: seq<X>, i: nat)
    requires i < |q|
    ensures forall y :: y in Without(q, i) ==> y in q
  {
  }

  /** Only the suspended thread is ever added to the list. */
  lemma ListMembers(s: State, l: Label)
    requires Enabled(s, l) && !IsAccess(l) && !IsIsr(l)
    ensures forall w :: w in Step(s, l).list ==> w in s.list || (s.kernel.Blocking? && w == s.kernel.w)
  {
    match l
    case List(k) => InsertedMember(s.list, k, s.kernel.w);
    case TimeOut(k) => RemovedMember(s.list, k);
    case Terminate(k) => RemovedMember(s.list, k);
    case Resort(k, to) =>
      RemovedMember(s.list, k);
      InsertedMember(Without(s.list, k), to, s.list[k]);
    case _ =>
  }

  lemma KernelStepKeepsNoneLost(s: State, l: Label)
    requires WordInv(s) && NoneLost(s) && Enabled(s, l) && !IsAccess(l) && !IsIsr(l)
    ensures NoneLost(Step(s, l))
  {
    var s' := Step(s, l);
    FlagsOnlyShrink(s, l);
    ListMembers(s, l);
    if !l.TakeFromQueue? {
      if Pending(s) {
        PendingStays(s, l);
      } else {
        forall j | 0 <= j < |s'.list| ensures Satisfied(s', s'.list[j]) ==> ToBeVisited(s', j) {
          assert s'.list[j] in s.list || (s.kernel.Blocking? && s'.list[j] == s.kernel.w);
        }
      }
    }
  }

  lemma StepKeepsNoneLost(s: State, l: Label)
    requires WordInv(s) && NoneLost(s) && Enabled(s, l)
    ensures NoneLost(Step(s, l))
  {
    if SetsFlags(s, l) {
      SetKeepsNoneLost(s, l);
    } else if IsAccess(l) || IsIsr(l) {
      if l.agent == KERNEL {
        KernelAccessKeepsNoneLost(s, l);
      } else {
        OtherAccessKeepsNoneLost(s, l);
      }
    } else {
      KernelStepKeepsNoneLost(s, l);
    }
  }

  lemma {:induction false} RunKeepsWord(run: seq<Label>)
    requires Feasible(run)
    ensures WordInv(Execute(run)) && NoneLost(Execute(run))
  {
    if run != [] {
      RunKeepsWord(run[..|run|-1]);
      StepKeepsWord(Execute(run[..|run|-1]), run[|run|-1]);
      StepKeepsNoneLost(Execute(run[..|run|-1]), run[|run|-1]);
    }
  }

  /** No lost wake-up: whenever no kernel call and no interrupt handler is under way and a listed
      waiter's condition is met by the flags as they are, post-processing is registered. */
  lemma NoLostWakeup(run: seq<Label>, j: nat)
    requires Feasible(run)
    requires Execute(run).kernel.Rest? && Execute(run).isrs == map[]
    requires j < |Execute(run).list| && Satisfied(Execute(run), Execute(run).list[j])
    ensures Execute(run).registered > 0
  {
    RunKeepsWord(run);
  }

  // ---- Nobody gets stuck inside a helper ----

  lemma {:induction false} RunKeepsLoaded(run: seq<Label>, a: Agent)
    requires Feasible(run)
    ensures Loaded(Execute(run), a)
  {
    if run != [] {
      RunKeepsLoaded(run[..|run|-1], a);
      StepKeepsLoaded(Execute(run[..|run|-1]), run[|run|-1], a);
    }
  }

  /** Whoever is inside a helper can execute its next access: the machine models every instruction
      sequence to its end. */
  lemma NeverStuck(run: seq<Label>, a: Agent)
    requires Feasible(run) && CurrentOf(Execute(run), a).In?
    ensures exists l :: IsAccess(l) && !l.LoseTag? && l.agent == a && Enabled(Execute(run), l)
  {
    RunKeepsLoaded(run, a);
    var s := Execute(run);
    var c := CurrentOf(s, a);
    var l := if c.phase.Fetch? then (if c.op.Plain() then PlainLoad(a) else LoadExclusive(a))
             else if c.op.Exits(s.cell.seen[a]) then ClearAndLeave(a) else StoreFails(a);
    assert Enabled(s, l);
  }

  // ---- Delivered values are sound ----

  ghost predicate Sound(e: Entry) {
    match e
    case DidSet(_, _) => true
    case Delivered(_, f, o, v) => v != {} && ERROR !in v && Condition(v, f, o)
    case Refused(_, code) => ERROR in code
  }

  lemma SilentStepLogs(s: State, l: Label)
    requires Enabled(s, l) && !IsAccess(l)
    ensures Step(s, l).log == s.log || exists e :: Sound(e) && Step(s, l).log == s.log + [e]
  {
    var s' := Step(s, l);
    if s'.log != s.log {
      assert s'.log == s.log + [s'.log[|s.log|]] && Sound(s'.log[|s.log|]);
    }
  }

  lemma AccessLogs(s: State, l: Label)
    requires WordInv(s) && Enabled(s, l) && IsAccess(l)
    ensures Step(s, l).log == s.log || exists e :: Sound(e) && Step(s, l).log == s.log + [e]
  {
    var s' := Step(s, l);
    if s'.log != s.log {
      if l.PlainLoad? {
        var op := CurrentOf(s, l.agent).op;
        if Check(s.cell.word, op.flags, op.options) != {} {
          DeliveredSound(s.cell.word, op.flags, op.options);
        }
      }
      assert s'.log == s.log + [s'.log[|s.log|]] && Sound(s'.log[|s.log|]);
    }
  }

  /** The log grows by at most one entry, and that entry is sound. */
  lemma StepLogs(s: State, l: Label)
    requires WordInv(s) && Enabled(s, l)
    ensures Step(s, l).log == s.log || exists e :: Sound(e) && Step(s, l).log == s.log + [e]
  {
    if IsAccess(l) {
      AccessLogs(s, l);
    } else {
      SilentStepLogs(s, l);
    }
  }

  /** In every run: bit 31 of the word is never set; every delivered value is non-zero, has bit 31 clear
      and meets the waiter's own condition; every other outcome has bit 31 set.  So no caller can take
      one for the other. */
  lemma {:induction false} OutcomesSound(run: seq<Label>)
    requires Feasible(run)
    ensures ERROR !in Execute(run).cell.word
    ensures forall e :: e in Execute(run).log ==> Sound(e)
  {
    RunKeepsWord(run);
    if run != [] {
      OutcomesSound(run[..|run|-1]);
      RunKeepsWord(run[..|run|-1]);
      StepLogs(Execute(run[..|run|-1]), run[|run|-1]);
    }
  }

  // ---- Conservation of flag bits ----

  /** Sets that included bit b. */
  ghost function SetsOf(log: seq<Entry>, b: bit): nat {
    if log == [] then 0 else
      var e := log[|log|-1];
      SetsOf(log[..|log|-1], b) + if e.DidSet? && b in e.bits then 1 else 0
  }

  /** Clearing deliveries that carried bit b both in the returned value and in the wait flags. */
  ghost function TakesOf(log: seq<Entry>, b: bit): nat {
    if log == [] then 0 else
      var e := log[|log|-1];
      TakesOf(log[..|log|-1], b) + if e.Delivered? && Clears(e.options) && b in e.flags && b in e.value then 1 else 0
  }

  ghost function Level(w: Word, b: bit): nat {
    if b in w then 1 else 0
  }

  lemma LogMore(log: seq<Entry>, e: Entry, b: bit)
    ensures SetsOf(log + [e], b) == SetsOf(log, b) + if e.DidSet? && b in e.bits then 1 else 0
    ensures TakesOf(log + [e], b) ==
            TakesOf(log, b) + if e.Delivered? && Clears(e.options) && b in e.flags && b in e.value then 1 else 0
  {
    assert (log + [e])[..|log|] == log;
  }

  ghost predicate Conserves(s: State, s': State, b: bit) {
    TakesOf(s'.log, b) + Level(s'.cell.word, b) + SetsOf(s.log, b) <=
    TakesOf(s.log, b) + Level(s.cell.word, b) + SetsOf(s'.log, b)
  }

  lemma SilentStepConserves(s: State, l: Label, b: bit)
    requires Enabled(s, l) && !IsAccess(l)
    ensures Conserves(s, Step(s, l), b)
  {
    var s' := Step(s, l);
    if s'.log != s.log {
      assert s'.log == s.log + [s'.log[|s.log|]] && s'.log[|s.log|].Refused?;
      LogMore(s.log, s'.log[|s.log|], b);
    }
  }

  /** The arithmetic of one bit: what a helper's operation does to it, and what is logged for it. */
  lemma OperationConserves(op: WordOp, v: Word, b: bit)
    ensures op.SetOp? ==> Level(op.Next(v), b) <= Level(v, b) + Level(op.bits, b)
    ensures op.ClearOp? ==> Level(op.Next(v), b) <= Level(v, b)
    ensures op.CheckOp? ==> Level(op.Next(v), b) + (if b in op.flags && b in v then 1 else 0) <= Level(v, b)
  {
  }

  /** What a successful STREX of a helper logs. */
  lemma StoreLogs(s: State, l: Label)
    requires WordInv(s) && Enabled(s, l) && l.StoreSucceeds?
    ensures var s', op, v := Step(s, l), CurrentOf(s, l.agent).op, s.cell.word;
            && s'.cell.word == op.Next(v)
            && (op.SetOp? ==> s'.log == s.log + [DidSet(l.agent, op.bits)])
            && (op.ClearOp? ==> s'.log == s.log)
            && (op.CheckOp? && v != {} ==>
                  exists c: Caller :: s'.log == s.log + [Delivered(c, op.flags, op.options, v)])
            && (op.CheckOp? && v == {} ==>
                  s'.log == s.log || exists c: Caller :: s'.log == s.log + [Refused(c, OS_ERROR_RESOURCE)])
  {
    assert s.cell.seen[l.agent] == s.cell.word;
    var s', v := Step(s, l), s.cell.word;
    if CurrentOf(s, l.agent).op.CheckOp? && s'.log != s.log {
      var c := s'.log[|s.log|].caller;
      assert s'.log == s.log + [if v != {} then
        Delivered(c, CurrentOf(s, l.agent).op.flags, CurrentOf(s, l.agent).op.options, v)
        else Refused(c, OS_ERROR_RESOURCE)];
    }
  }

  lemma StoreConserves(s: State, l: Label, b: bit)
    requires WordInv(s) && Enabled(s, l) && l.StoreSucceeds?
    ensures Conserves(s, Step(s, l), b)
  {
    var op, s' := CurrentOf(s, l.agent).op, Step(s, l);
    StoreLogs(s, l);
    OperationConserves(op, s.cell.word, b);
    if s'.log != s.log {
      LogMore(s.log, s'.log[|s.log|], b);
    }
  }

  lemma AccessConserves(s: State, l: Label, b: bit)
    requires WordInv(s) && Enabled(s, l) && IsAccess(l)
    ensures Conserves(s, Step(s, l), b)
  {
    if l.StoreSucceeds? {
      StoreConserves(s, l, b);
    } else {
      var s' := Step(s, l);
      assert s'.cell.word == s.cell.word;
      if s'.log != s.log {
        var e := s'.log[|s.log|];
        assert s'.log == s.log + [e] && (e.Refused? || (e.Delivered? && !Clears(e.options)));
        LogMore(s.log, e, b);
      }
    }
  }

  /** Every step: a take is a 1-to-0 transition, and only a set makes a 0-to-1 transition. */
  lemma StepConserves(s: State, l: Label, b: bit)
    requires WordInv(s) && Enabled(s, l)
    ensures Conserves(s, Step(s, l), b)
  {
    if IsAccess(l) {
      AccessConserves(s, l, b);
    } else {
      SilentStepConserves(s, l, b);
    }
  }

  /** Over any run, no bit is consumed more often than it was set. */
  lemma {:induction false} FlagBitsConserved(run: seq<Label>, b: bit)
    requires Feasible(run)
    ensures TakesOf(Execute(run).log, b) + Level(Execute(run).cell.word, b) <= SetsOf(Execute(run).log, b)
  {
    if run != [] {
      FlagBitsConserved(run[..|run|-1], b);
      RunKeepsWord(run[..|run|-1]);
      StepConserves(Execute(run[..|run|-1]), run[|run|-1], b);
    }
  }

  // ---- The sweep on values is what the machine does when nobody interrupts it ----

  ghost predicate FeasibleFrom(s: State, run: seq<Label>)
    decreases |run|
  {
    run == [] || (Enabled(s, run[0]) && FeasibleFrom(Step(s, run[0]), run[1..]))
  }

  ghost function ExecuteFrom(s: State, run: seq<Label>): State
    requires FeasibleFrom(s, run)
    decreases |run|
  {
    if run == [] then s else ExecuteFrom(Step(s, run[0]), run[1..])
  }

  lemma {:induction false} RunsCompose(s: State, r1: seq<Label>, r2: seq<Label>)
    requires FeasibleFrom(s, r1) && FeasibleFrom(ExecuteFrom(s, r1), r2)
    ensures FeasibleFrom(s, r1 + r2) && ExecuteFrom(s, r1 + r2) == ExecuteFrom(ExecuteFrom(s, r1), r2)
    decreases |r1|
  {
    if r1 == [] {
      assert r1 + r2 == r2;
    } else {
      assert (r1 + r2)[1..] == r1[1..] + r2;
      RunsCompose(Step(s, r1[0]), r1[1..], r2);
    }
  }

  lemma TwoSteps(s: State, l1: Label, l2: Label)
    requires Enabled(s, l1) && Enabled(Step(s, l1), l2)
    ensures FeasibleFrom(s, [l1, l2]) && ExecuteFrom(s, [l1, l2]) == Step(Step(s, l1), l2)
  {
    assert [l1, l2][1..] == [l2] && [l2][1..] == [];
    var t := Step(Step(s, l1), l2);
    assert FeasibleFrom(t, []) && ExecuteFrom(t, []) == t;
    assert FeasibleFrom(Step(s, l1), [l2]) && ExecuteFrom(Step(s, l1), [l2]) == Step(Step(s, l1), l2);
  }

  ghost predicate KernelOnly(run: seq<Label>) {
    forall i :: 0 <= i < |run| ==> (IsAccess(run[i]) && run[i].agent == KERNEL) || run[i].EndSweep?
  }

  ghost function DeliveryTo(w: Waiter<Thread>, value: Word): Entry {
    Delivered(ByThread(w), w.flags, w.options, value)
  }

  ghost function Deliveries(woken: seq<Wake<Thread>>): seq<Entry> {
    if woken == [] then [] else
      [DeliveryTo(woken[0].waiter, woken[0].value)] + Deliveries(woken[1..])
  }

  /** One waiter, checked by the instructions of the helper that its options select. */
  lemma VisitOne(s: State, i: nat) returns (run: seq<Label>)
    requires s.kernel == Sweeping(i, Fetch) && i < |s.list|
    ensures KernelOnly(run) && FeasibleFrom(s, run)
    ensures var t, w := ExecuteFrom(s, run), s.list[i];
            && t.cell.word == After(s.cell.word, w)
            && if Met(s.cell.word, w) != {} then
                 && t.kernel == Sweeping(i, Fetch) && t.list == Without(s.list, i)
                 && t.log == s.log + [DeliveryTo(w, Met(s.cell.word, w))]
               else
                 t.kernel == Sweeping(i + 1, Fetch) && t.list == s.list && t.log == s.log
  {
    var w := s.list[i];
    var op := CheckOp(w.flags, w.options);
    if op.Plain() {
      run := [PlainLoad(KERNEL)];
    } else {
      var s1 := Step(s, LoadExclusive(KERNEL));
      var second := if op.Exits(s.cell.word) then ClearAndLeave(KERNEL) else StoreSucceeds(KERNEL);
      run := [LoadExclusive(KERNEL), second];
      assert CurrentOf(s1, KERNEL) == In(op, Compute);
      assert Enabled(s1, second);
      TwoSteps(s, LoadExclusive(KERNEL), second);
    }
  }

  /** Run alone, a sweep takes the machine to exactly the flag word, list and deliveries that `Sweep.Run` computes. */
  lemma {:induction false} UninterruptedSweep(s: State, i: nat) returns (run: seq<Label>)
    requires s.kernel == Sweeping(i, Fetch) && i <= |s.list|
    ensures KernelOnly(run) && FeasibleFrom(s, run)
    ensures SweepsTo(s, i, ExecuteFrom(s, run))
    decreases |s.list| - i
  {
    if i == |s.list| {
      run := [EndSweep];
    } else {
      var r1 := VisitOne(s, i);
      var t := ExecuteFrom(s, r1);
      var r2 := UninterruptedSweep(t, t.kernel.index);
      RunsCompose(s, r1, r2);
      run := r1 + r2;
      SweepSplits(s, i, t, ExecuteFrom(t, r2));
    }
  }

  /** The outcome of sweeping s from position i on. */
  ghost predicate SweepsTo(s: State, i: nat, t: State)
    requires i <= |s.list|
  {
    var r := Run(s.cell.word, s.list[i..]);
    && t.kernel == Rest && t.cell.word == r.word && t.list == s.list[..i] + r.kept
    && t.log == s.log + Deliveries(r.woken)
  }

  /** What the registration is good for: from any reachable state at rest in which a listed waiter is
      satisfied, post-processing can start, and run alone it leaves nobody on the list who is satisfied. */
  lemma ProcessingSettles(run: seq<Label>, j: nat) returns (more: seq<Label>)
    requires Feasible(run)
    requires Execute(run).kernel.Rest? && Execute(run).isrs == map[]
    requires j < |Execute(run).list| && Satisfied(Execute(run), Execute(run).list[j])
    ensures more != [] && more[0] == TakeFromQueue && KernelOnly(more[1..])
    ensures FeasibleFrom(Execute(run), more)
    ensures var t := ExecuteFrom(Execute(run), more);
            t.kernel.Rest? && forall w :: w in t.list ==> !Satisfied(t, w)
  {
    var s := Execute(run);
    NoLostWakeup(run, j);
    RunKeepsWord(run);
    var s1 := Step(s, TakeFromQueue);
    var sweep := UninterruptedSweep(s1, 0);
    more := [TakeFromQueue] + sweep;
    assert more[1..] == sweep;
    var t := ExecuteFrom(s1, sweep);
    assert s1.list[0..] == s1.list && t.list == Run(s1.cell.word, s1.list).kept;
    forall w | w in t.list ensures !Satisfied(t, w) {
      NobodyLeftSatisfied(s1.cell.word, s1.list, w);
    }
  }

  lemma SweepSplits(s: State, i: nat, t: State, u: State)
    requires i < |s.list| && t.cell.word == After(s.cell.word, s.list[i]) && t.kernel.Sweeping?
    requires if Met(s.cell.word, s.list[i]) != {} then
               && t.kernel.index == i && t.list == Without(s.list, i)
               && t.log == s.log + [DeliveryTo(s.list[i], Met(s.cell.word, s.list[i]))]
             else t.kernel.index == i + 1 && t.list == s.list && t.log == s.log
    requires SweepsTo(t, t.kernel.index, u)
    ensures SweepsTo(s, i, u)
  {
    var w := s.list[i];
    assert s.list[i..][0] == w && s.list[i..][1..] == s.list[i+1..];
    var r, r' := Run(s.cell.word, s.list[i..]), Run(t.cell.word, t.list[t.kernel.index..]);
    if Met(s.cell.word, w) != {} {
      assert t.list[i..] == s.list[i+1..] && t.list[..i] == s.list[..i];
      assert r.woken[1..] == r'.woken;
      assert u.log == s.log + ([DeliveryTo(w, Met(s.cell.word, w))] + Deliveries(r'.woken));
    } else {
      FailedCheckKeeps(s.cell.word, w.flags, w.options);
      assert s.list[..i+1] + r'.kept == s.list[..i] + ([w] + r'.kept);
    }
  }
}
