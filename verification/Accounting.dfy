/** What becomes of the calls that a run of `Protocol` begins, told from the labels of the run alone:
    every wait is in exactly one place, every helper works for the call that was begun, every refusal
    has its reason, and a deleted object stays deleted. */
module Accounting {
  import opened Bits
  import opened Monitor
  import opened FlagWord
  import opened Sweep
  import opened Protocol

  // ---- Every wait is under way, listed, terminated, or has one outcome ----

  /** How often the wait w was begun. */
  ghost function Begun(run: seq<Label>, w: Waiter<Thread>): nat {
    if run == [] then 0 else Begun(run[..|run|-1], w) + Begins1(run[|run|-1], w)
  }

  ghost function Begins1(l: Label, w: Waiter<Thread>): nat {
    if l.BeginWait? && l.w == w then 1 else 0
  }

  /** How often its thread was terminated while it was listed. */
  ghost function Terminated(run: seq<Label>, w: Waiter<Thread>): nat
    requires Feasible(run)
  {
    if run == [] then 0 else Terminated(run[..|run|-1], w) + Ends1(Execute(run[..|run|-1]), run[|run|-1], w)
  }

  ghost function Ends1(s: State, l: Label, w: Waiter<Thread>): nat
    requires Enabled(s, l)
  {
    if l.Terminate? && s.list[l.position] == w then 1 else 0
  }

  /** How many outcomes it has. */
  ghost function Finished(log: seq<Entry>, w: Waiter<Thread>): nat {
    if log == [] then 0 else Finished(log[..|log|-1], w) + Outcome1(log[|log|-1], w)
  }

  ghost function Outcome1(e: Entry, w: Waiter<Thread>): nat {
    if !e.DidSet? && e.caller == ByThread(w) then 1 else 0
  }

  /** How often it is on the object's list. */
  ghost function Listed(list: seq<Waiter<Thread>>, w: Waiter<Thread>): nat {
    multiset(list)[w]
  }

  /** Whether the kernel is working on it. */
  ghost function UnderWay(s: State, w: Waiter<Thread>): nat {
    if (s.kernel.Waiting? || s.kernel.Blocking?) && s.kernel.w == w then 1 else 0
  }

  ghost function Places(s: State, w: Waiter<Thread>): nat {
    UnderWay(s, w) + Listed(s.list, w) + Finished(s.log, w)
  }

  lemma FinishedMore(log: seq<Entry>, e: Entry, w: Waiter<Thread>)
    ensures Finished(log + [e], w) == Finished(log, w) + Outcome1(e, w)
  {
    assert (log + [e])[..|log|] == log;
  }

  ghost function One(v: Waiter<Thread>, w: Waiter<Thread>): nat {
    if v == w then 1 else 0
  }

  lemma ListedWithout(list: seq<Waiter<Thread>>, i: nat, w: Waiter<Thread>)
    requires i < |list|
    ensures Listed(list, w) == Listed(Without(list, i), w) + One(list[i], w)
  {
    assert list == list[..i] + [list[i]] + list[i+1..];
  }

  lemma ListedInsert(list: seq<Waiter<Thread>>, i: nat, v: Waiter<Thread>, w: Waiter<Thread>)
    requires i <= |list|
    ensures Listed(InsertAt(list, i, v), w) == Listed(list, w) + One(v, w)
  {
    assert list == list[..i] + list[i..];
  }

  lemma ListedResort(list: seq<Waiter<Thread>>, i: nat, to: nat, w: Waiter<Thread>)
    requires i < |list| && to < |list|
    ensures Listed(InsertAt(Without(list, i), to, list[i]), w) == Listed(list, w)
  {
    ListedWithout(list, i, w);
    ListedInsert(Without(list, i), to, list[i], w);
  }

  /** The log grows by at most one entry, which for a refusal says osErrorResource. */
  ghost predicate LogsAtMost(before: seq<Entry>, log: seq<Entry>) {
    log == before ||
    (exists e :: log == before + [e] && (e.Refused? ==> e.code == OS_ERROR_RESOURCE))
  }

  /** A waiter leaves the list with an outcome. */
  lemma LeavesWithOutcome(s: State, t: State, k: nat, e: Entry, w: Waiter<Thread>)
    requires k < |s.list| && t.list == Without(s.list, k) && UnderWay(t, w) == UnderWay(s, w)
    requires t.log == s.log + [e] && !e.DidSet? && e.caller == ByThread(s.list[k])
    ensures Places(t, w) == Places(s, w)
  {
    hide Finished, Listed, Without, UnderWay;
    FinishedMore(s.log, e, w);
    ListedWithout(s.list, k, w);
  }

  /** The wait under way gets its outcome. */
  lemma EndsWithOutcome(s: State, t: State, e: Entry, w: Waiter<Thread>)
    requires t.list == s.list && (s.kernel.Waiting? || s.kernel.Blocking?) && t.kernel.Rest?
    requires t.log == s.log + [e] && !e.DidSet? && e.caller == ByThread(s.kernel.w)
    ensures Places(t, w) == Places(s, w)
  {
    hide Finished, Listed;
    FinishedMore(s.log, e, w);
  }

  /** The helper's result decides where the wait goes; nothing else moves. */
  lemma KernelResumes(s: State, result: Word, w: Waiter<Thread>)
    requires CurrentOf(s, KERNEL).In?
    ensures Places(Resume(s, KERNEL, result), w) == Places(s, w)
  {
    var t := Resume(s, KERNEL, result);
    assert s.kernel.Sweeping? ==> s.kernel.index < |s.list|;
    hide CurrentOf, Listed, Finished, Without;
    if t.log == s.log {
      assert t.list == s.list;
    } else if s.kernel.Sweeping? {
      LeavesWithOutcome(s, t, s.kernel.index, t.log[|s.log|], w);
    } else {
      EndsWithOutcome(s, t, t.log[|s.log|], w);
    }
  }

  lemma HandlerResumes(s: State, a: Agent, result: Word, w: Waiter<Thread>)
    requires CurrentOf(s, a).In? && a != KERNEL
    ensures Places(Resume(s, a, result), w) == Places(s, w)
  {
    var t := Resume(s, a, result);
    hide CurrentOf, Listed, Finished, Without;
    if t.log != s.log {
      var e := t.log[|s.log|];
      assert t.log == s.log + [e];
      FinishedMore(s.log, e, w);
    }
  }

  lemma ResumeAccounts(s: State, a: Agent, result: Word, w: Waiter<Thread>)
    requires CurrentOf(s, a).In?
    ensures Places(Resume(s, a, result), w) == Places(s, w)
  {
    hide *;
    if a == KERNEL {
      KernelResumes(s, result, w);
    } else {
      HandlerResumes(s, a, result, w);
    }
  }

  lemma ResumeLogs(s: State, a: Agent, result: Word)
    requires CurrentOf(s, a).In?
    ensures LogsAtMost(s.log, Resume(s, a, result).log)
  {
    var t := Resume(s, a, result);
    hide CurrentOf, Without;
    if t.log != s.log {
      assert t.log == s.log + [t.log[|s.log|]];
    }
  }

  lemma StoreAccounts(s: State, l: Label, w: Waiter<Thread>)
    requires Enabled(s, l) && l.StoreSucceeds?
    ensures Places(Step(s, l), w) == Places(s, w)
  {
    hide Resume, CurrentOf, Listed, Finished;
    var op := CurrentOf(s, l.agent).op;
    var r := Resume(s, l.agent, op.Result(s.cell.seen[l.agent]));
    ResumeAccounts(s, l.agent, op.Result(s.cell.seen[l.agent]), w);
    if op.SetOp? {
      FinishedMore(r.log, DidSet(l.agent, op.bits), w);
    }
  }

  lemma PhaseAccounts(s: State, a: Agent, p: Phase, w: Waiter<Thread>)
    requires CurrentOf(s, a).In?
    ensures Places(WithPhase(s, a, p), w) == Places(s, w)
  {
  }

  lemma AccessAccounts(s: State, l: Label, w: Waiter<Thread>)
    requires Enabled(s, l) && IsAccess(l)
    ensures Places(Step(s, l), w) == Places(s, w)
  {
    hide Resume, CurrentOf, WithPhase, Listed, Finished;
    if l.LoadExclusive? {
      PhaseAccounts(s, l.agent, Compute, w);
    } else if l.StoreFails? {
      PhaseAccounts(s, l.agent, Fetch, w);
    } else if l.StoreSucceeds? {
      StoreAccounts(s, l, w);
    } else if l.ClearAndLeave? {
      ResumeAccounts(s, l.agent, {}, w);
    } else if l.PlainLoad? {
      var op := CurrentOf(s, l.agent).op;
      ResumeAccounts(s, l.agent, Check(s.cell.word, op.flags, op.options), w);
    }
  }

  /** The steps that move waiters on the list or off it without an outcome, and those of the handlers and of
      the kernel that do not touch the list. */
  lemma SilentAccounts(s: State, l: Label, w: Waiter<Thread>)
    requires Enabled(s, l) && !IsAccess(l)
    requires !(l.TimeOut? || l.Release? || l.NotSuspended? || l.RefuseParameter?)
    ensures Places(Step(s, l), w) + Ends1(s, l, w) == Places(s, w) + Begins1(l, w)
  {
    hide Resume, CurrentOf, WithPhase, Finished, Listed, Without, InsertAt;
    match l
    case List(k) => ListedInsert(s.list, k, s.kernel.w, w);
    case Terminate(k) => ListedWithout(s.list, k, w);
    case Resort(k, to) => ListedResort(s.list, k, to, w);
    case _ =>
  }

  /** The steps that log an outcome. */
  lemma RefusalAccounts(s: State, l: Label, w: Waiter<Thread>)
    requires Enabled(s, l) && (l.TimeOut? || l.Release? || l.NotSuspended? || l.RefuseParameter?)
    ensures Places(Step(s, l), w) == Places(s, w)
  {
    hide Resume, CurrentOf, WithPhase, Finished, Listed;
    var t := Step(s, l);
    if l.TimeOut? {
      LeavesWithOutcome(s, t, l.position, Refused(ByThread(s.list[l.position]), OS_ERROR_TIMEOUT), w);
    } else if l.Release? {
      assert Without(s.list, 0) == s.list[1..];
      LeavesWithOutcome(s, t, 0, Refused(ByThread(s.list[0]), OS_ERROR_RESOURCE), w);
    } else if l.NotSuspended? {
      EndsWithOutcome(s, t, Refused(ByThread(s.kernel.w), OS_ERROR_TIMEOUT), w);
    } else {
      FinishedMore(s.log, Refused(AtOnce, OS_ERROR_PARAMETER), w);
    }
  }

  /** In every run, every wait that was begun is being worked on, is on the object's list, was terminated
      there, or has an outcome; and it is in exactly one of these places, with exactly one outcome. */
  lemma {:induction false} WaitsAccounted(run: seq<Label>, w: Waiter<Thread>)
    requires Feasible(run)
    ensures var s := Execute(run);
            Begun(run, w) == UnderWay(s, w) + Listed(s.list, w) + Terminated(run, w) + Finished(s.log, w)
  {
    if run != [] {
      var before, l := run[..|run|-1], run[|run|-1];
      var s := Execute(before);
      WaitsAccounted(before, w);
      hide Step, Enabled, UnderWay, Listed, Begins1, Ends1;
      StepAccounts(s, l, w);
    }
  }

  lemma StepAccounts(s: State, l: Label, w: Waiter<Thread>)
    requires Enabled(s, l)
    ensures Places(Step(s, l), w) + Ends1(s, l, w) == Places(s, w) + Begins1(l, w)
  {
    if IsAccess(l) {
      AccessAccounts(s, l, w);
    } else if l.TimeOut? || l.Release? || l.NotSuspended? || l.RefuseParameter? {
      RefusalAccounts(s, l, w);
    } else {
      SilentAccounts(s, l, w);
    }
  }

  // ---- Every set happens once, every poll ends once ----

  /** A set by anybody, or a handler's poll. */
  datatype Job = SetJob(agent: Agent, bits: Word) | PollJob(agent: Agent)

  ghost function JobOf(l: Label, j: Job): nat {
    match l
    case BeginSet(f) => if j == SetJob(KERNEL, f) then 1 else 0
    case IsrBeginSet(a, f) => if j == SetJob(a, f) then 1 else 0
    case IsrBeginPoll(a, _, _) => if j == PollJob(a) then 1 else 0
    case _ => 0
  }

  /** How often the job was begun. */
  ghost function JobsBegun(run: seq<Label>, j: Job): nat {
    if run == [] then 0 else JobsBegun(run[..|run|-1], j) + JobOf(run[|run|-1], j)
  }

  ghost function JobIn(e: Entry, j: Job): nat {
    match e
    case DidSet(a, b) => if j == SetJob(a, b) then 1 else 0
    case _ => if e.caller.ByHandler? && j == PollJob(e.caller.agent) then 1 else 0
  }

  /** How often it came to its end: a set of exactly these flags, an outcome of the poll. */
  ghost function JobsDone(log: seq<Entry>, j: Job): nat {
    if log == [] then 0 else JobsDone(log[..|log|-1], j) + JobIn(log[|log|-1], j)
  }

  ghost function JobUnderWay(s: State, j: Job): nat {
    match j
    case SetJob(a, b) =>
      if a == KERNEL then if s.kernel.Setting? && s.kernel.flags == b then 1 else 0
      else if a in s.isrs && s.isrs[a].IsrSetting? && s.isrs[a].flags == b then 1 else 0
    case PollJob(a) => if a in s.isrs && s.isrs[a].IsrPolling? then 1 else 0
  }

  ghost function JobPlaces(s: State, j: Job): nat {
    JobUnderWay(s, j) + JobsDone(s.log, j)
  }

  lemma JobsDoneMore(log: seq<Entry>, e: Entry, j: Job)
    ensures JobsDone(log + [e], j) == JobsDone(log, j) + JobIn(e, j)
  {
    assert (log + [e])[..|log|] == log;
  }

  /** The set that an agent is in the middle of. */
  ghost function CurrentSet(s: State, a: Agent, j: Job): nat
    requires CurrentOf(s, a).In?
  {
    var op := CurrentOf(s, a).op;
    if op.SetOp? && j == SetJob(a, op.bits) then 1 else 0
  }

  lemma ResumeJobs(s: State, a: Agent, result: Word, j: Job)
    requires CurrentOf(s, a).In? && KERNEL !in s.isrs
    ensures JobPlaces(Resume(s, a, result), j) + CurrentSet(s, a, j) == JobPlaces(s, j)
  {
    hide Without, JobsDone;
    var t := Resume(s, a, result);
    if t.log != s.log {
      var e := t.log[|s.log|];
      assert t.log == s.log + [e];
      JobsDoneMore(s.log, e, j);
    }
  }

  lemma PhaseJobs(s: State, a: Agent, p: Phase, j: Job)
    requires CurrentOf(s, a).In?
    ensures JobPlaces(WithPhase(s, a, p), j) == JobPlaces(s, j)
  {
    hide JobsDone;
  }

  lemma StoreJobs(s: State, l: Label, j: Job)
    requires Enabled(s, l) && l.StoreSucceeds? && KERNEL !in s.isrs
    ensures JobPlaces(Step(s, l), j) == JobPlaces(s, j)
  {
    hide Resume, CurrentOf, JobsDone;
    var a, op := l.agent, CurrentOf(s, l.agent).op;
    var r := Resume(s, a, op.Result(s.cell.seen[a]));
    ResumeJobs(s, a, op.Result(s.cell.seen[a]), j);
    if op.SetOp? {
      JobsDoneMore(r.log, DidSet(a, op.bits), j);
    }
  }

  lemma AccessJobs(s: State, l: Label, j: Job)
    requires Enabled(s, l) && IsAccess(l) && KERNEL !in s.isrs
    ensures JobPlaces(Step(s, l), j) == JobPlaces(s, j)
  {
    if l.StoreSucceeds? {
      hide *;
      StoreJobs(s, l, j);
    } else if l.ClearAndLeave? || l.PlainLoad? {
      OnlyChecksExit(s, l);
      hide Resume, CurrentOf, JobsDone;
      var op := CurrentOf(s, l.agent).op;
      ResumeJobs(s, l.agent, if l.PlainLoad? then Check(s.cell.word, op.flags, op.options) else {}, j);
    } else {
      hide CurrentOf, WithPhase, JobsDone;
      if !l.LoseTag? {
        PhaseJobs(s, l.agent, if l.LoadExclusive? then Compute else Fetch, j);
      }
    }
  }

  lemma OtherStepJobs(s: State, l: Label, j: Job)
    requires Enabled(s, l) && !IsAccess(l) && KERNEL !in s.isrs
    ensures JobPlaces(Step(s, l), j) == JobPlaces(s, j) + JobOf(l, j)
  {
    hide Resume, CurrentOf, WithPhase, JobsDone, Without, InsertAt;
    var t := Step(s, l);
    if t.log != s.log {
      var e := t.log[|s.log|];
      assert t.log == s.log + [e];
      JobsDoneMore(s.log, e, j);
    }
  }

  /** In every run, every set that a thread or a handler began is either still in its retry loop or happened
      exactly once, with its flags; and every poll is in its helper or ended with exactly one outcome. */
  lemma {:induction false} JobsAccounted(run: seq<Label>, j: Job)
    requires Feasible(run)
    ensures JobsBegun(run, j) == JobUnderWay(Execute(run), j) + JobsDone(Execute(run).log, j)
  {
    hide Step, Enabled, JobUnderWay, JobOf;
    if run == [] {
      NothingUnderWay(j);
    } else {
      var before, l := run[..|run|-1], run[|run|-1];
      var s := Execute(before);
      JobsAccounted(before, j);
      ServesWhatWasBegun(before);
      if IsAccess(l) {
        AccessJobs(s, l, j);
        AccessBeginsNothing(l, j);
      } else {
        OtherStepJobs(s, l, j);
      }
    }
  }

  lemma NothingUnderWay(j: Job)
    ensures JobUnderWay(Initial(), j) == 0
  {
  }

  lemma AccessBeginsNothing(l: Label, j: Job)
    requires IsAccess(l)
    ensures JobOf(l, j) == 0
  {
  }

  // ---- The helpers work for the calls that were begun ----

  /** The label begins a call of this agent. */
  ghost predicate Begins(l: Label, a: Agent) {
    if a == KERNEL then l.BeginSet? || l.BeginClear? || l.BeginWait?
    else (l.IsrBeginSet? || l.IsrBeginPoll? || l.IsrBeginClear?) && l.agent == a
  }

  /** The agent's latest call is the one that l began. */
  ghost predicate Latest(run: seq<Label>, a: Agent, l: Label) {
    run != [] && if Begins(run[|run|-1], a) then run[|run|-1] == l else Latest(run[..|run|-1], a, l)
  }

  /** What the kernel is doing is what its latest call asked for, flags and options included. */
  ghost predicate KernelServes(run: seq<Label>, s: State) {
    match s.kernel
    case Setting(f, _) => Latest(run, KERNEL, BeginSet(f))
    case Clearing(f, _) => Latest(run, KERNEL, BeginClear(f))
    case Waiting(w, timed, _) => Latest(run, KERNEL, BeginWait(w, timed))
    case Blocking(w) => Latest(run, KERNEL, BeginWait(w, true))
    case _ => true
  }

  ghost predicate HandlerServes(run: seq<Label>, s: State, a: Agent)
    requires a in s.isrs
  {
    match s.isrs[a]
    case IsrSetting(f, _) => Latest(run, a, IsrBeginSet(a, f))
    case IsrPolling(f, o, _) => Latest(run, a, IsrBeginPoll(a, f, o))
    case IsrClearing(f, _) => Latest(run, a, IsrBeginClear(a, f))
    case IsrRegistering => exists f :: Latest(run, a, IsrBeginSet(a, f))
  }

  lemma LatestStays(run: seq<Label>, l: Label, a: Agent, b: Label)
    requires !Begins(l, a)
    ensures Latest(run + [l], a, b) == Latest(run, a, b)
  {
    assert (run + [l])[..|run|] == run;
  }

  lemma {:induction false} ServesWhatWasBegun(run: seq<Label>)
    requires Feasible(run)
    ensures KernelServes(run, Execute(run))
    ensures KERNEL !in Execute(run).isrs && forall a :: a in Execute(run).isrs ==> HandlerServes(run, Execute(run), a)
  {
    if run != [] {
      var before, l := run[..|run|-1], run[|run|-1];
      ServesWhatWasBegun(before);
      assert run == before + [l];
      var s := Execute(before);
      var t := Step(s, l);
      hide KernelServes, HandlerServes, Step, Enabled;
      KernelServesOn(before, s, l);
      HandlersOf(s, l);
      forall a | a in t.isrs ensures HandlerServes(run, t, a) {
        HandlerServesOn(before, s, l, a);
      }
    }
  }

  lemma HandlersOf(s: State, l: Label)
    requires Enabled(s, l) && KERNEL !in s.isrs
    ensures KERNEL !in Step(s, l).isrs
  {
    hide CurrentOf, Resume, WithPhase, InsertAt, Without;
    if IsAccess(l) {
      AccessKeepsKernelApart(s, l);
    }
  }

  lemma AccessKeepsKernelApart(s: State, l: Label)
    requires Enabled(s, l) && IsAccess(l) && KERNEL !in s.isrs
    ensures KERNEL !in Step(s, l).isrs
  {
    hide *;
    if KERNEL in Step(s, l).isrs {
      AccessKeepsCall(s, l, KERNEL);
    }
  }

  lemma KernelServesOn(run: seq<Label>, s: State, l: Label)
    requires Enabled(s, l) && KernelServes(run, s)
    ensures KernelServes(run + [l], Step(s, l))
  {
    forall b | !Begins(l, KERNEL) ensures Latest(run + [l], KERNEL, b) == Latest(run, KERNEL, b) {
      LatestStays(run, l, KERNEL, b);
    }
  }

  /** The same call of a handler, perhaps at another point of it. */
  ghost predicate SameCall(p: Isr, q: Isr) {
    match p
    case IsrSetting(f, _) => q.IsrRegistering? || (q.IsrSetting? && q.flags == f)
    case IsrPolling(f, o, _) => q.IsrPolling? && q.flags == f && q.options == o
    case IsrClearing(f, _) => q.IsrClearing? && q.flags == f
    case IsrRegistering => q.IsrRegistering?
  }

  lemma SameCallServed(run: seq<Label>, s: State, l: Label, t: State, a: Agent)
    requires a in s.isrs && a in t.isrs && SameCall(s.isrs[a], t.isrs[a])
    requires !Begins(l, a) && HandlerServes(run, s, a)
    ensures HandlerServes(run + [l], t, a)
  {
    forall b ensures Latest(run + [l], a, b) == Latest(run, a, b) {
      LatestStays(run, l, a, b);
    }
  }

  lemma ResumeKeepsCall(s: State, b: Agent, result: Word, a: Agent)
    requires CurrentOf(s, b).In? && a in Resume(s, b, result).isrs
    ensures a in s.isrs && SameCall(s.isrs[a], Resume(s, b, result).isrs[a])
  {
    hide Without;
  }

  lemma AccessKeepsCall(s: State, l: Label, a: Agent)
    requires Enabled(s, l) && IsAccess(l) && a in Step(s, l).isrs
    ensures a in s.isrs && SameCall(s.isrs[a], Step(s, l).isrs[a])
  {
    if l.StoreSucceeds? {
      hide Resume, CurrentOf;
      ResumeKeepsCall(s, l.agent, CurrentOf(s, l.agent).op.Result(s.cell.seen[l.agent]), a);
    } else if l.ClearAndLeave? {
      hide Resume, CurrentOf;
      ResumeKeepsCall(s, l.agent, {}, a);
    } else if l.PlainLoad? {
      hide Resume, CurrentOf;
      var op := CurrentOf(s, l.agent).op;
      ResumeKeepsCall(s, l.agent, Check(s.cell.word, op.flags, op.options), a);
    }
  }

  lemma OtherStepKeepsCall(s: State, l: Label, a: Agent)
    requires Enabled(s, l) && !IsAccess(l) && a != KERNEL && a in Step(s, l).isrs && !Begins(l, a)
    ensures a in s.isrs && SameCall(s.isrs[a], Step(s, l).isrs[a])
  {
    hide CurrentOf, Resume, WithPhase, InsertAt, Without;
  }

  lemma HandlerServesOn(run: seq<Label>, s: State, l: Label, a: Agent)
    requires Enabled(s, l) && a != KERNEL && a in Step(s, l).isrs
    requires a in s.isrs ==> HandlerServes(run, s, a)
    ensures HandlerServes(run + [l], Step(s, l), a)
  {
    hide CurrentOf, Resume, WithPhase, InsertAt, Without;
    if Begins(l, a) {
      assert Latest(run + [l], a, l);
    } else {
      HandlerKeepsServing(run, s, l, a);
    }
  }

  lemma HandlerKeepsServing(run: seq<Label>, s: State, l: Label, a: Agent)
    requires Enabled(s, l) && a != KERNEL && a in Step(s, l).isrs && !Begins(l, a)
    requires a in s.isrs ==> HandlerServes(run, s, a)
    ensures HandlerServes(run + [l], Step(s, l), a)
  {
    hide *;
    if IsAccess(l) {
      AccessKeepsCall(s, l, a);
    } else {
      OtherStepKeepsCall(s, l, a);
    }
    SameCallServed(run, s, l, Step(s, l), a);
  }

  /** A thread that blocks gets onto the object's list: whatever run came before, after the listing the list
      holds what it held and the waiter that the latest wait brought. */
  lemma BlockedIsListed(run: seq<Label>, position: nat, w: Waiter<Thread>, timed: bool)
    requires Feasible(run + [List(position)]) && Latest(run, KERNEL, BeginWait(w, timed))
    ensures Feasible(run) && timed
    ensures multiset(Execute(run + [List(position)]).list) == multiset(Execute(run).list) + multiset{w}
    ensures Execute(run + [List(position)]).kernel.Rest?
  {
    assert (run + [List(position)])[..|run|] == run;
    ServesWhatWasBegun(run);
    LatestIsOne(run, KERNEL, BeginWait(w, timed), BeginWait(Execute(run).kernel.w, true));
    assert Execute(run).list == Execute(run).list[..position] + Execute(run).list[position..];
  }

  lemma {:induction false} LatestIsOne(run: seq<Label>, a: Agent, l: Label, m: Label)
    requires Latest(run, a, l) && Latest(run, a, m)
    ensures l == m
  {
    if !Begins(run[|run|-1], a) {
      LatestIsOne(run[..|run|-1], a, l, m);
    }
  }

  // ---- Deliveries are words, and satisfied checks deliver ----

  /** The waiter's condition, for a word that is not empty. */
  ghost predicate Meets(word: Word, flags: Word, options: Word) {
    word != {} && if WAIT_ALL in options then flags <= word else flags * word != {}
  }

  /** The outcome of a check of op when the helper returned `result`. */
  ghost predicate Decides(before: seq<Entry>, log: seq<Entry>, op: WordOp, result: Word)
    requires op.CheckOp?
  {
    if result != {} then exists c :: log == before + [Delivered(c, op.flags, op.options, result)]
    else log == before || exists c :: log == before + [Refused(c, OS_ERROR_RESOURCE)]
  }

  lemma ResumeDecides(s: State, a: Agent, result: Word)
    requires CurrentOf(s, a).In? && CurrentOf(s, a).op.CheckOp?
    ensures Decides(s.log, Resume(s, a, result).log, CurrentOf(s, a).op, result)
  {
    hide OS_ERROR_RESOURCE, Without;
    var t, op := Resume(s, a, result), CurrentOf(s, a).op;
    if t.log != s.log {
      var c := t.log[|s.log|].caller;
      assert t.log == s.log + [if result != {} then Delivered(c, op.flags, op.options, result)
        else Refused(c, OS_ERROR_RESOURCE)];
    }
  }

  /** A check that the word meets delivers exactly the word, whole; one that it does not meet delivers nothing.
      Between LDREX and CLREX the word is the one that was loaded. */
  lemma ChecksDecide(s: State, l: Label)
    requires WordInv(s) && Enabled(s, l) && (l.PlainLoad? || l.StoreSucceeds? || l.ClearAndLeave?)
    requires CurrentOf(s, l.agent).op.CheckOp?
    ensures var op := CurrentOf(s, l.agent).op;
            var v := if l.ClearAndLeave? then s.cell.seen[l.agent] else s.cell.word;
            Decides(s.log, Step(s, l).log, op, if Meets(v, op.flags, op.options) then v else {})
  {
    hide Resume, CurrentOf, Decides, OS_ERROR_RESOURCE;
    var a, op := l.agent, CurrentOf(s, l.agent).op;
    var v := if l.ClearAndLeave? then s.cell.seen[a] else s.cell.word;
    MeetsIsCheck(v, op);
    ResumeDecides(s, a, if Meets(v, op.flags, op.options) then v else {});
  }

  lemma MeetsIsCheck(v: Word, op: WordOp)
    requires op.CheckOp?
    ensures Check(v, op.flags, op.options) == if Meets(v, op.flags, op.options) then v else {}
    ensures op.Exits(v) ==> !Meets(v, op.flags, op.options)
    ensures Meets(v, op.flags, op.options) ==> v != {}
    ensures !op.Exits(v) ==> Meets(v, op.flags, op.options) || v == {}
    ensures op.Result(v) == v
  {
    assert v * op.flags == op.flags * v && (v * op.flags == op.flags <==> op.flags <= v);
  }

  /** A step logs at most one entry, and a delivery only of the word as it is. */
  ghost predicate DeliversWord(s: State, t: State) {
    t.log == s.log ||
    (exists e :: t.log == s.log + [e] &&
                 (e.Delivered? ==> e.value == s.cell.word && Meets(e.value, e.flags, e.options)))
  }

  lemma OtherStepDelivers(s: State, l: Label)
    requires Enabled(s, l) && !IsAccess(l)
    ensures DeliversWord(s, Step(s, l))
  {
    hide CurrentOf, Resume, WithPhase, InsertAt, Without, Meets;
    var t := Step(s, l);
    if t.log != s.log {
      assert t.log == s.log + [t.log[|s.log|]];
    }
  }

  lemma SetOrClearLogs(s: State, l: Label)
    requires Enabled(s, l) && l.StoreSucceeds? && !CurrentOf(s, l.agent).op.CheckOp?
    ensures var op := CurrentOf(s, l.agent).op;
            Step(s, l).log == if op.SetOp? then s.log + [DidSet(l.agent, op.bits)] else s.log
  {
  }

  lemma StepDelivers(s: State, l: Label)
    requires WordInv(s) && Enabled(s, l)
    ensures DeliversWord(s, Step(s, l))
  {
    if !IsAccess(l) {
      OtherStepDelivers(s, l);
    } else if l.StoreSucceeds? && !CurrentOf(s, l.agent).op.CheckOp? {
      hide Step, Resume, CurrentOf, Meets;
      SetOrClearLogs(s, l);
    } else if l.StoreSucceeds? || l.PlainLoad? || l.ClearAndLeave? {
      OnlyChecksExit(s, l);
      hide Step, Resume, CurrentOf, Meets, WordInv, OS_ERROR_RESOURCE;
      ChecksDecide(s, l);
      if l.ClearAndLeave? {
        ClearAndLeaveFails(s, l);
      }
    } else {
      hide CurrentOf, Resume, Meets;
    }
  }

  lemma OnlyChecksExit(s: State, l: Label)
    requires Enabled(s, l) && (l.PlainLoad? || l.ClearAndLeave? || l.StoreSucceeds?)
    ensures l.StoreSucceeds? || CurrentOf(s, l.agent).op.CheckOp?
  {
  }

  lemma ClearAndLeaveFails(s: State, l: Label)
    requires Enabled(s, l) && l.ClearAndLeave? && CurrentOf(s, l.agent).op.CheckOp?
    ensures !Meets(s.cell.seen[l.agent], CurrentOf(s, l.agent).op.flags, CurrentOf(s, l.agent).op.options)
  {
    hide CurrentOf, Meets;
    MeetsIsCheck(s.cell.seen[l.agent], CurrentOf(s, l.agent).op);
  }

  /** Every value that a wait or a poll of the run returned was, whole, the word at some point of the run, and
      met the caller's condition. */
  lemma {:induction false} DeliveredWasTheWord(run: seq<Label>, i: nat) returns (n: nat)
    requires Feasible(run) && i < |Execute(run).log| && Execute(run).log[i].Delivered?
    ensures n < |run| && Feasible(run[..n])
    ensures var e := Execute(run).log[i];
            Execute(run[..n]).cell.word == e.value && Meets(e.value, e.flags, e.options)
  {
    hide Step, Enabled, Meets, WordInv, NoneLost;
    var before := run[..|run|-1];
    var s := Execute(before);
    RunKeepsWord(before);
    StepDelivers(s, run[|run|-1]);
    if i < |s.log| {
      n := DeliveredWasTheWord(before, i);
      assert before[..n] == run[..n];
    } else {
      n := |run| - 1;
    }
  }

  /** The end of the check in a wait: the thread gets the word if it meets the condition; otherwise it goes on
      to block if a timeout was given, and gets osErrorResource if not. */
  lemma WaitDecided(s: State, l: Label, w: Waiter<Thread>, timed: bool)
    requires WordInv(s) && Enabled(s, l) && (l.PlainLoad? || l.StoreSucceeds? || l.ClearAndLeave?)
    requires l.agent == KERNEL && s.kernel.Waiting? && s.kernel.w == w && s.kernel.timed == timed
    ensures var v, t := if l.ClearAndLeave? then s.cell.seen[KERNEL] else s.cell.word, Step(s, l);
            if Meets(v, w.flags, w.options) then
              t.kernel.Rest? && t.log == s.log + [Delivered(ByThread(w), w.flags, w.options, v)]
            else if timed then t.kernel == Blocking(w) && t.log == s.log
            else t.kernel.Rest? && t.log == s.log + [Refused(ByThread(w), OS_ERROR_RESOURCE)]
  {
    hide Meets, OS_ERROR_RESOURCE;
    var v := if l.ClearAndLeave? then s.cell.seen[KERNEL] else s.cell.word;
    MeetsIsCheck(v, CheckOp(w.flags, w.options));
  }

  /** A waiting thread gets osErrorResource only if it gave no timeout or the object is being deleted. */
  lemma {:induction false} ResourceHasReason(run: seq<Label>, w: Waiter<Thread>)
    requires Feasible(run) && Refused(ByThread(w), OS_ERROR_RESOURCE) in Execute(run).log
    ensures BeginWait(w, false) in run || Release in run
  {
    hide Step, Enabled, OS_ERROR_RESOURCE;
    var before, l := run[..|run|-1], run[|run|-1];
    assert run == before + [l];
    var s := Execute(before);
    if Refused(ByThread(w), OS_ERROR_RESOURCE) in s.log {
      ResourceHasReason(before, w);
    } else if l != Release {
      ServesWhatWasBegun(before);
      ResourceStep(s, l, w);
      LatestInRun(before, KERNEL, BeginWait(w, false));
    }
  }

  lemma ResumeRefusesUntimed(s: State, a: Agent, result: Word, w: Waiter<Thread>)
    requires CurrentOf(s, a).In?
    requires Refused(ByThread(w), OS_ERROR_RESOURCE) in Resume(s, a, result).log
    ensures Refused(ByThread(w), OS_ERROR_RESOURCE) in s.log ||
            (s.kernel.Waiting? && s.kernel.w == w && !s.kernel.timed)
  {
    hide Without, OS_ERROR_RESOURCE;
  }

  lemma ResourceStep(s: State, l: Label, w: Waiter<Thread>)
    requires Enabled(s, l) && l != Release
    requires Refused(ByThread(w), OS_ERROR_RESOURCE) in Step(s, l).log
    requires Refused(ByThread(w), OS_ERROR_RESOURCE) !in s.log
    ensures s.kernel.Waiting? && s.kernel.w == w && !s.kernel.timed
  {
    CodesDiffer();
    hide Resume, CurrentOf, WithPhase, InsertAt, Without, OS_ERROR_RESOURCE, OS_ERROR_TIMEOUT, OS_ERROR_PARAMETER;
    if l.StoreSucceeds? {
      ResumeRefusesUntimed(s, l.agent, CurrentOf(s, l.agent).op.Result(s.cell.seen[l.agent]), w);
    } else if l.ClearAndLeave? {
      ResumeRefusesUntimed(s, l.agent, {}, w);
    } else if l.PlainLoad? {
      var op := CurrentOf(s, l.agent).op;
      ResumeRefusesUntimed(s, l.agent, Check(s.cell.word, op.flags, op.options), w);
    } else if IsAccess(l) {
      PhaseLogsNothing(s, l);
    }
  }

  lemma PhaseLogsNothing(s: State, l: Label)
    requires Enabled(s, l) && (l.LoadExclusive? || l.StoreFails? || l.LoseTag?)
    ensures Step(s, l).log == s.log
  {
  }

  lemma {:induction false} LatestInRun(run: seq<Label>, a: Agent, l: Label)
    requires Latest(run, a, l)
    ensures l in run
  {
    if run[|run|-1] != l {
      LatestInRun(run[..|run|-1], a, l);
    }
  }

  // ---- Refusals have their reasons, and registrations are neither lost nor doubled ----

  ghost predicate TimedOut(e: Entry) {
    e.Refused? && e.code == OS_ERROR_TIMEOUT
  }

  ghost predicate BadParameter(e: Entry) {
    e.Refused? && e.code == OS_ERROR_PARAMETER
  }

  ghost predicate TimesOut(l: Label) {
    l.TimeOut? || l.NotSuspended?
  }

  ghost predicate RefusesParameter(l: Label) {
    l.RefuseParameter?
  }

  ghost predicate Registers(l: Label) {
    l.IsrRegister?
  }

  ghost predicate Takes(l: Label) {
    l.TakeFromQueue?
  }

  ghost function Count<X>(s: seq<X>, p: X -> bool): nat {
    if s == [] then 0 else Count(s[..|s|-1], p) + if p(s[|s|-1]) then 1 else 0
  }

  lemma CountMore<X>(s: seq<X>, x: X, p: X -> bool)
    ensures Count(s + [x], p) == Count(s, p) + if p(x) then 1 else 0
  {
    assert (s + [x])[..|s|] == s;
  }

  /** A refusal with osErrorTimeout is a timeout or a suspension the scheduler refused, one with
      osErrorParameter is a refused parameter, and there is no other code but osErrorResource. */
  lemma {:induction false} RefusalsHaveReasons(run: seq<Label>)
    requires Feasible(run)
    ensures var log := Execute(run).log;
            && Count(log, TimedOut) == Count(run, TimesOut)
            && Count(log, BadParameter) == Count(run, RefusesParameter)
            && forall e :: e in log && e.Refused? ==>
                             e.code in {OS_ERROR_TIMEOUT, OS_ERROR_PARAMETER, OS_ERROR_RESOURCE}
  {
    hide Step, Enabled, LogsAtMost, LogsRefusal, OS_ERROR_TIMEOUT, OS_ERROR_RESOURCE, OS_ERROR_PARAMETER;
    if run != [] {
      var before, l := run[..|run|-1], run[|run|-1];
      RefusalsHaveReasons(before);
      var s := Execute(before);
      StepRefuses(s, l);
      OneMoreRefusal(s.log, Step(s, l).log, l);
    }
  }

  lemma OneMoreRefusal(before: seq<Entry>, log: seq<Entry>, l: Label)
    requires TimesOut(l) ==> LogsRefusal(before, log, OS_ERROR_TIMEOUT)
    requires RefusesParameter(l) ==> LogsRefusal(before, log, OS_ERROR_PARAMETER)
    requires !TimesOut(l) && !RefusesParameter(l) ==> LogsAtMost(before, log)
    ensures Count(log, TimedOut) == Count(before, TimedOut) + if TimesOut(l) then 1 else 0
    ensures Count(log, BadParameter) == Count(before, BadParameter) + if RefusesParameter(l) then 1 else 0
    ensures forall e :: e in log && e.Refused? ==>
                          e in before || e.code in {OS_ERROR_TIMEOUT, OS_ERROR_PARAMETER, OS_ERROR_RESOURCE}
  {
    CodesDiffer();
    hide OS_ERROR_TIMEOUT, OS_ERROR_RESOURCE, OS_ERROR_PARAMETER, Count;
    LogCounts(before, log);
  }

  lemma LogCounts(before: seq<Entry>, log: seq<Entry>)
    requires log == before || exists e :: log == before + [e]
    ensures log != before ==>
              && Count(log, TimedOut) == Count(before, TimedOut) + (if TimedOut(log[|before|]) then 1 else 0)
              && Count(log, BadParameter) ==
                 Count(before, BadParameter) + (if BadParameter(log[|before|]) then 1 else 0)
  {
    if log != before {
      var e :| log == before + [e];
      CountMore(before, e, TimedOut);
      CountMore(before, e, BadParameter);
    }
  }

  lemma CodesDiffer()
    ensures OS_ERROR_TIMEOUT != OS_ERROR_PARAMETER && OS_ERROR_RESOURCE !in {OS_ERROR_TIMEOUT, OS_ERROR_PARAMETER}
  {
    assert 0 in OS_ERROR_RESOURCE && 0 !in OS_ERROR_TIMEOUT && 0 !in OS_ERROR_PARAMETER;
    assert 1 in OS_ERROR_TIMEOUT && 1 !in OS_ERROR_PARAMETER;
  }

  ghost predicate LogsRefusal(before: seq<Entry>, log: seq<Entry>, code: Word) {
    |log| == |before| + 1 && log == before + [log[|before|]] && log[|before|].Refused? && log[|before|].code == code
  }

  lemma AccessRefuses(s: State, l: Label)
    requires Enabled(s, l) && IsAccess(l)
    ensures LogsAtMost(s.log, Step(s, l).log)
  {
    hide Resume, CurrentOf, OS_ERROR_RESOURCE;
    if l.StoreSucceeds? {
      var op := CurrentOf(s, l.agent).op;
      ResumeLogs(s, l.agent, op.Result(s.cell.seen[l.agent]));
      if op.SetOp? {
        SetLogsOnce(s, l);
      }
    } else if l.ClearAndLeave? {
      ResumeLogs(s, l.agent, {});
    } else if l.PlainLoad? {
      var op := CurrentOf(s, l.agent).op;
      ResumeLogs(s, l.agent, Check(s.cell.word, op.flags, op.options));
    }
  }

  lemma SetLogsOnce(s: State, l: Label)
    requires Enabled(s, l) && l.StoreSucceeds? && CurrentOf(s, l.agent).op.SetOp?
    ensures Step(s, l).log == s.log + [DidSet(l.agent, CurrentOf(s, l.agent).op.bits)]
  {
  }

  lemma StepRefuses(s: State, l: Label)
    requires Enabled(s, l)
    ensures TimesOut(l) ==> LogsRefusal(s.log, Step(s, l).log, OS_ERROR_TIMEOUT)
    ensures RefusesParameter(l) ==> LogsRefusal(s.log, Step(s, l).log, OS_ERROR_PARAMETER)
    ensures !TimesOut(l) && !RefusesParameter(l) ==> LogsAtMost(s.log, Step(s, l).log)
  {
    hide Resume, CurrentOf, WithPhase, Without, InsertAt, OS_ERROR_RESOURCE, OS_ERROR_TIMEOUT, OS_ERROR_PARAMETER;
    if IsAccess(l) {
      AccessRefuses(s, l);
    }
  }

  /** The entries of the object in the ISR queue are the handlers' registrations that no post-processing
      has taken yet. */
  lemma {:induction false} RegistrationsCounted(run: seq<Label>)
    requires Feasible(run)
    ensures Execute(run).registered ==
            Count(run, Registers) - Count(run, Takes)
  {
    if run != [] {
      var before, l := run[..|run|-1], run[|run|-1];
      RegistrationsCounted(before);
      StepRegisters(Execute(before), l);
      hide Step, Enabled;
    }
  }

  lemma StepRegisters(s: State, l: Label)
    requires Enabled(s, l)
    ensures Step(s, l).registered ==
            s.registered + (if Registers(l) then 1 else 0) - (if Takes(l) then 1 else 0)
  {
  }

  /** No behaviour is missing because a step is not enabled: whatever the kernel is doing outside a helper, and
      whatever a handler is about to do, can be done in any state. */
  lemma EverythingCanHappen(s: State, k: nat, flags: Word, w: Waiter<Thread>, timed: bool, options: Word, a: Agent)
    requires ValidFlags(flags) && ValidFlags(w.flags) && a != KERNEL
    ensures s.kernel.Blocking? ==> Enabled(s, NotSuspended) && (k <= |s.list| ==> Enabled(s, List(k)))
    ensures s.kernel.Sweeping? && s.kernel.index >= |s.list| ==> Enabled(s, EndSweep)
    ensures s.kernel.Deleting? ==> Enabled(s, if s.list == [] then EndDelete else Release)
    ensures s.kernel.Rest? && s.registered > 0 ==> Enabled(s, TakeFromQueue)
    ensures s.kernel.Rest? && k < |s.list| ==> Enabled(s, TimeOut(k)) && Enabled(s, Terminate(k))
    ensures s.kernel.Rest? && s.alive ==>
              Enabled(s, BeginSet(flags)) && Enabled(s, BeginClear(flags)) && Enabled(s, BeginWait(w, timed)) &&
              Enabled(s, BeginDelete)
    ensures a !in s.isrs && s.alive ==>
              Enabled(s, IsrBeginSet(a, flags)) && Enabled(s, IsrBeginClear(a, flags)) &&
              Enabled(s, IsrBeginPoll(a, flags, options))
    ensures a in s.isrs && s.isrs[a].IsrRegistering? ==> Enabled(s, IsrRegister(a))
  {
    hide CurrentOf;
  }

  // ---- Deleting is final ----

  /** After a delete nobody is listed, no kernel call and no handler's call begins, and no wait ever has
      anything but the outcome it had. */
  lemma {:induction false} DeletedForGood(run: seq<Label>, n: nat)
    requires Feasible(run) && n < |run| && run[n] == EndDelete
    ensures Execute(run).list == [] && Execute(run).kernel.Rest?
    ensures forall m, a :: n < m < |run| ==> !Begins(run[m], a)
  {
    DeletedStays(run, n);
  }

  ghost predicate Gone(s: State) {
    !s.alive && s.list == [] && s.kernel.Rest?
  }

  lemma AccessStaysGone(s: State, l: Label)
    requires Enabled(s, l) && IsAccess(l) && Gone(s)
    ensures Gone(Step(s, l))
  {
  }

  lemma StepStaysGone(s: State, l: Label)
    requires Enabled(s, l) && Gone(s)
    ensures Gone(Step(s, l)) && forall a :: !Begins(l, a)
  {
    hide CurrentOf, Resume, WithPhase, InsertAt, Without;
    if IsAccess(l) {
      AccessStaysGone(s, l);
    }
  }

  lemma {:induction false} DeletedStays(run: seq<Label>, n: nat)
    requires Feasible(run) && n < |run| && run[n] == EndDelete
    ensures Gone(Execute(run))
    ensures forall m, a :: n < m < |run| ==> !Begins(run[m], a)
    decreases |run|
  {
    hide Step, Enabled, Begins, Gone;
    var before, l := run[..|run|-1], run[|run|-1];
    if n < |run| - 1 {
      DeletedStays(before, n);
      assert run == before + [l];
      StepStaysGone(Execute(before), l);
    } else {
      DeleteGoes(Execute(before));
    }
  }

  lemma DeleteGoes(s: State)
    requires Enabled(s, EndDelete)
    ensures Gone(Step(s, EndDelete))
  {
  }
}
