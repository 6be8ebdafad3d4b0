/** The service calls of rtx_evflags.c on control blocks in memory, with no interrupt in between.

    The flag word is updated in place and threads are unlinked from the object's list while it is
    being walked.  Each call is specified by `Sweep.Run`, the sweep on values, applied to what the
    control blocks held before the call. */
module EventFlags {
  import opened Bits
  import opened FlagWord
  import opened ThreadList
  import opened Sweep

  // ---- The waiting threads as values ----

  ghost function WaiterOf(t: Node): Waiter<Node>
    reads t`waitFlags, t`flagsOptions
  {
    Waiter(t, t.waitFlags, t.flagsOptions)
  }

  ghost predicate DescribesAt(ws: seq<Waiter<Node>>, s: seq<Node>, i: nat)
    requires i < |ws| == |s|
    reads Elements(s)`waitFlags, Elements(s)`flagsOptions
  {
    ws[i] == WaiterOf(s[i])
  }

  ghost predicate Describes(ws: seq<Waiter<Node>>, s: seq<Node>)
    reads Elements(s)`waitFlags, Elements(s)`flagsOptions
  {
    |ws| == |s| && forall i :: 0 <= i < |s| ==> DescribesAt(ws, s, i)
  }

  ghost function WaitersOf(s: seq<Node>): (ws: seq<Waiter<Node>>)
    reads s
    ensures Describes(ws, s)
  {
    seq(|s|, i requires 0 <= i < |s| reads s => WaiterOf(s[i]))
  }

  /** The threads of `woken` put into a ready list, one after the other. */
  ghost function PutAll(s: seq<Node>, woken: seq<Wake<Node>>): seq<Node> {
    if woken == [] then s else Put(PutAll(s, woken[..|woken|-1]), woken[|woken|-1].waiter.who)
  }

  /** The object's waiters and the ready threads form two disjoint lists, each sorted by priority. */
  ghost predicate Lists(ef: Node, ready: Node)
    reads ef`threads, ef`threadNext, Elements(ef.threads)`threadNext, Elements(ef.threads)`threadPrev
    reads ready`threads, ready`threadNext, Elements(ready.threads)`threadNext, Elements(ready.threads)`threadPrev
  {
    && ef != ready && ef.Linked() && ready.Linked()
    && Elements(ef.threads) !! Elements(ready.threads)
    && ef !in ready.threads && ready !in ef.threads
    && Sorted(ef.threads) && Sorted(ready.threads)
  }

  // ---- The helpers, in the build that disables interrupts ----

  method EventFlagsSet(ef: Node, flags: Word) returns (eventFlags: Word)
    modifies ef`eventFlags
    ensures ef.eventFlags == old(ef.eventFlags) + flags && eventFlags == ef.eventFlags
  {
    ef.eventFlags := ef.eventFlags + flags;
    eventFlags := ef.eventFlags;
  }

  method EventFlagsClear(ef: Node, flags: Word) returns (eventFlags: Word)
    modifies ef`eventFlags
    ensures eventFlags == old(ef.eventFlags) && ef.eventFlags == old(ef.eventFlags) - flags
  {
    eventFlags := ef.eventFlags;
    ef.eventFlags := ef.eventFlags - flags;
  }

  lemma AnyOf(word: Word, flags: Word)
    ensures (exists b :: b in flags && b in word) <==> word * flags != {}
  {
    if b :| b in flags && b in word {
      assert b in word * flags;
    }
    if word * flags != {} {
      var b :| b in word * flags;
      assert b in flags && b in word;
    }
  }

  method EventFlagsCheck(ef: Node, flags: Word, options: Word) returns (eventFlags: Word)
    modifies ef`eventFlags
    ensures eventFlags == Check(old(ef.eventFlags), flags, options)
    ensures ef.eventFlags == Checked(old(ef.eventFlags), flags, options)
    ensures var word := old(ef.eventFlags);
            if (if WAIT_ALL in options then flags <= word else exists b :: b in flags && b in word)
            then eventFlags == word && ef.eventFlags == if NO_CLEAR in options then word else word - flags
            else eventFlags == {} && ef.eventFlags == word
  {
    eventFlags := ef.eventFlags;
    AnyOf(eventFlags, flags);
    if (WAIT_ALL in options && eventFlags * flags != flags) || (WAIT_ALL !in options && eventFlags * flags == {}) {
      eventFlags := {};
    } else if NO_CLEAR !in options {
      ef.eventFlags := ef.eventFlags - flags;
    }
  }

  // ---- Leaving the wait state ----

  /** osRtxThreadWaitExit with dispatch FALSE: the value goes to the thread's R0, the thread to the ready list. */
  method WaitExit(thread: Node, value: Word, ready: Node)
    requires ready.Linked() && Sorted(ready.threads) && thread !in ready.threads && thread != ready
    modifies ready`threadNext, ready`threads, thread`threadNext, thread`threadPrev, thread`r0
    modifies Elements(ready.threads)`threadNext, Elements(ready.threads)`threadPrev
    ensures thread.r0 == value
    ensures ready.threads == Put(old(ready.threads), thread)
    ensures ready.Linked() && Sorted(ready.threads)
  {
    thread.r0 := value;
    PutSorted(ready.threads, thread);
    ListPut(ready, thread);
  }

  lemma WithoutElements(s: seq<Node>, i: nat)
    requires Distinct(s) && i < |s|
    ensures Elements(Without(s, i)) == Elements(s) - {s[i]}
    ensures s[i] !in Without(s, i) && forall t :: t in Without(s, i) ==> t in s
  {
    assert s == s[..i] + [s[i]] + s[i+1..];
    OnlyAt(s, i);
  }

  /** Take the i-th waiter off the object's list and make it ready with `value`. */
  method Wakeup(ef: Node, ready: Node, thread: Node, value: Word, ghost i: nat)
    requires Lists(ef, ready) && i < |ef.threads| && ef.threads[i] == thread
    modifies ef`threadNext, ef`threads, ready`threadNext, ready`threads, thread`r0
    modifies Elements(ef.threads)`threadNext, Elements(ef.threads)`threadPrev
    modifies Elements(ready.threads)`threadNext, Elements(ready.threads)`threadPrev
    ensures Lists(ef, ready) && thread.r0 == value
    ensures ef.threads == Without(old(ef.threads), i)
    ensures ready.threads == Put(old(ready.threads), thread)
    ensures thread !in ef.threads && forall t :: t in ef.threads ==> t in old(ef.threads)
    ensures Elements(ef.threads) + Elements(ready.threads) == old(Elements(ef.threads) + Elements(ready.threads))
  {
    ghost var es, rs := ef.threads, ready.threads;
    WithoutElements(es, i);
    WithoutSorted(es, i);
    PutAdds(rs, thread);
    assert ef.LinkedAt(i);
    ListRemove(thread, ef, i);
    assert ready.Linked();
    WaitExit(thread, value, ready);
    assert ef.Linked();
  }

  // ---- Dispatching ----

  ghost predicate Preempts(rq: seq<Node>, running: Node, kernelRunning: bool) {
    kernelRunning && rq != [] && rq[0].priority > running.priority
  }

  /** The thread that runs next, when the ready threads are `rq`. */
  ghost function Chosen(rq: seq<Node>, running: Node, kernelRunning: bool): Node {
    if Preempts(rq, running, kernelRunning) then rq[0] else running
  }

  /** The threads that stay ready: a preempted thread comes before the others of its priority. */
  ghost function Reordered(rq: seq<Node>, running: Node, kernelRunning: bool): seq<Node> {
    if Preempts(rq, running, kernelRunning) then PutFront(rq[1..], running) else rq
  }

  /** The running thread's control block is on neither list. */
  ghost predicate Apart(running: Node, ef: Node, ready: Node)
    reads ef`threads, ready`threads
  {
    running != ef && running != ready && running !in ef.threads && running !in ready.threads
  }

  lemma HeadIsHighest(s: seq<Node>)
    requires Sorted(s)
    ensures forall t :: t in s ==> t.priority <= s[0].priority
  {
    forall t | t in s ensures t.priority <= s[0].priority {
      var i :| 0 <= i < |s| && s[i] == t;
      assert i > 0 ==> InOrder(s, 0, i);
    }
  }

  /** While the kernel runs, no ready thread has a higher priority than the one that runs next; and no
      thread is lost or doubled. */
  lemma ChosenIsHighest(rq: seq<Node>, running: Node, kernelRunning: bool)
    requires Sorted(rq) && Distinct(rq) && running !in rq
    ensures var next, left := Chosen(rq, running, kernelRunning), Reordered(rq, running, kernelRunning);
            && Sorted(left) && next !in left && Elements(left) + {next} == Elements(rq) + {running}
            && (kernelRunning ==> forall t :: t in left ==> t.priority <= next.priority)
  {
    HeadIsHighest(rq);
    if Preempts(rq, running, kernelRunning) {
      assert Without(rq, 0) == rq[1..];
      WithoutElements(rq, 0);
      WithoutSorted(rq, 0);
      PutFrontSorted(rq[1..], running);
      assert forall t :: t in PutFront(rq[1..], running) ==> t in Elements(rq[1..]) + {running};
    }
  }

  /** The running thread keeps the processor against ready threads of its own priority: it is only replaced, by
      the first ready thread, while the kernel runs and that thread's priority is strictly higher.  Then it
      stays ahead of the ready threads of its own priority. */
  lemma KeepsProcessor(rq: seq<Node>, running: Node, kernelRunning: bool) returns (k: nat)
    requires Sorted(rq) && running !in rq
    ensures var next, left := Chosen(rq, running, kernelRunning), Reordered(rq, running, kernelRunning);
            && (next != running <==> kernelRunning && rq != [] && rq[0].priority > running.priority)
            && (next == running ==> left == rq)
            && (next != running ==>
                  var rest := rq[1..];
                  && next == rq[0] && k < |left| && left[k] == running
                  && k <= |rest| && left[..k] == rest[..k] && left[k+1..] == rest[k..]
                  && forall i :: 0 <= i < |rest| ==> (i < k <==> rest[i].priority > running.priority))
  {
    k := 0;
    if Preempts(rq, running, kernelRunning) {
      assert Without(rq, 0) == rq[1..];
      WithoutSorted(rq, 0);
      k := FrontPlace(rq[1..], running);
    }
  }

  /** osRtxThreadDispatch(NULL) */
  method Dispatch(ready: Node, running: Node, kernelRunning: bool) returns (next: Node)
    requires ready.Linked() && Sorted(ready.threads) && running != ready && running !in ready.threads
    modifies ready`threadNext, ready`threads, running`threadNext, running`threadPrev
    modifies Elements(ready.threads)`threadNext, Elements(ready.threads)`threadPrev
    ensures ready.Linked()
    ensures next == Chosen(old(ready.threads), running, kernelRunning)
    ensures ready.threads == Reordered(old(ready.threads), running, kernelRunning)
    ensures next != running <==>
            kernelRunning && old(ready.threads) != [] && old(ready.threads)[0].priority > running.priority
    ensures next == running ==> ready.threads == old(ready.threads)
  {
    next := running;
    var threadReady := ready.threadNext;
    if kernelRunning && threadReady != null && threadReady.priority > running.priority {
      assert ready.LinkedAt(0);
      assert Without(ready.threads, 0) == ready.threads[1..];
      ListRemove(threadReady, ready, 0);
      ThreadBlock(ready, running);
      next := threadReady;
    }
  }

  // ---- The sweep ----

  /** The object and its waiters after a sweep with outcome r, when the waiters were `es`. */
  ghost predicate Outcome(ef: Node, es: seq<Node>, r: Swept<Node>)
    reads ef`eventFlags, ef`threads, Elements(es)`r0
    reads Elements(ef.threads)`waitFlags, Elements(ef.threads)`flagsOptions
  {
    && ef.eventFlags == r.word
    && Elements(ef.threads) <= Elements(es) && Describes(r.kept, ef.threads)
    && (forall d :: d in r.woken ==> d.waiter.who in es && d.waiter.who !in ef.threads && d.waiter.who.r0 == d.value)
  }

  ghost function R0s(s: seq<Node>): map<Node, Word>
    reads s
  {
    map t | t in s :: t.r0
  }

  /** The threads that still wait have the R0 they had. */
  ghost predicate Untouched(ef: Node, r0s: map<Node, Word>)
    reads ef`threads, Elements(ef.threads)`r0
  {
    forall t :: t in ef.threads ==> t in r0s && t.r0 == r0s[t]
  }

  /** The same with the ready threads, which were `rs`. */
  ghost predicate Shows(ef: Node, ready: Node, es: seq<Node>, rs: seq<Node>, r: Swept<Node>)
    reads ef`eventFlags, ef`threads, ready`threads, Elements(es)`r0
    reads Elements(ef.threads)`waitFlags, Elements(ef.threads)`flagsOptions
  {
    Outcome(ef, es, r) && ready.threads == PutAll(rs, r.woken)
  }

  /** The same after dispatching, when `running` ran before and `next` runs next. */
  ghost predicate Settles(ef: Node, ready: Node, es: seq<Node>, rs: seq<Node>, r: Swept<Node>,
                          running: Node, kernelRunning: bool, next: Node)
    reads ef`eventFlags, ef`threads, ready`threads, Elements(es)`r0
    reads Elements(ef.threads)`waitFlags, Elements(ef.threads)`flagsOptions
  {
    && Outcome(ef, es, r)
    && ready.threads == Reordered(PutAll(rs, r.woken), running, kernelRunning)
    && next == Chosen(PutAll(rs, r.woken), running, kernelRunning)
  }

  lemma PutOneMore(s: seq<Node>, woken: seq<Wake<Node>>, d: Wake<Node>)
    ensures PutAll(s, woken + [d]) == Put(PutAll(s, woken), d.waiter.who)
  {
    assert (woken + [d])[..|woken|] == woken;
  }

  /** One round of the walk: check the i-th waiter, and wake it if its condition is met. */
  method Visit(ef: Node, ready: Node, thread: Node, ghost i: nat) returns (eventFlags0: Word)
    requires Lists(ef, ready) && i < |ef.threads| && ef.threads[i] == thread
    modifies ef`eventFlags, ef`threadNext, ef`threads, ready`threadNext, ready`threads, thread`r0
    modifies Elements(ef.threads)`threadNext, Elements(ef.threads)`threadPrev
    modifies Elements(ready.threads)`threadNext, Elements(ready.threads)`threadPrev
    ensures Lists(ef, ready)
    ensures eventFlags0 == Met(old(ef.eventFlags), WaiterOf(thread))
    ensures ef.eventFlags == After(old(ef.eventFlags), WaiterOf(thread))
    ensures eventFlags0 == {} ==>
              && ef.threads == old(ef.threads) && ready.threads == old(ready.threads)
              && thread.r0 == old(thread.r0)
    ensures eventFlags0 != {} ==>
              && ef.threads == Without(old(ef.threads), i) && ready.threads == Put(old(ready.threads), thread)
              && thread.r0 == eventFlags0 && thread !in ef.threads
    ensures forall t :: t in ef.threads ==> t in old(ef.threads) && t.r0 == old(t.r0)
    ensures Elements(ef.threads) + Elements(ready.threads) == old(Elements(ef.threads) + Elements(ready.threads))
  {
    eventFlags0 := EventFlagsCheck(ef, thread.waitFlags, thread.flagsOptions);
    if eventFlags0 != {} {
      Wakeup(ef, ready, thread, eventFlags0, i);
    }
  }

  ghost predicate Same(s: seq<Node>, i: int, t: seq<Node>, j: int) {
    0 <= i < |s| && 0 <= j < |t| && s[i] == t[j]
  }

  /** s is `kept` followed by what is left of `es` from n on. */
  ghost predicate Follows(s: seq<Node>, kept: seq<Node>, es: seq<Node>, n: nat) {
    && n <= |es| && |s| == |kept| + |es| - n
    && (forall i :: 0 <= i < |kept| ==> Same(s, i, kept, i))
    && (forall i, j :: n <= j < |es| && i == |kept| + j - n ==> Same(s, i, es, j))
  }

  lemma FollowsIs(s: seq<Node>, kept: seq<Node>, es: seq<Node>, n: nat)
    requires n <= |es|
    ensures Follows(s, kept, es, n) <==> s == kept + es[n..]
  {
    if Follows(s, kept, es, n) {
      forall i | 0 <= i < |s| ensures s[i] == (kept + es[n..])[i] {
        assert i < |kept| ==> Same(s, i, kept, i);
        assert i >= |kept| ==> Same(s, i, es, i - |kept| + n);
      }
    }
  }

  /** Memory after n visits of the walk over `es`: `kept` are the nodes passed over, r the outcome so far. */
  ghost predicate Walking(ef: Node, ready: Node, es: seq<Node>, rs: seq<Node>, n: nat, kept: seq<Node>, r: Swept<Node>)
    reads ef, ready, es, kept
  {
    && Follows(ef.threads, kept, es, n) && Distinct(es)
    && ef.eventFlags == r.word && Describes(r.kept, kept)
    && ready.threads == PutAll(rs, r.woken)
    && (forall d :: d in r.woken ==> d.waiter.who in es && d.waiter.who !in ef.threads && d.waiter.who.r0 == d.value)
    && (forall t :: t in kept ==> t in es)
  }

  lemma Positions(es: seq<Node>, kept: seq<Node>, n: nat)
    requires n < |es|
    ensures Without(kept + es[n..], |kept|) == kept + es[n+1..]
    ensures kept + es[n..] == (kept + [es[n]]) + es[n+1..]
    ensures (kept + es[n..])[|kept|] == es[n]
    ensures At(kept + es[n..], |kept| + 1) == At(es, n + 1)
  {
  }

  lemma WokeOne(ef: Node, ready: Node, es: seq<Node>, rs: seq<Node>, n: nat, kept: seq<Node>, r: Swept<Node>,
                d: Wake<Node>)
    requires n < |es| && Distinct(es) && ef.threads == kept + es[n+1..] && Describes(r.kept, kept)
    requires ready.threads == Put(PutAll(rs, r.woken), es[n]) && d.waiter.who == es[n] && es[n].r0 == d.value
    requires forall d :: d in r.woken ==>
                           d.waiter.who in es && d.waiter.who !in ef.threads && d.waiter.who.r0 == d.value
    requires es[n] !in ef.threads && forall t :: t in kept ==> t in es
    ensures Walking(ef, ready, es, rs, n + 1, kept, Swept(ef.eventFlags, r.kept, r.woken + [d]))
  {
    FollowsIs(ef.threads, kept, es, n + 1);
    PutOneMore(rs, r.woken, d);
  }

  lemma KeptOne(ef: Node, ready: Node, es: seq<Node>, rs: seq<Node>, n: nat, kept: seq<Node>, r: Swept<Node>)
    requires n < |es| && Walking(ef, ready, es, rs, n, kept, r)
    ensures Walking(ef, ready, es, rs, n + 1, kept + [es[n]], Swept(r.word, r.kept + [WaiterOf(es[n])], r.woken))
  {
    FollowsIs(ef.threads, kept, es, n);
    Positions(es, kept, n);
    FollowsIs(ef.threads, kept + [es[n]], es, n + 1);
    forall i | 0 <= i < |kept| + 1 ensures DescribesAt(r.kept + [WaiterOf(es[n])], kept + [es[n]], i) {
      assert i < |kept| ==> DescribesAt(r.kept, kept, i);
    }
  }

  /** Where the walk goes on. */
  lemma NextToVisit(ef: Node, ready: Node, es: seq<Node>, rs: seq<Node>, n: nat, kept: seq<Node>, r: Swept<Node>)
    requires ef.Linked() && n < |es| && Walking(ef, ready, es, rs, n, kept, r)
    ensures es[n].threadNext == At(es, n + 1)
  {
    FollowsIs(ef.threads, kept, es, n);
    Positions(es, kept, n);
    Spell(ef);
    assert ef.threads[|kept|] == es[n];
  }

  lemma StartWalking(ef: Node, ready: Node)
    requires Lists(ef, ready)
    ensures var ws := WaitersOf(ef.threads);
            && Describes(ws, ef.threads)
            && Walking(ef, ready, ef.threads, ready.threads, 0, [], Swept(ef.eventFlags, [], []))
            && Run(ef.eventFlags, ws[..0]) == Swept(ef.eventFlags, [], [])
    ensures ef.threadNext == At(ef.threads, 0) && Untouched(ef, R0s(ef.threads))
  {
    FollowsIs(ef.threads, [], ef.threads, 0);
    assert ef.threads[0..] == ef.threads;
  }

  lemma WalkDone(ef: Node, ready: Node, es: seq<Node>, rs: seq<Node>, n: nat, kept: seq<Node>, r: Swept<Node>)
    requires Walking(ef, ready, es, rs, n, kept, r) && (n >= |es| || ef.threads == [])
    ensures n == |es| && Shows(ef, ready, es, rs, r)
  {
    FollowsIs(ef.threads, kept, es, n);
    assert es[|es|..] == [] && ef.threads == kept;
  }

  lemma SweepDone(ef: Node, ready: Node, word: Word, ws: seq<Waiter<Node>>, es: seq<Node>, rs: seq<Node>,
                  n: nat, kept: seq<Node>, r: Swept<Node>)
    requires Walking(ef, ready, es, rs, n, kept, r) && At(es, n) == null
    requires Describes(ws, es) && n <= |ws| && r == Run(word, ws[..n])
    ensures Shows(ef, ready, es, rs, Run(word, ws)) && ef.eventFlags == r.word
  {
    WalkDone(ef, ready, es, rs, n, kept, r);
    assert ws[..n] == ws;
  }

  /** The n-th visit. */
  method VisitPosition(ef: Node, ready: Node, thread: Node, ghost es: seq<Node>, ghost rs: seq<Node>, ghost n: nat,
                   ghost kept: seq<Node>, ghost r: Swept<Node>)
    returns (eventFlags0: Word, ghost kept': seq<Node>, ghost r': Swept<Node>)
    requires Lists(ef, ready) && n < |es| && thread == es[n]
    requires Walking(ef, ready, es, rs, n, kept, r)
    modifies ef`eventFlags, ef`threadNext, ef`threads, ready`threadNext, ready`threads, thread`r0
    modifies Elements(ef.threads)`threadNext, Elements(ef.threads)`threadPrev
    modifies Elements(ready.threads)`threadNext, Elements(ready.threads)`threadPrev
    ensures Lists(ef, ready)
    ensures Elements(ef.threads) + Elements(ready.threads) == old(Elements(ef.threads) + Elements(ready.threads))
    ensures eventFlags0 == Met(r.word, WaiterOf(thread))
    ensures old(thread.threadNext) == At(es, n + 1)
    ensures forall t :: t in ef.threads ==> t in old(ef.threads) && t.r0 == old(t.r0)
    ensures r' == OneMore(r, WaiterOf(thread)) && Walking(ef, ready, es, rs, n + 1, kept', r')
  {
    NextToVisit(ef, ready, es, rs, n, kept, r);
    FollowsIs(ef.threads, kept, es, n);
    Positions(es, kept, n);
    FailedCheckKeeps(r.word, thread.waitFlags, thread.flagsOptions);
    r' := OneMore(r, WaiterOf(thread));
    eventFlags0 := Visit(ef, ready, thread, |kept|);
    forall i | 0 <= i < |kept| ensures DescribesAt(r.kept, kept, i) {
      assert old(DescribesAt(r.kept, kept, i));
    }
    if eventFlags0 != {} {
      WokeOne(ef, ready, es, rs, n, kept, r, Wake(WaiterOf(thread), eventFlags0));
      kept' := kept;
    } else {
      KeptOne(ef, ready, es, rs, n, kept, r);
      kept' := kept + [es[n]];
    }
  }

  /** How svcRtxEventFlagsSet keeps track of the word: from the value the check returned. */
  function Tracked(word: Word, value: Word, flags: Word, options: Word): Word {
    if value == {} then word else if NO_CLEAR !in options then value - flags else value
  }

  /** The n-th visit continues the sweep of the first n waiters. */
  method VisitNext(ef: Node, ready: Node, thread: Node, ghost word: Word, ghost ws: seq<Waiter<Node>>,
                   ghost es: seq<Node>, ghost rs: seq<Node>, ghost n: nat, ghost kept: seq<Node>, ghost r: Swept<Node>,
                   ghost r0s: map<Node, Word>, ghost all: set<Node>)
    returns (eventFlags0: Word, ghost kept': seq<Node>, ghost r': Swept<Node>)
    requires Lists(ef, ready) && Untouched(ef, r0s) && thread == At(es, n) && Describes(ws, es)
    requires Elements(ef.threads) + Elements(ready.threads) == all
    requires Walking(ef, ready, es, rs, n, kept, r) && n <= |ws| && r == Run(word, ws[..n])
    modifies ef`eventFlags, ef`threadNext, ef`threads, ready`threadNext, ready`threads, Elements(es)`r0
    modifies all`threadNext, all`threadPrev
    ensures Lists(ef, ready) && Elements(ef.threads) + Elements(ready.threads) == all
    ensures old(thread.threadNext) == At(es, n + 1)
    ensures Describes(ws, es) && n < |es| && n < |ws|
    ensures Walking(ef, ready, es, rs, n + 1, kept', r') && r' == Run(word, ws[..n+1]) && Untouched(ef, r0s)
    ensures r'.word == Tracked(r.word, eventFlags0, thread.waitFlags, thread.flagsOptions)
  {
    hide Walking, Lists, PutAll, Put, Follows, Run;
    assert DescribesAt(ws, es, n);
    assert ws[..n+1] == ws[..n] + [ws[n]];
    RunOneMore(word, ws[..n], ws[n]);
    eventFlags0, kept', r' := VisitPosition(ef, ready, thread, es, rs, n, kept, r);
  }

  /** The loop of svcRtxEventFlagsSet.  The word it returns is tracked as the source tracks it. */
  method SweepTracking(ef: Node, ready: Node, word: Word) returns (eventFlags: Word)
    requires Lists(ef, ready) && ef.eventFlags == word
    modifies ef`eventFlags, ef`threadNext, ef`threads, ready`threadNext, ready`threads
    modifies Elements(ef.threads)`threadNext, Elements(ef.threads)`threadPrev, Elements(ef.threads)`r0
    modifies Elements(ready.threads)`threadNext, Elements(ready.threads)`threadPrev
    ensures Lists(ef, ready)
    ensures Shows(ef, ready, old(ef.threads), old(ready.threads), Run(word, old(WaitersOf(ef.threads))))
    ensures Untouched(ef, old(R0s(ef.threads)))
    ensures Elements(ef.threads) + Elements(ready.threads) == old(Elements(ef.threads) + Elements(ready.threads))
    ensures eventFlags == ef.eventFlags
  {
    hide *; // the loop only passes facts on
    ghost var es, rs, ws := ef.threads, ready.threads, WaitersOf(ef.threads);
    ghost var all := Elements(ef.threads) + Elements(ready.threads);
    ghost var n, kept: seq<Node>, r, r0s := 0, [], Swept(word, [], []), R0s(ef.threads);
    StartWalking(ef, ready);
    eventFlags := word;
    var thread := ef.threadNext;
    while thread != null
      invariant Lists(ef, ready) && Elements(ef.threads) + Elements(ready.threads) == all
      invariant Walking(ef, ready, es, rs, n, kept, r) && thread == At(es, n)
      invariant Describes(ws, es) && n <= |ws| && r == Run(word, ws[..n]) && eventFlags == r.word
      invariant Untouched(ef, r0s)
      decreases |es| - n
    {
      var threadNext := thread.threadNext;
      var eventFlags0;
      eventFlags0, kept, r := VisitNext(ef, ready, thread, word, ws, es, rs, n, kept, r, r0s, all);
      eventFlags := Tracked(eventFlags, eventFlags0, thread.waitFlags, thread.flagsOptions);
      n := n + 1;
      thread := threadNext;
    }
    SweepDone(ef, ready, word, ws, es, rs, n, kept, r);
  }

  /** osRtxEventFlagsPostProcess */
  method PostProcess(ef: Node, ready: Node)
    requires Lists(ef, ready)
    modifies ef`eventFlags, ef`threadNext, ef`threads, ready`threadNext, ready`threads
    modifies Elements(ef.threads)`threadNext, Elements(ef.threads)`threadPrev, Elements(ef.threads)`r0
    modifies Elements(ready.threads)`threadNext, Elements(ready.threads)`threadPrev
    ensures Lists(ef, ready)
    ensures Shows(ef, ready, old(ef.threads), old(ready.threads), Run(old(ef.eventFlags), old(WaitersOf(ef.threads))))
    ensures Untouched(ef, old(R0s(ef.threads)))
    ensures Elements(ef.threads) + Elements(ready.threads) == old(Elements(ef.threads) + Elements(ready.threads))
  {
    hide *; // the loop only passes facts on
    ghost var word, es, rs, ws := ef.eventFlags, ef.threads, ready.threads, WaitersOf(ef.threads);
    ghost var all := Elements(ef.threads) + Elements(ready.threads);
    ghost var n, kept: seq<Node>, r, r0s := 0, [], Swept(word, [], []), R0s(ef.threads);
    StartWalking(ef, ready);
    var thread := ef.threadNext;
    while thread != null
      invariant Lists(ef, ready) && Elements(ef.threads) + Elements(ready.threads) == all
      invariant Walking(ef, ready, es, rs, n, kept, r) && thread == At(es, n)
      invariant Describes(ws, es) && n <= |ws| && r == Run(word, ws[..n])
      invariant Untouched(ef, r0s)
      decreases |es| - n
    {
      var threadNext := thread.threadNext;
      var eventFlags;
      eventFlags, kept, r := VisitNext(ef, ready, thread, word, ws, es, rs, n, kept, r, r0s, all);
      n := n + 1;
      thread := threadNext;
    }
    SweepDone(ef, ready, word, ws, es, rs, n, kept, r);
  }

  // ---- Service calls ----

  /** The parameter check that every call starts with. */
  ghost predicate Accepts(ef: Node?, flags: Word)
    reads ef
  {
    ef != null && ef.id == ID_EVENT_FLAGS && ValidFlags(flags)
  }

  /** That is: the object exists and is an event flags object, and no flag above the 31 is asked for. */
  lemma AcceptsWhat(ef: Node?, flags: Word)
    ensures Accepts(ef, flags) <==> ef != null && ef.id == 0xF3 && forall b :: b in flags ==> b < 31
  {
    if forall b :: b in flags ==> b < 31 {
      assert ERROR !in flags;
    } else {
      var b :| b in flags && b >= 31;
      assert b == ERROR;
    }
  }

  ghost function Objects(ef: Node?, ready: Node): set<Node> {
    if ef == null then {ready} else {ef, ready}
  }

  ghost function Target(ef: Node?): set<Node> {
    if ef == null then {} else {ef}
  }

  ghost function Waiting(ef: Node?): set<Node>
    reads ef
  {
    if ef == null then {} else Elements(ef.threads)
  }

  ghost function Threads(ef: Node?, ready: Node): set<Node>
    reads ef, ready
  {
    Waiting(ef) + Elements(ready.threads)
  }

  /** svcRtxEventFlagsSet, called by the running thread. */
  method SvcSet(ef: Node?, flags: Word, running: Node, ready: Node, kernelRunning: bool)
    returns (result: Word, next: Node)
    requires Accepts(ef, flags) ==> Lists(ef, ready) && Apart(running, ef, ready)
    modifies Objects(ef, ready)`eventFlags, Objects(ef, ready)`threadNext, Objects(ef, ready)`threads
    modifies Threads(ef, ready)`threadNext, Threads(ef, ready)`threadPrev, Waiting(ef)`r0
    modifies running`threadNext, running`threadPrev
    ensures !old(Accepts(ef, flags)) ==>
              && result == OS_ERROR_PARAMETER && next == running && unchanged(running)
              && unchanged(Objects(ef, ready)) && unchanged(Threads(ef, ready))
    ensures Accepts(ef, flags) ==>
              && Lists(ef, ready)
              && Settles(ef, ready, old(ef.threads), old(ready.threads),
                         Run(old(ef.eventFlags) + flags, old(WaitersOf(ef.threads))), running, kernelRunning, next)
              && result == ef.eventFlags
              && Elements(ef.threads) + Elements(ready.threads) + {next} ==
                 old(Elements(ef.threads) + Elements(ready.threads)) + {running}
              && Untouched(ef, old(R0s(ef.threads)))
  {
    hide Outcome, PutAll, Describes, Reordered, Chosen, Untouched, WaitersOf, R0s, Run;
    if ef == null || ef.id != ID_EVENT_FLAGS || ERROR in flags {
      return OS_ERROR_PARAMETER, running;
    }
    var eventFlags := EventFlagsSet(ef, flags);
    result := SweepTracking(ef, ready, eventFlags);
    StillApart(running, ef, ready, old(ef.threads), old(ready.threads));
    next := DispatchApart(ef, ready, running, kernelRunning);
  }

  /** Threads only move between the two lists. */
  lemma StillApart(running: Node, ef: Node, ready: Node, es: seq<Node>, rs: seq<Node>)
    requires running != ef && running != ready && running !in es && running !in rs
    requires Elements(ef.threads) + Elements(ready.threads) == Elements(es) + Elements(rs)
    ensures Apart(running, ef, ready)
  {
    assert running !in Elements(es) + Elements(rs);
  }

  /** The dispatch at the end of a call, which leaves the object and its waiters alone. */
  method DispatchApart(ef: Node, ready: Node, running: Node, kernelRunning: bool) returns (next: Node)
    requires Lists(ef, ready) && Apart(running, ef, ready)
    modifies ready`threadNext, ready`threads, running`threadNext, running`threadPrev
    modifies Elements(ready.threads)`threadNext, Elements(ready.threads)`threadPrev
    ensures Lists(ef, ready)
    ensures next == Chosen(old(ready.threads), running, kernelRunning)
    ensures ready.threads == Reordered(old(ready.threads), running, kernelRunning)
    ensures Elements(ready.threads) + {next} == old(Elements(ready.threads)) + {running}
    ensures kernelRunning ==> forall t :: t in ready.threads ==> t.priority <= next.priority
  {
    ChosenIsHighest(ready.threads, running, kernelRunning);
    next := Dispatch(ready, running, kernelRunning);
    assert ef.Linked();
    assert forall t :: t in ready.threads ==> t in Elements(ready.threads) + {next};
  }

  /** svcRtxEventFlagsClear */
  method SvcClear(ef: Node?, flags: Word) returns (result: Word)
    modifies Target(ef)`eventFlags
    ensures !Accepts(ef, flags) ==> result == OS_ERROR_PARAMETER && unchanged(Target(ef))
    ensures Accepts(ef, flags) ==> result == old(ef.eventFlags) && ef.eventFlags == old(ef.eventFlags) - flags
  {
    if ef == null || ef.id != ID_EVENT_FLAGS || ERROR in flags {
      return OS_ERROR_PARAMETER;
    }
    result := EventFlagsClear(ef, flags);
  }

  /** osRtxThreadWaitEnter: fails unless the kernel runs and another thread is ready to take over. */
  method WaitEnter(ready: Node, kernelRunning: bool) returns (ok: bool, next: Node?)
    requires ready.Linked() && Sorted(ready.threads)
    modifies ready`threadNext, ready`threads, Elements(ready.threads)`threadPrev
    ensures ok == (kernelRunning && old(ready.threads) != []) && ready.Linked() && Sorted(ready.threads)
    ensures ready.threads == if ok then old(ready.threads)[1..] else old(ready.threads)
    ensures next == if ok then old(ready.threads)[0] else null
  {
    if !kernelRunning {
      return false, null;
    }
    if ready.threadNext == null {
      return false, null;
    }
    WithoutSorted(ready.threads, 0);
    assert Without(ready.threads, 0) == ready.threads[1..];
    next := ListGet(ready);
    ok := true;
  }

  /** The cast to uint8_t when the options are stored in the thread. */
  function LowByte(options: Word): Word {
    set b | b in options && b < 8
  }

  lemma LowByteKeepsChecks(word: Word, flags: Word, options: Word)
    ensures Check(word, flags, LowByte(options)) == Check(word, flags, options)
    ensures Checked(word, flags, LowByte(options)) == Checked(word, flags, options)
    ensures forall b :: b in options ==> (b in LowByte(options) <==> b < 8)
    ensures LowByte(options) <= options
  {
  }

  ghost predicate CanBlock(rq: seq<Node>, kernelRunning: bool) {
    kernelRunning && rq != []
  }

  /** Suspend the running thread, if the scheduler lets it, and put it on the object's list. */
  method Suspend(ef: Node, flags: Word, options: Word, running: Node, ready: Node, kernelRunning: bool)
    returns (next: Node)
    requires Lists(ef, ready) && Apart(running, ef, ready)
    modifies ef`threadNext, ef`threads, ready`threadNext, ready`threads
    modifies Elements(ef.threads)`threadNext, Elements(ef.threads)`threadPrev, Elements(ready.threads)`threadPrev
    modifies running`threadNext, running`threadPrev, running`waitFlags, running`flagsOptions
    ensures Lists(ef, ready)
    ensures CanBlock(old(ready.threads), kernelRunning) ==>
              && ef.threads == Put(old(ef.threads), running)
              && WaiterOf(running) == Waiter(running, flags, LowByte(options))
              && ready.threads == old(ready.threads)[1..] && next == old(ready.threads)[0]
    ensures !CanBlock(old(ready.threads), kernelRunning) ==>
              ef.threads == old(ef.threads) && ready.threads == old(ready.threads) && next == running
  {
    PutSorted(ef.threads, running);
    PutAdds(ef.threads, running);
    ghost var rs := ready.threads;
    next := running;
    var ok, thread := WaitEnter(ready, kernelRunning);
    assert ef.Linked() && (ok ==> Elements(rs[1..]) <= Elements(rs));
    if ok {
      next := thread;
      ListPut(ef, running);
      running.waitFlags := flags;
      running.flagsOptions := LowByte(options);
      assert ready.Linked() && ef.Linked();
    }
  }

  /** svcRtxEventFlagsWait, called by the running thread. */
  method SvcWait(ef: Node?, flags: Word, options: Word, timeout: nat, running: Node, ready: Node, kernelRunning: bool)
    returns (result: Word, next: Node)
    requires Accepts(ef, flags) ==> Lists(ef, ready) && Apart(running, ef, ready)
    modifies Objects(ef, ready)`eventFlags, Objects(ef, ready)`threadNext, Objects(ef, ready)`threads
    modifies Threads(ef, ready)`threadNext, Threads(ef, ready)`threadPrev
    modifies running`threadNext, running`threadPrev, running`waitFlags, running`flagsOptions
    ensures !old(Accepts(ef, flags)) ==>
              && result == OS_ERROR_PARAMETER && next == running && unchanged(running)
              && unchanged(Objects(ef, ready)) && unchanged(Threads(ef, ready))
    ensures Accepts(ef, flags) ==>
              && Lists(ef, ready)
              && ef.eventFlags == Checked(old(ef.eventFlags), flags, options)
              && var value := Check(old(ef.eventFlags), flags, options);
                 if value == {} && timeout != 0 && CanBlock(old(ready.threads), kernelRunning) then
                   // the thread blocks, and will find osErrorTimeout in R0 unless a wake-up overwrites it
                   && result == OS_ERROR_TIMEOUT
                   && ef.threads == Put(old(ef.threads), running)
                   && WaiterOf(running) == Waiter(running, flags, LowByte(options))
                   && ready.threads == old(ready.threads)[1..] && next == old(ready.threads)[0]
                 else
                   && result == (if value != {} then value
                                 else if timeout != 0 then OS_ERROR_TIMEOUT else OS_ERROR_RESOURCE)
                   && ef.threads == old(ef.threads) && ready.threads == old(ready.threads) && next == running
    ensures Accepts(ef, flags) ==> forall t :: t in old(ef.threads) ==> WaiterOf(t) == old(WaiterOf(t))
  {
    next := running;
    if ef == null || ef.id != ID_EVENT_FLAGS || ERROR in flags {
      return OS_ERROR_PARAMETER, running;
    }
    FailedCheckKeeps(ef.eventFlags, flags, options);
    result := EventFlagsCheck(ef, flags, options);
    if result == {} {
      if timeout != 0 {
        next := Suspend(ef, flags, options, running, ready, kernelRunning);
        result := OS_ERROR_TIMEOUT;
      } else {
        result := OS_ERROR_RESOURCE;
      }
    }
  }

  /** Every waiter, in list order, released with osErrorResource. */
  ghost function Released(ws: seq<Waiter<Node>>): seq<Wake<Node>> {
    seq(|ws|, i requires 0 <= i < |ws| => Wake(ws[i], OS_ERROR_RESOURCE))
  }

  lemma NoneWaiting(ef: Node, ready: Node)
    requires Lists(ef, ready)
    ensures ef.threadNext == null <==> ef.threads == []
  {
  }

  lemma NothingReleased(ef: Node, ready: Node, running: Node)
    requires ef.threads == []
    ensures Settles(ef, ready, [], ready.threads, Swept(ef.eventFlags, [], Released(WaitersOf(ef.threads))),
                    running, false, running)
  {
  }

  /** svcRtxEventFlagsDelete, for an object in memory supplied by the caller. */
  method SvcDelete(ef: Node?, running: Node, ready: Node, kernelRunning: bool) returns (result: Word, next: Node)
    requires Accepts(ef, {}) ==> Lists(ef, ready) && Apart(running, ef, ready)
    modifies Target(ef)`id, Objects(ef, ready)`threadNext, Objects(ef, ready)`threads
    modifies Threads(ef, ready)`threadNext, Threads(ef, ready)`threadPrev, Waiting(ef)`r0
    modifies running`threadNext, running`threadPrev
    ensures !old(Accepts(ef, {})) ==>
              && result == OS_ERROR_PARAMETER && next == running && unchanged(running)
              && unchanged(Objects(ef, ready)) && unchanged(Threads(ef, ready))
    ensures old(Accepts(ef, {})) ==>
              && result == {} && ef.id == ID_INVALID
              && Lists(ef, ready) && ef.threads == []
              && Settles(ef, ready, old(ef.threads), old(ready.threads),
                         Swept(old(ef.eventFlags), [], Released(old(WaitersOf(ef.threads)))),
                         running, kernelRunning && old(ef.threads) != [], next)
              && Elements(ready.threads) + {next} == old(Elements(ef.threads) + Elements(ready.threads)) + {running}
  {
    hide Outcome, PutAll, Put, Describes, Released, Reordered, Chosen, Lists, WaitersOf;
    next := running;
    if ef == null || ef.id != ID_EVENT_FLAGS {
      return OS_ERROR_PARAMETER, running;
    }
    NoneWaiting(ef, ready);
    if ef.threadNext != null {
      Drain(ef, ready);
      StillApart(running, ef, ready, old(ef.threads), old(ready.threads));
      next := DispatchApart(ef, ready, running, kernelRunning);
    } else {
      NothingReleased(ef, ready, running);
    }
    ef.id := ID_INVALID;
    result := {};
  }

  /** The loop of svcRtxEventFlagsDelete. */
  method Drain(ef: Node, ready: Node)
    requires Lists(ef, ready) && ef.threads != []
    modifies ef`threadNext, ef`threads, ready`threadNext, ready`threads
    modifies Elements(ef.threads)`threadNext, Elements(ef.threads)`threadPrev, Elements(ef.threads)`r0
    modifies Elements(ready.threads)`threadNext, Elements(ready.threads)`threadPrev
    ensures Lists(ef, ready) && ef.threads == []
    ensures Shows(ef, ready, old(ef.threads), old(ready.threads),
                  Swept(ef.eventFlags, [], Released(old(WaitersOf(ef.threads)))))
    ensures Elements(ef.threads) + Elements(ready.threads) == old(Elements(ef.threads) + Elements(ready.threads))
  {
    ghost var es, rs, ws := ef.threads, ready.threads, WaitersOf(ef.threads);
    ghost var all := Elements(ef.threads) + Elements(ready.threads);
    ghost var n, r := 0, Swept(ef.eventFlags, [], []);
    StartWalking(ef, ready);
    hide *; // the loop only passes facts on
    while ef.threadNext != null
      invariant Lists(ef, ready) && Elements(ef.threads) + Elements(ready.threads) == all
      invariant Walking(ef, ready, es, rs, n, [], r)
      invariant r == Swept(ef.eventFlags, [], Released(ws[..n]))
      decreases |es| - n
    {
      r := ReleaseNext(ef, ready, ws, es, rs, n, r, all);
      n := n + 1;
    }
    WalkDone(ef, ready, es, rs, n, [], r);
    assert ws[..n] == ws;
  }

  /** The n-th round of the drain, and what it adds to the outcome so far. */
  method ReleaseNext(ef: Node, ready: Node, ghost ws: seq<Waiter<Node>>, ghost es: seq<Node>, ghost rs: seq<Node>,
                     ghost n: nat, ghost r: Swept<Node>, ghost all: set<Node>)
    returns (ghost r': Swept<Node>)
    requires Lists(ef, ready) && n < |es| == |ws| && ws[n].who == es[n]
    requires Elements(ef.threads) + Elements(ready.threads) == all
    requires Walking(ef, ready, es, rs, n, [], r) && r == Swept(ef.eventFlags, [], Released(ws[..n]))
    modifies ef`threadNext, ef`threads, ready`threadNext, ready`threads, Elements(es)`r0
    modifies all`threadNext, all`threadPrev
    ensures Lists(ef, ready) && Elements(ef.threads) + Elements(ready.threads) == all
    ensures Walking(ef, ready, es, rs, n + 1, [], r') && r' == Swept(ef.eventFlags, [], Released(ws[..n+1]))
  {
    FollowsIs(ef.threads, [], es, n);
    Positions(es, [], n);
    assert ef.threads == es[n..] && es[n..][1..] == es[n+1..];
    ReleaseFirst(ef, ready);
    ReleasedOne(ws, n);
    WokeOne(ef, ready, es, rs, n, [], r, Wake(ws[n], OS_ERROR_RESOURCE));
    r' := Swept(ef.eventFlags, [], Released(ws[..n+1]));
  }

  lemma ReleasedOne(ws: seq<Waiter<Node>>, n: nat)
    requires n < |ws|
    ensures Released(ws[..n+1]) == Released(ws[..n]) + [Wake(ws[n], OS_ERROR_RESOURCE)]
  {
    assert ws[..n+1][..n] == ws[..n];
  }

  /** One round of the drain: the first waiter is released with osErrorResource. */
  method ReleaseFirst(ef: Node, ready: Node)
    requires Lists(ef, ready) && ef.threads != []
    modifies ef`threadNext, ef`threads, ready`threadNext, ready`threads
    modifies Elements(ef.threads)`threadNext, Elements(ef.threads)`threadPrev, {ef.threads[0]}`r0
    modifies Elements(ready.threads)`threadNext, Elements(ready.threads)`threadPrev
    ensures Lists(ef, ready)
    ensures ef.threads == old(ef.threads)[1..] && ready.threads == Put(old(ready.threads), old(ef.threads)[0])
    ensures old(ef.threads)[0] !in ef.threads && forall t :: t in ef.threads ==> t in old(ef.threads)
    ensures old(ef.threads)[0].r0 == OS_ERROR_RESOURCE
    ensures Elements(ef.threads) + Elements(ready.threads) == old(Elements(ef.threads) + Elements(ready.threads))
  {
    ghost var es, rs := ef.threads, ready.threads;
    assert Without(es, 0) == es[1..];
    WithoutElements(es, 0);
    WithoutSorted(es, 0);
    PutAdds(rs, es[0]);
    var thread := ListGet(ef);
    assert ready.Linked();
    WaitExit(thread, OS_ERROR_RESOURCE, ready);
    assert ef.Linked();
  }

  // ---- Calls from interrupt handlers ----

  /** isrRtxEventFlagsSet; osRtxPostProcess queues the object. */
  method IsrSet(ef: Node?, flags: Word) returns (result: Word)
    modifies Target(ef)`eventFlags, Target(ef)`registered
    ensures !Accepts(ef, flags) ==> result == OS_ERROR_PARAMETER && unchanged(Target(ef))
    ensures Accepts(ef, flags) ==>
              && result == ef.eventFlags == old(ef.eventFlags) + flags && ef.registered == old(ef.registered) + 1
  {
    if ef == null || ef.id != ID_EVENT_FLAGS || ERROR in flags {
      return OS_ERROR_PARAMETER;
    }
    result := EventFlagsSet(ef, flags);
    ef.registered := ef.registered + 1;
  }

  /** isrRtxEventFlagsWait: an interrupt handler can only poll. */
  method IsrWait(ef: Node?, flags: Word, options: Word, timeout: nat) returns (result: Word)
    modifies Target(ef)`eventFlags
    ensures !Accepts(ef, flags) || timeout != 0 ==> result == OS_ERROR_PARAMETER && unchanged(Target(ef))
    ensures Accepts(ef, flags) && timeout == 0 ==>
              && ef.eventFlags == Checked(old(ef.eventFlags), flags, options)
              && var value := Check(old(ef.eventFlags), flags, options);
                 result == if value != {} then value else OS_ERROR_RESOURCE
  {
    if ef == null || ef.id != ID_EVENT_FLAGS || timeout != 0 || ERROR in flags {
      return OS_ERROR_PARAMETER;
    }
    result := EventFlagsCheck(ef, flags, options);
    if result == {} {
      result := OS_ERROR_RESOURCE;
    }
  }

  lemma SameDescription(ws: seq<Waiter<Node>>, vs: seq<Waiter<Node>>, s: seq<Node>)
    requires Describes(ws, s) && Describes(vs, s)
    ensures ws == vs
  {
    forall i | 0 <= i < |s| ensures ws[i] == vs[i] {
      assert DescribesAt(ws, s, i) && DescribesAt(vs, s, i);
    }
  }

  /** Whether the waiters `ws` were swept before or not: after this sweep they are, once. */
  ghost predicate Due(ef: Node, ready: Node, es: seq<Node>, rs: seq<Node>, word: Word, ws: seq<Waiter<Node>>,
                      swept: bool)
    reads ef, ready, es, ef.threads
  {
    if swept then Shows(ef, ready, es, rs, Run(word, ws))
    else ef.threads == es && ready.threads == rs && ef.eventFlags == word && Describes(ws, es)
  }

  /** One entry of the ISR queue.  Post-processing that ran already leaves everything as it is. */
  method ProcessEntry(ef: Node, ready: Node, ghost es: seq<Node>, ghost rs: seq<Node>, ghost word: Word,
                      ghost ws: seq<Waiter<Node>>, ghost swept: bool, ghost r0s: map<Node, Word>)
    requires Lists(ef, ready) && Due(ef, ready, es, rs, word, ws, swept) && Untouched(ef, r0s)
    modifies ef`eventFlags, ef`threadNext, ef`threads, ready`threadNext, ready`threads
    modifies Elements(ef.threads)`threadNext, Elements(ef.threads)`threadPrev, Elements(ef.threads)`r0
    modifies Elements(ready.threads)`threadNext, Elements(ready.threads)`threadPrev
    ensures Lists(ef, ready) && Due(ef, ready, es, rs, word, ws, true) && Untouched(ef, r0s)
    ensures Elements(ef.threads) + Elements(ready.threads) == old(Elements(ef.threads) + Elements(ready.threads))
  {
    ghost var before, now := ef.threads, WaitersOf(ef.threads);
    ghost var r := Run(word, ws);
    if swept {
      SameDescription(now, r.kept, before);
      SweepIdempotent(word, ws);
    } else {
      SameDescription(now, ws, before);
    }
    PostProcess(ef, ready);
    assert forall t :: t in ef.threads ==> t in Elements(before);
  }

  /** osRtxPendSV_Handler: while the ISR queue holds entries, take one and sweep its object if it still
      exists; then dispatch.  However often the object was registered, the outcome is that of one sweep. */
  method PendSV(ef: Node, running: Node, ready: Node, kernelRunning: bool) returns (next: Node)
    requires Lists(ef, ready) && Apart(running, ef, ready)
    modifies ef`registered, ef`eventFlags, ef`threadNext, ef`threads, ready`threadNext, ready`threads
    modifies Elements(ef.threads)`threadNext, Elements(ef.threads)`threadPrev, Elements(ef.threads)`r0
    modifies Elements(ready.threads)`threadNext, Elements(ready.threads)`threadPrev
    modifies running`threadNext, running`threadPrev
    ensures ef.registered == 0 && Lists(ef, ready)
    ensures Settles(ef, ready, old(ef.threads), old(ready.threads),
                    if ef.id == ID_EVENT_FLAGS && old(ef.registered) > 0
                    then Run(old(ef.eventFlags), old(WaitersOf(ef.threads)))
                    else Swept(old(ef.eventFlags), old(WaitersOf(ef.threads)), []),
                    running, kernelRunning, next)
    ensures Untouched(ef, old(R0s(ef.threads)))
  {
    hide Outcome, PutAll, Describes, Reordered, Chosen, Lists;
    SweepAll(ef, ready);
    StillApart(running, ef, ready, old(ef.threads), old(ready.threads));
    next := DispatchApart(ef, ready, running, kernelRunning);
  }

  /** The loop of osRtxPendSV_Handler. */
  method SweepAll(ef: Node, ready: Node)
    requires Lists(ef, ready)
    modifies ef`registered, ef`eventFlags, ef`threadNext, ef`threads, ready`threadNext, ready`threads
    modifies Elements(ef.threads)`threadNext, Elements(ef.threads)`threadPrev, Elements(ef.threads)`r0
    modifies Elements(ready.threads)`threadNext, Elements(ready.threads)`threadPrev
    ensures ef.registered == 0 && Lists(ef, ready)
    ensures Shows(ef, ready, old(ef.threads), old(ready.threads),
                  if ef.id == ID_EVENT_FLAGS && old(ef.registered) > 0
                  then Run(old(ef.eventFlags), old(WaitersOf(ef.threads)))
                  else Swept(old(ef.eventFlags), old(WaitersOf(ef.threads)), []))
    ensures Untouched(ef, old(R0s(ef.threads)))
    ensures Elements(ef.threads) + Elements(ready.threads) == old(Elements(ef.threads) + Elements(ready.threads))
  {
    ghost var word, es, rs, ws := ef.eventFlags, ef.threads, ready.threads, WaitersOf(ef.threads);
    ghost var all, swept, r0s := Elements(ef.threads) + Elements(ready.threads), false, R0s(ef.threads);
    assert Untouched(ef, r0s);
    hide *; // the loop only passes facts on
    while ef.registered > 0
      invariant Lists(ef, ready) && Elements(ef.threads) + Elements(ready.threads) == all
      invariant Due(ef, ready, es, rs, word, ws, swept)
      invariant swept <==> ef.id == ID_EVENT_FLAGS && ef.registered < old(ef.registered)
      invariant Untouched(ef, r0s)
      decreases ef.registered
    {
      ef.registered := ef.registered - 1;
      if ef.id == ID_EVENT_FLAGS {
        ProcessEntry(ef, ready, es, rs, word, ws, swept, r0s);
        swept := true;
      }
    }
    if !swept {
      NothingSwept(ef, ready, ws);
    }
  }

  lemma NothingSwept(ef: Node, ready: Node, ws: seq<Waiter<Node>>)
    requires Describes(ws, ef.threads)
    ensures Shows(ef, ready, ef.threads, ready.threads, Swept(ef.eventFlags, ws, []))
  {
  }

  // ---- What callers can tell ----

  ghost function Who(ws: seq<Waiter<Node>>): seq<Node> {
    seq(|ws|, i requires 0 <= i < |ws| => ws[i].who)
  }

  /** An outcome fixes everything it speaks of: the flag word, both lists in order, who runs next, and the
      R0 of every woken thread. */
  lemma SettlesFixes(ef: Node, ready: Node, es: seq<Node>, rs: seq<Node>, r: Swept<Node>,
                     running: Node, kernelRunning: bool, next: Node)
    requires Settles(ef, ready, es, rs, r, running, kernelRunning, next)
    ensures ef.eventFlags == r.word && ef.threads == Who(r.kept)
    ensures ready.threads == Reordered(PutAll(rs, r.woken), running, kernelRunning)
    ensures next == Chosen(PutAll(rs, r.woken), running, kernelRunning)
    ensures forall d :: d in r.woken ==> d.waiter.who.r0 == d.value
  {
    forall i | 0 <= i < |ef.threads| ensures ef.threads[i] == Who(r.kept)[i] {
      assert DescribesAt(r.kept, ef.threads, i);
    }
  }

  /** What a delete releases, it releases with osErrorResource. */
  lemma ReleasedWithError(ef: Node, ready: Node, es: seq<Node>, rs: seq<Node>, word: Word, ws: seq<Waiter<Node>>,
                          running: Node, kernelRunning: bool, next: Node)
    requires Settles(ef, ready, es, rs, Swept(word, [], Released(ws)), running, kernelRunning, next)
    requires es == Who(ws)
    ensures forall t :: t in es ==> t.r0 == OS_ERROR_RESOURCE
    ensures ef.eventFlags == word
  {
    forall t | t in es ensures t.r0 == OS_ERROR_RESOURCE {
      var i :| 0 <= i < |es| && es[i] == t;
      assert Released(ws)[i] in Released(ws);
    }
  }

  /** Deferred equals direct: an interrupt's set followed by post-processing satisfies the very contract of SvcSet.
      By SettlesFixes the contract fixes the flag word, both lists in order, the R0 of every woken thread and
      who runs next; by Untouched, the R0 of every thread that keeps waiting. */
  method SetDeferred(ef: Node, flags: Word, running: Node, ready: Node, kernelRunning: bool) returns (next: Node)
    requires Accepts(ef, flags) && Lists(ef, ready) && Apart(running, ef, ready)
    modifies ef`eventFlags, ef`registered, ef`threadNext, ef`threads, ready`threadNext, ready`threads
    modifies Elements(ef.threads)`threadNext, Elements(ef.threads)`threadPrev, Elements(ef.threads)`r0
    modifies Elements(ready.threads)`threadNext, Elements(ready.threads)`threadPrev
    modifies running`threadNext, running`threadPrev
    ensures Lists(ef, ready) && ef.registered == 0
    ensures Settles(ef, ready, old(ef.threads), old(ready.threads),
                    Run(old(ef.eventFlags) + flags, old(WaitersOf(ef.threads))), running, kernelRunning, next)
    ensures Untouched(ef, old(R0s(ef.threads)))
  {
    ghost var ws := WaitersOf(ef.threads);
    var _ := IsrSet(ef, flags);
    forall i | 0 <= i < |ws| ensures DescribesAt(ws, ef.threads, i) {
      assert old(DescribesAt(ws, ef.threads, i));
    }
    SameDescription(ws, WaitersOf(ef.threads), ef.threads);
    next := PendSV(ef, running, ready, kernelRunning);
  }

  /** Every call on an invalid object is refused and changes nothing. */
  method UseAfterDelete(ef: Node, flags: Word, options: Word, timeout: nat, running: Node, ready: Node,
                        kernelRunning: bool)
    returns (results: seq<Word>)
    requires ef.id == ID_INVALID
    modifies ef, ready, running, ef.threads, ready.threads
    ensures results == seq(6, _ => OS_ERROR_PARAMETER)
    ensures unchanged(ef) && unchanged(ready) && unchanged(running)
    ensures unchanged(old(ef.threads)) && unchanged(old(ready.threads))
  {
    hide Lists, Settles, Outcome, Untouched, Run, WaitersOf, R0s;
    var s, _ := SvcSet(ef, flags, running, ready, kernelRunning);
    var c := SvcClear(ef, flags);
    var w, _ := SvcWait(ef, flags, options, timeout, running, ready, kernelRunning);
    var d, _ := SvcDelete(ef, running, ready, kernelRunning);
    var i := IsrSet(ef, flags);
    var p := IsrWait(ef, flags, options, timeout);
    results := [s, c, w, d, i, p];
  }

  lemma WhoIsWhere(s: seq<Node>, next: Node, es: seq<Node>, rs: seq<Node>, running: Node)
    requires Elements(s) + {next} == Elements(es) + Elements(rs) + {running}
    ensures next in es || next in rs || next == running
    ensures forall t :: t in s ==> t in es || t in rs || t == running
    ensures forall t :: t in es ==> t in s || t == next
  {
    assert forall t :: t in es ==> t in Elements(s) + {next};
    assert next in Elements(es) + Elements(rs) + {running};
    assert forall t :: t in s ==> t in Elements(es) + Elements(rs) + {running};
  }

  /** A delete, and whatever calls come after it, by whoever runs then: they are all refused, and memory
      stays as the delete left it. */
  method DeleteThenUse(ef: Node, flags: Word, options: Word, timeout: nat, running: Node, ready: Node,
                       kernelRunning: bool)
    returns (results: seq<Word>, next: Node)
    requires ef.id == ID_EVENT_FLAGS && Lists(ef, ready) && Apart(running, ef, ready)
    modifies ef, ready, running, ef.threads, ready.threads
    ensures results == seq(6, _ => OS_ERROR_PARAMETER)
    ensures ef.id == ID_INVALID && Lists(ef, ready) && ef.threads == []
    ensures Settles(ef, ready, old(ef.threads), old(ready.threads),
                    Swept(old(ef.eventFlags), [], Released(old(WaitersOf(ef.threads)))),
                    running, kernelRunning && old(ef.threads) != [], next)
  {
    hide Outcome, PutAll, Put, Describes, Reordered, Chosen, Released, WaitersOf;
    var _, thread := SvcDelete(ef, running, ready, kernelRunning);
    next := thread;
    WhoIsWhere(ready.threads, next, old(ef.threads), old(ready.threads), running);
    assert next in old(ef.threads) || next in old(ready.threads) || next == running;
    assert ef.threads == [];
    assert forall t :: t in ready.threads ==> t in old(ef.threads) || t in old(ready.threads) || t == running;
    results := UseAfterDelete(ef, flags, options, timeout, next, ready, kernelRunning);
  }
}
