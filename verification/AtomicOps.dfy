/** The LDREX/STREX loops of rtx_core_cm.h, each as the read-modify-write it performs. */
module AtomicOps {
  import opened History
  import opened RetryLoops
  import opened Arith
  import opened Bits

  // ---- Flag words ----

  ghost function SetBits(bits: Word): Rmw<Word> {
    Rmw(Set32, (v: Word) => false, (v: Word) => v + bits, (v: Word) => v + bits, (v: Word) => v)
  }

  ghost function ClearBits(bits: Word): Rmw<Word> {
    Rmw(Clr32, (v: Word) => false, (v: Word) => v - bits, (v: Word) => v, (v: Word) => v)
  }

  ghost function CheckAll(bits: Word): Rmw<Word> {
    Rmw(Chk32All, (v: Word) => v * bits != bits, (v: Word) => v - bits, (v: Word) => v, (v: Word) => {})
  }

  ghost function CheckAny(bits: Word): Rmw<Word> {
    Rmw(Chk32Any, (v: Word) => v * bits == {}, (v: Word) => v - bits, (v: Word) => v, (v: Word) => {})
  }

  // ---- Counters: integers that wrap at the width of the memory cell ----

  const HALF := 0x1_0000

  ghost function IncLt(max: nat): Rmw<int> {
    Rmw(Inc16Lt, (v: int) => max <= v, (v: int) => (v + 1) % HALF, (v: int) => v, (v: int) => v)
  }

  ghost function IncLim(lim: nat): Rmw<int> {
    Rmw(Inc16Lim, (v: int) => false, (v: int) => if lim > v + 1 then (v + 1) % HALF else 0,
        (v: int) => v, (v: int) => v)
  }

  ghost function DecNz(): Rmw<int> {
    Rmw(Dec16Nz, (v: int) => v == 0, (v: int) => (v - 1) % HALF, (v: int) => v, (v: int) => v)
  }

  // ---- A run only ever performs operations that somebody invoked ----

  ghost predicate Invokes<V>(run: seq<Label<V>>, allowed: Rmw<V> -> bool) {
    forall i :: 0 <= i < |run| && run[i].Begin? ==> allowed(run[i].op)
  }

  ghost predicate Performs<V>(h: seq<Event<Rmw<V>, V>>, allowed: Rmw<V> -> bool) {
    forall i :: 0 <= i < |h| && h[i].TakeEffect? ==> allowed(h[i].op)
  }

  lemma {:induction false} OnlyInvokedOps<V>(v: V, run: seq<Label<V>>, allowed: Rmw<V> -> bool)
    requires Feasible(v, run) && Invokes(run, allowed)
    ensures Performs(Execute(v, run).events, allowed)
    ensures forall a :: !Execute(v, run).At(a).Idle? ==> allowed(Execute(v, run).At(a).op)
  {
    if run != [] {
      OnlyInvokedOps(v, run[..|run|-1], allowed);
      var s, l := Execute(v, run[..|run|-1]), run[|run|-1];
      assert l.Begin? ==> allowed(l.op);
      forall a | !Step(s, l).At(a).Idle? ensures allowed(Step(s, l).At(a).op) {
        assert a != l.agent ==> Step(s, l).At(a) == s.At(a);
      }
    }
  }

  // ---- Bounded counters ----

  /** Increments that succeeded, as the callers read it off the returned value: below the maximum. */
  ghost function Incremented(h: seq<Event<Rmw<int>, int>>, max: nat): nat {
    if h == [] then 0 else
      var e := h[|h|-1];
      Incremented(h[..|h|-1], max) + if e.TakeEffect? && e.op.name == Inc16Lt && e.ret < max then 1 else 0
  }

  /** Decrements that succeeded, as the callers read it off the returned value: not zero. */
  ghost function Decremented(h: seq<Event<Rmw<int>, int>>): nat {
    if h == [] then 0 else
      var e := h[|h|-1];
      Decremented(h[..|h|-1]) + if e.TakeEffect? && e.op.name == Dec16Nz && e.ret != 0 then 1 else 0
  }

  ghost function CounterOps(max: nat): Rmw<int> -> bool {
    (op: Rmw<int>) => op == IncLt(max) || op == DecNz()
  }

  lemma {:induction false} CounterHistory(start: int, max: nat, h: seq<Event<Rmw<int>, int>>)
    requires 0 <= start <= max < HALF
    requires Legal(AtomicWord(), start, h) && Performs(h, CounterOps(max))
    ensures 0 <= Replay(AtomicWord(), start, h) <= max
    ensures Replay(AtomicWord(), start, h) == start + Incremented(h, max) - Decremented(h)
  {
    if h != [] {
      var h0 := h[..|h|-1];
      assert Performs(h0, CounterOps(max));
      CounterHistory(start, max, h0);
    }
  }

  /** Any mix of atomic_inc16_lt(max) and atomic_dec16_nz, by any agents, interleaved in any way:
      the counter stays within 0..max and accounts for exactly the successes that were reported. */
  lemma BoundedCounter(start: int, max: nat, run: seq<Label<int>>)
    requires 0 <= start <= max < HALF
    requires Feasible(start, run) && Invokes(run, CounterOps(max))
    ensures 0 <= Execute(start, run).cell.word <= max
    ensures Execute(start, run).cell.word ==
            start + Incremented(Execute(start, run).events, max) - Decremented(Execute(start, run).events)
  {
    Linearizability(start, run);
    OnlyInvokedOps(start, run, CounterOps(max));
    CounterHistory(start, max, Execute(start, run).events);
  }

  /** The counter after the calls of h, from what their callers were told. */
  ghost function CounterAfter(start: int, max: nat, h: seq<Event<Rmw<int>, int>>): int {
    start + Incremented(h, max) - Decremented(h)
  }

  /** Every call returns the counter as it is when the call takes effect.  An increment that finds it below
      max raises it by one, a decrement that finds it above zero lowers it by one, the others leave it. */
  lemma CounterReturns(start: int, max: nat, run: seq<Label<int>>, i: nat)
    requires 0 <= start <= max < HALF
    requires Feasible(start, run) && Invokes(run, CounterOps(max))
    requires i < |Execute(start, run).events| && Execute(start, run).events[i].TakeEffect?
    ensures var h := Execute(start, run).events;
            var v := CounterAfter(start, max, h[..i]);
            && h[i].ret == v && h[i].op.name in {Inc16Lt, Dec16Nz}
            && CounterAfter(start, max, h[..i+1]) ==
               if h[i].op.name == Inc16Lt && v < max then v + 1
               else if h[i].op.name == Dec16Nz && v > 0 then v - 1
               else v
  {
    var h := Execute(start, run).events;
    Linearizability(start, run);
    OnlyInvokedOps(start, run, CounterOps(max));
    PrefixLegal(AtomicWord(), start, h, i + 1);
    assert h[..i+1][..i] == h[..i];
    CounterHistory(start, max, h[..i]);
  }

  // ---- Ring indices ----

  ghost function Effects<V>(h: seq<Event<Rmw<V>, V>>): seq<V> {
    if h == [] then [] else
      var e := h[|h|-1];
      Effects(h[..|h|-1]) + if e.TakeEffect? then [e.ret] else []
  }

  ghost function RingOps(lim: nat): Rmw<int> -> bool {
    (op: Rmw<int>) => op == IncLim(lim)
  }

  /** The k-th slot after `start` in a ring of `lim` slots. */
  ghost function Slot(start: int, k: nat, lim: nat): int
    requires 0 < lim
  {
    (start + k) % lim
  }

  lemma FirstSlot(start: int, lim: nat)
    requires 0 <= start < lim
    ensures Slot(start, 0, lim) == start
  {
    DivModUnique(start, 0, start, lim);
  }

  lemma NextSlot(start: int, k: nat, lim: nat)
    requires 0 <= start && 0 < lim
    ensures 0 <= Slot(start, k, lim) < lim
    ensures Slot(start, k + 1, lim) == if Slot(start, k, lim) + 1 < lim then Slot(start, k, lim) + 1 else 0
  {
    NextIndex(start + k, lim);
    assert (start + k) + 1 == start + (k + 1);
  }

  lemma SlotsDiffer(start: int, j: nat, k: nat, lim: nat)
    requires 0 <= start && j < k && k - j < lim
    ensures Slot(start, j, lim) != Slot(start, k, lim)
  {
    DistinctMod(start + j, start + k, lim);
  }

  lemma IncLimSteps(v: int, lim: nat)
    requires 0 <= v < lim < HALF
    ensures IncLim(lim).next(v) == if v + 1 < lim then v + 1 else 0
  {
    if v + 1 < lim {
      DivModUnique(v + 1, 0, v + 1, HALF);
    }
  }

  lemma {:induction false} RingHistory(start: int, lim: nat, h: seq<Event<Rmw<int>, int>>)
    requires 0 <= start < lim < HALF
    requires Legal(AtomicWord(), start, h) && Performs(h, RingOps(lim))
    ensures Replay(AtomicWord(), start, h) == Slot(start, |Effects(h)|, lim)
    ensures forall k :: 0 <= k < |Effects(h)| ==> Effects(h)[k] == Slot(start, k, lim)
  {
    FirstSlot(start, lim);
    if h != [] {
      var h0, e := h[..|h|-1], h[|h|-1];
      assert Performs(h0, RingOps(lim));
      RingHistory(start, lim, h0);
      NextSlot(start, |Effects(h0)|, lim);
      IncLimSteps(Slot(start, |Effects(h0)|, lim), lim);
      if e.TakeEffect? {
        assert e.op == IncLim(lim);
        assert e.ret == Replay(AtomicWord(), start, h0);
      }
    }
  }

  /** atomic_inc16_lim by any agents, interleaved in any way, hands out the ring's slots in order:
      the k-th call to take effect gets slot (start + k) mod lim, so no slot repeats within lim calls. */
  lemma RingSlots(start: int, lim: nat, run: seq<Label<int>>)
    requires 0 <= start < lim < HALF
    requires Feasible(start, run) && Invokes(run, RingOps(lim))
    ensures Execute(start, run).cell.word < lim
    ensures var slots := Effects(Execute(start, run).events);
            && (forall k :: 0 <= k < |slots| ==> slots[k] == Slot(start, k, lim))
            && (forall j, k :: 0 <= j < k < |slots| && k - j < lim ==> slots[j] != slots[k])
  {
    Linearizability(start, run);
    OnlyInvokedOps(start, run, RingOps(lim));
    var h := Execute(start, run).events;
    RingHistory(start, lim, h);
    NextSlot(start, |Effects(h)|, lim);
    var slots := Effects(h);
    forall j, k | 0 <= j < k < |slots| && k - j < lim ensures slots[j] != slots[k] {
      SlotsDiffer(start, j, k, lim);
    }
  }
}
