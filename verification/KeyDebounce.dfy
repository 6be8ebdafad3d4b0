/** The key debouncer of hal_key.c: a state machine run by a timer, feeding a 16-slot ring.

    The ring keeps no count and has no full test.  It is compared with an unbounded queue of the
    values that were emitted. */
module KeyDebounce {
  import opened Arith

  const FIFO_SIZE: nat := 16
  const LONGPRESS_TIME: nat := 500
  const WRAP: nat := 0x1_0000_0000 // width of the tick counter

  datatype Value = NONE | PRESS | RELEASE | LONG
  datatype Phase = Poll | Pressed | Held // KEY_SM_POLL, KEY_SM_PRESS, KEY_SM_RELEASE

  // ---- The state machine on values ----

  /** `longPress` is the compile-time switch KEY_LONGPRESS_ENABLE. */
  datatype Machine = Machine(longPress: bool, pressedValue: nat, phase: Phase, start: nat)

  ghost predicate Active(m: Machine, gpio: nat) {
    gpio == m.pressedValue
  }

  /** What one timer tick emits; NONE for nothing. */
  ghost function Emits(m: Machine, gpio: nat, tick: nat): Value {
    match m.phase
    case Poll => NONE
    case Pressed => if Active(m, gpio) then PRESS else NONE
    case Held =>
      if !Active(m, gpio) then RELEASE
      else if m.longPress && (m.start + LONGPRESS_TIME) % WRAP <= tick then LONG
      else NONE
  }

  /** The counter is read a second time, as `later`, when a long press restarts its interval. */
  ghost function Ticked(m: Machine, gpio: nat, tick: nat, later: nat): Machine {
    match m.phase
    case Poll => if Active(m, gpio) then m.(phase := Pressed, start := if m.longPress then tick else m.start) else m
    case Pressed => m.(phase := if Active(m, gpio) then Held else Poll)
    case Held =>
      if !Active(m, gpio) then m.(phase := Poll)
      else if Emits(m, gpio, tick) == LONG then m.(start := later)
      else m
  }

  // ---- The ring on values ----

  /** `emitted` is everything ever written, `taken` the number of values handed out. */
  datatype Queue = Queue(emitted: seq<Value>, taken: nat) {
    ghost predicate Valid() {
      taken <= |emitted| && NONE !in emitted
    }

    /** What an unbounded queue would still hold. */
    ghost function Unread(): seq<Value>
      requires Valid()
    {
      emitted[taken..]
    }

    /** The number of entries the two indices of the ring suggest. */
    ghost function Apparent(): (k: nat)
      requires Valid()
      ensures k < FIFO_SIZE && k <= |emitted| - taken
    {
      (|emitted| - taken) % FIFO_SIZE
    }

    /** What the ring can hand out: the newest `Apparent()` entries. */
    ghost function Readable(): seq<Value>
      requires Valid()
    {
      emitted[|emitted| - Apparent()..]
    }

    ghost function Written(v: Value): Queue {
      if v == NONE then this else Queue(emitted + [v], taken)
    }

    ghost function AfterRead(): Queue
      requires Valid()
    {
      if Apparent() == 0 then this else Queue(emitted, taken + 1)
    }

    ghost function ReadReturns(): Value
      requires Valid()
    {
      if Apparent() == 0 then NONE else Readable()[0]
    }
  }

  /** The ring is the queue exactly as long as no more than 15 values are waiting. */
  lemma RingIsQueue(q: Queue)
    requires q.Valid()
    ensures q.Readable() == q.Unread() <==> |q.Unread()| <= 15
    ensures |q.Readable()| == |q.Unread()| % FIFO_SIZE
  {
    var n := |q.emitted| - q.taken;
    if n <= 15 {
      DivModUnique(n, 0, n, FIFO_SIZE);
    } else {
      assert |q.Readable()| < FIFO_SIZE <= |q.Unread()|;
    }
  }

  /** What a caller notices otherwise: a read finds nothing although values are waiting exactly when a
      positive multiple of 16 of them is. */
  lemma LooksEmpty(q: Queue)
    requires q.Valid()
    ensures q.ReadReturns() == NONE && q.Unread() != [] <==> |q.Unread()| > 0 && |q.Unread()| % FIFO_SIZE == 0
  {
    if q.Apparent() > 0 {
      assert q.Readable()[0] in q.emitted;
    }
  }

  // ---- The code ----

  const GPIO_OFF: nat := 0
  const GPIO_ON: nat := 1

  datatype PinMode = UpIn | DownIn

  class Key {
    const longPress: bool
    var pinMode: PinMode
    var pressedValue: nat
    var phase: Phase
    var longpressStart: nat
    const buffer: array<Value>
    var writePoint: nat
    var readPoint: nat
    ghost var queue: Queue

    constructor (longPress: bool, pressedValue: nat, pinMode: PinMode)
      ensures Valid() && fresh(buffer)
      ensures Model() == Machine(longPress, pressedValue, Poll, 0) && queue == Queue([], 0)
    {
      this.longPress, this.pressedValue, this.pinMode := longPress, pressedValue, pinMode;
      phase, longpressStart := Poll, 0;
      buffer := new Value[FIFO_SIZE](_ => NONE);
      writePoint, readPoint, queue := 0, 0, Queue([], 0);
    }

    /** The indices follow the counts modulo 16, except that the write index is still 16 when its wrap is
        pending, and each of the last 15 values written is in its slot. */
    ghost predicate Holds(wrapPending: bool)
      reads this, buffer
    {
      && buffer.Length == FIFO_SIZE && queue.Valid()
      && (if wrapPending then writePoint == FIFO_SIZE && |queue.emitted| % FIFO_SIZE == 0
          else writePoint == |queue.emitted| % FIFO_SIZE)
      && readPoint == queue.taken % FIFO_SIZE
      && forall i :: 0 <= i < |queue.emitted| && |queue.emitted| - FIFO_SIZE < i ==>
           buffer[i % FIFO_SIZE] == queue.emitted[i]
    }

    ghost predicate Valid()
      reads this, buffer
    {
      Holds(false)
    }

    ghost function Model(): Machine
      reads this
    {
      Machine(longPress, pressedValue, phase, longpressStart)
    }

    /** The write to the ring that appears in every branch that emits, store by store.  First the value goes
        into its slot, where nobody looks yet. */
    method PutValue(v: Value)
      requires Valid()
      modifies buffer
      ensures Valid() && buffer[writePoint] == v
      ensures forall i :: 0 <= i < FIFO_SIZE && i != writePoint ==> buffer[i] == old(buffer[i])
    {
      ghost var n := |queue.emitted|;
      forall i | 0 <= i < n && n - FIFO_SIZE < i ensures i % FIFO_SIZE != n % FIFO_SIZE {
        DistinctMod(i, n, FIFO_SIZE);
      }
      buffer[writePoint] := v;
    }

    /** Then the write index moves past it, which publishes it. */
    method Advance(ghost v: Value)
      requires Valid() && v != NONE && buffer[writePoint] == v
      modifies this`writePoint, this`queue
      ensures Holds(writePoint == FIFO_SIZE) && queue == old(queue).Written(v)
      ensures writePoint == old(writePoint) + 1
    {
      NextIndex(|queue.emitted|, FIFO_SIZE);
      writePoint := writePoint + 1;
      queue := queue.Written(v);
    }

    /** Then it wraps. */
    method Wrap()
      requires Holds(writePoint == FIFO_SIZE)
      modifies this`writePoint
      ensures Valid()
    {
      if writePoint == FIFO_SIZE {
        writePoint := 0;
      }
    }

    /** key_handle_timer; `gpio` is the sampled pin, `now` and `later` the tick counter when it is read. */
    method HandleTimer(gpio: nat, now: nat, later: nat)
      requires Valid()
      modifies this`phase, this`longpressStart, this`writePoint, this`queue, buffer
      ensures Valid()
      ensures Model() == Ticked(old(Model()), gpio, now, later)
      ensures queue == old(queue).Written(Emits(old(Model()), gpio, now))
      ensures forall i :: 0 <= i < FIFO_SIZE && i != old(writePoint) ==> buffer[i] == old(buffer[i])
    {
      match phase {
        case Poll =>
          if gpio == pressedValue {
            phase := Pressed;
            if longPress {
              longpressStart := now;
            }
          }
        case Pressed =>
          if gpio == pressedValue {
            PutValue(PRESS);
            Advance(PRESS);
            phase := Held;
            Wrap();
          } else {
            phase := Poll;
          }
        case Held =>
          if gpio != pressedValue {
            PutValue(RELEASE);
            Advance(RELEASE);
            phase := Poll;
            Wrap();
          } else if longPress && (longpressStart + LONGPRESS_TIME) % WRAP <= now {
            PutValue(LONG);
            Advance(LONG);
            Wrap();
            longpressStart := later;
          }
      }
    }

    /** A read would go wrong: the wrap is pending, so the indices differ, but nothing is readable. */
    ghost predicate WouldMisread()
      requires queue.Valid()
      reads this
    {
      writePoint == FIFO_SIZE && queue.Apparent() == 0
    }

    /** key_read_value, also when it preempts the timer between any two of its stores.  It reads the queue
        exactly unless it would misread; then it returns what slot 0 held before, and the read index runs
        ahead of the write index. */
    method ReadValue() returns (v: Value)
      requires Holds(writePoint == FIFO_SIZE)
      modifies this`readPoint, this`queue
      ensures !old(WouldMisread()) ==>
                && Holds(writePoint == FIFO_SIZE)
                && v == old(queue).ReadReturns() && queue == old(queue).AfterRead()
      ensures old(WouldMisread()) ==>
                v == buffer[0] && old(readPoint) == 0 && readPoint == 1 && queue == old(queue)
    {
      SameIndexIffNothingApparent(queue);
      if writePoint == readPoint {
        v := NONE;
      } else {
        v := buffer[readPoint];
        ghost var misread := WouldMisread();
        if !misread {
          SlotOfNext(queue);
          NextIndex(queue.taken, FIFO_SIZE);
        }
        readPoint := readPoint + 1;
        if readPoint >= FIFO_SIZE {
          readPoint := 0;
        }
        if !misread {
          queue := queue.AfterRead();
        }
      }
    }

    /** The other way around, a tick that preempts a read between its comparison and its load never does harm:
        the outcome is that of the read followed by the tick. */
    method ReadAcrossTick(gpio: nat, now: nat, later: nat) returns (v: Value)
      requires Valid()
      modifies this`phase, this`longpressStart, this`writePoint, this`readPoint, this`queue, buffer
      ensures Valid() && Model() == Ticked(old(Model()), gpio, now, later)
      ensures v == old(queue).ReadReturns()
      ensures queue == old(queue).AfterRead().Written(Emits(old(Model()), gpio, now))
    {
      SameIndexIffNothingApparent(queue);
      var empty := writePoint == readPoint;
      if !empty {
        SlotOfNext(queue);
        NextIndex(queue.taken, FIFO_SIZE);
      }
      HandleTimer(gpio, now, later);
      if empty {
        v := NONE;
      } else {
        v := buffer[readPoint];
        readPoint := readPoint + 1;
        if readPoint >= FIFO_SIZE {
          readPoint := 0;
        }
        queue := Queue(queue.emitted, queue.taken + 1);
      }
    }

    /** key_change_mode.  A value that is neither level leaves the pin as it is. */
    method ChangeMode(value: nat)
      requires Valid()
      modifies this`pressedValue, this`pinMode
      ensures Valid() && Model() == old(Model()).(pressedValue := value)
      ensures pinMode == if value == GPIO_OFF then UpIn else if value == GPIO_ON then DownIn else old(pinMode)
    {
      if value == GPIO_OFF {
        pinMode := UpIn;
      } else if value == GPIO_ON {
        pinMode := DownIn;
      }
      pressedValue := value;
    }
  }

  lemma SameIndexIffNothingApparent(q: Queue)
    requires q.Valid()
    ensures |q.emitted| % FIFO_SIZE == q.taken % FIFO_SIZE <==> q.Apparent() == 0
  {
  }

  /** The slot under the read index holds the oldest entry the ring can hand out. */
  lemma SlotOfNext(q: Queue)
    requires q.Valid() && q.Apparent() > 0
    ensures (|q.emitted| - q.Apparent()) % FIFO_SIZE == q.taken % FIFO_SIZE
  {
  }

  // ---- Runs ----

  datatype Event = Tick(gpio: nat, now: nat, later: nat) | Read | Mode(value: nat)

  /** One timer tick as it happened: whether the pin was active, what the counter said, what was emitted. */
  datatype Sample = Sample(active: bool, now: nat, later: nat, value: Value)

  /** `returned` collects what reads returned. */
  datatype State = State(machine: Machine, queue: Queue, ticks: seq<Sample>, returned: seq<Value>)

  ghost function Initial(longPress: bool, pressedValue: nat): State {
    State(Machine(longPress, pressedValue, Poll, 0), Queue([], 0), [], [])
  }

  /** One event, as the contracts of the three methods prescribe. */
  ghost function Step(s: State, e: Event): State
    requires s.queue.Valid()
  {
    match e
    case Tick(gpio, now, later) =>
      State(Ticked(s.machine, gpio, now, later), s.queue.Written(Emits(s.machine, gpio, now)),
            s.ticks + [Sample(gpio == s.machine.pressedValue, now, later, Emits(s.machine, gpio, now))], s.returned)
    case Read => s.(queue := s.queue.AfterRead(), returned := s.returned + [s.queue.ReadReturns()])
    case Mode(v) => s.(machine := s.machine.(pressedValue := v))
  }

  ghost function Run(s0: State, es: seq<Event>): (s: State)
    requires s0.queue.Valid()
    ensures s.queue.Valid()
    decreases |es|
  {
    if es == [] then s0 else Step(Run(s0, es[..|es|-1]), es[|es|-1])
  }

  /** Whether the key is down after the values of `vs`; the stream must be a prefix of (PRESS LONG* RELEASE)*. */
  datatype Grammar = Up | Down | Wrong

  ghost function Scan(vs: seq<Value>): Grammar {
    if vs == [] then Up else
      match (Scan(vs[..|vs|-1]), vs[|vs|-1])
      case (Up, PRESS) => Down
      case (Down, LONG) => Down
      case (Down, RELEASE) => Up
      case _ => Wrong
  }

  /** The key counts as down from a PRESS to the next RELEASE. */
  ghost predicate IsDown(ts: seq<Sample>) {
    ts != [] &&
    match ts[|ts|-1].value
    case PRESS => true
    case RELEASE => false
    case _ => IsDown(ts[..|ts|-1])
  }

  /** The pin was active at the last tick. */
  ghost predicate WasActive(ts: seq<Sample>) {
    ts != [] && ts[|ts|-1].active
  }

  /** Where the long-press interval starts: at the tick that first found the pin active, or at the second
      reading of the counter in the tick that emitted the last long press. */
  ghost function IntervalStart(ts: seq<Sample>): nat {
    if ts == [] then 0 else
      var t, before := ts[|ts|-1], ts[..|ts|-1];
      if t.value == LONG then t.later
      else if t.active && !IsDown(before) && !WasActive(before) then t.now
      else IntervalStart(before)
  }

  /** What the next tick has to emit after the ticks ts. */
  ghost function Expected(longPress: bool, ts: seq<Sample>, active: bool, now: nat): Value {
    if active && !IsDown(ts) && WasActive(ts) then PRESS
    else if !active && IsDown(ts) then RELEASE
    else if active && IsDown(ts) && longPress && (IntervalStart(ts) + 500) % 0x1_0000_0000 <= now then LONG
    else NONE
  }

  ghost predicate Inv(s: State) {
    && Scan(s.queue.emitted) == (if s.machine.phase.Held? then Down else Up)
    && (s.machine.phase.Held? <==> IsDown(s.ticks))
    && (s.machine.phase.Pressed? <==> !IsDown(s.ticks) && WasActive(s.ticks))
    && (s.machine.longPress && !s.machine.phase.Poll? ==> s.machine.start == IntervalStart(s.ticks))
    && s.queue.emitted == Emitted(s.ticks)
  }

  /** The values of the ticks that emitted one. */
  ghost function Emitted(ts: seq<Sample>): seq<Value> {
    if ts == [] then [] else Emitted(ts[..|ts|-1]) + if ts[|ts|-1].value == NONE then [] else [ts[|ts|-1].value]
  }

  lemma OneTickMore(ts: seq<Sample>, t: Sample)
    ensures IsDown(ts + [t]) == if t.value == PRESS then true else if t.value == RELEASE then false else IsDown(ts)
    ensures WasActive(ts + [t]) == t.active
    ensures IntervalStart(ts + [t]) ==
            if t.value == LONG then t.later
            else if t.active && !IsDown(ts) && !WasActive(ts) then t.now
            else IntervalStart(ts)
    ensures Emitted(ts + [t]) == if t.value == NONE then Emitted(ts) else Emitted(ts) + [t.value]
  {
    assert (ts + [t])[..|ts|] == ts;
  }

  lemma ScanMore(vs: seq<Value>, v: Value)
    ensures Scan(vs + [v]) == match (Scan(vs), v)
                              case (Up, PRESS) => Down
                              case (Down, LONG) => Down
                              case (Down, RELEASE) => Up
                              case _ => Wrong
  {
    assert (vs + [v])[..|vs|] == vs;
  }

  /** The phases of the machine carry exactly what the history decides. */
  lemma EmitsExpected(s: State, gpio: nat, now: nat)
    requires Inv(s)
    ensures Emits(s.machine, gpio, now) == Expected(s.machine.longPress, s.ticks, Active(s.machine, gpio), now)
  {
    hide Emitted, Scan;
  }

  lemma StepKeepsInv(s: State, e: Event)
    requires s.queue.Valid() && Inv(s)
    ensures Inv(Step(s, e))
  {
    if e.Tick? {
      hide IsDown, WasActive, IntervalStart, Emitted, Scan;
      var v := Emits(s.machine, e.gpio, e.now);
      OneTickMore(s.ticks, Sample(Active(s.machine, e.gpio), e.now, e.later, v));
      ScanMore(s.queue.emitted, v);
    }
  }

  lemma {:induction false} RunKeepsInv(s0: State, es: seq<Event>)
    requires s0.queue.Valid() && Inv(s0)
    ensures Inv(Run(s0, es))
    decreases |es|
  {
    if es != [] {
      RunKeepsInv(s0, es[..|es|-1]);
      StepKeepsInv(Run(s0, es[..|es|-1]), es[|es|-1]);
    }
  }

  /** For any samples, changes of polarity and interleaving of reads: the stream is press, any number of
      long presses, release, and so on; and a press needs the pin active at the last two ticks. */
  lemma StreamWellFormed(longPress: bool, pressedValue: nat, es: seq<Event>, gpio: nat, now: nat)
    ensures var s := Run(Initial(longPress, pressedValue), es);
            && Scan(s.queue.emitted) != Wrong
            && (Scan(s.queue.emitted) == Down <==> s.machine.phase.Held?)
            && (Emits(s.machine, gpio, now) == PRESS ==>
                  Active(s.machine, gpio) && WasActive(s.ticks))
  {
    RunKeepsInv(Initial(longPress, pressedValue), es);
  }

  lemma {:induction false} RunExplains(s0: State, es: seq<Event>, k: nat)
    requires s0.queue.Valid() && Inv(s0) && s0.ticks == [] && k < |Run(s0, es).ticks|
    ensures Run(s0, es).machine.longPress == s0.machine.longPress
    ensures var ts := Run(s0, es).ticks;
            ts[k].value == Expected(s0.machine.longPress, ts[..k], ts[k].active, ts[k].now)
    decreases |es|
  {
    hide Expected, Inv, Emits, Ticked, Queue.Written, Queue.AfterRead, Queue.ReadReturns;
    KeepsSwitch(s0, es);
    var before, e := es[..|es|-1], es[|es|-1];
    var s := Run(s0, before);
    RunKeepsInv(s0, before);
    if k < |s.ticks| {
      RunExplains(s0, before, k);
      assert Run(s0, es).ticks[..k] == s.ticks[..k];
    } else {
      assert e.Tick? && Run(s0, es).ticks[..k] == s.ticks;
      KeepsSwitch(s0, before);
      EmitsExpected(s, e.gpio, e.now);
    }
  }

  lemma {:induction false} KeepsSwitch(s0: State, es: seq<Event>)
    requires s0.queue.Valid()
    ensures Run(s0, es).machine.longPress == s0.machine.longPress
    decreases |es|
  {
    if es != [] {
      KeepsSwitch(s0, es[..|es|-1]);
    }
  }

  /** What every tick of a run emits, from what the pin and the counter said and nothing else: a press at the
      second active tick in a row while the key is up, a release at the first inactive tick while it is down,
      a long press when the interval is over, and nothing otherwise.  These values are what the ring is
      given. */
  lemma EveryTickExplained(longPress: bool, pressedValue: nat, es: seq<Event>, k: nat)
    requires k < |Run(Initial(longPress, pressedValue), es).ticks|
    ensures var s := Run(Initial(longPress, pressedValue), es);
            && s.ticks[k].value == Expected(longPress, s.ticks[..k], s.ticks[k].active, s.ticks[k].now)
            && s.queue.emitted == Emitted(s.ticks)
  {
    RunExplains(Initial(longPress, pressedValue), es, k);
    RunKeepsInv(Initial(longPress, pressedValue), es);
  }

  // ---- With a bounded backlog, reads return the stream ----

  /** At no point of the run are more than 15 values waiting. */
  ghost predicate Bounded(s0: State, es: seq<Event>)
    requires s0.queue.Valid()
  {
    forall n :: 0 <= n <= |es| ==> |Run(s0, es[..n]).queue.Unread()| <= 15
  }

  ghost function Values(vs: seq<Value>): seq<Value> {
    if vs == [] then [] else Values(vs[..|vs|-1]) + if vs[|vs|-1] == NONE then [] else [vs[|vs|-1]]
  }

  /** While the ring is the queue, a read takes the oldest waiting value, if there is one. */
  lemma ReadTakesOldest(q: Queue)
    requires q.Valid() && |q.Unread()| <= 15
    ensures q.Unread() == [] ==> q.ReadReturns() == NONE && q.AfterRead() == q
    ensures q.Unread() != [] ==>
              && q.ReadReturns() == q.emitted[q.taken] != NONE
              && q.AfterRead() == Queue(q.emitted, q.taken + 1)
              && q.emitted[..q.taken + 1] == q.emitted[..q.taken] + [q.emitted[q.taken]]
  {
    RingIsQueue(q);
    if q.Unread() != [] {
      assert q.emitted[q.taken] in q.emitted;
    }
  }

  /** While the ring is the queue, one event keeps what was returned equal to what was taken. */
  lemma StepReturnsStream(s: State, e: Event)
    requires s.queue.Valid() && |s.queue.Unread()| <= 15 && Values(s.returned) == s.queue.emitted[..s.queue.taken]
    ensures Values(Step(s, e).returned) == Step(s, e).queue.emitted[..Step(s, e).queue.taken]
  {
    hide Emits, Ticked, Queue.ReadReturns, Queue.AfterRead, Queue.Apparent, Queue.Readable;
    ReadTakesOldest(s.queue);
    if e.Read? {
      assert Step(s, e).returned[..|s.returned|] == s.returned;
    }
  }

  lemma PrefixBounded(s0: State, es: seq<Event>)
    requires s0.queue.Valid() && Bounded(s0, es)
    ensures |Run(s0, es).queue.Unread()| <= 15 && (es != [] ==> Bounded(s0, es[..|es|-1]))
  {
    assert es[..|es|] == es;
    if es != [] {
      var before := es[..|es|-1];
      forall n | 0 <= n <= |before| ensures |Run(s0, before[..n]).queue.Unread()| <= 15 {
        assert before[..n] == es[..n];
      }
    }
  }

  /** If the backlog never exceeds 15, the values read are exactly the values emitted, in order and none
      skipped, and a read returns NONE only when everything emitted has been read. */
  lemma {:induction false} ReadsReturnStream(longPress: bool, pressedValue: nat, es: seq<Event>)
    requires Bounded(Initial(longPress, pressedValue), es)
    ensures var s := Run(Initial(longPress, pressedValue), es);
            && Values(s.returned) == s.queue.emitted[..s.queue.taken]
            && (s.queue.ReadReturns() == NONE <==> s.queue.Unread() == [])
    decreases |es|
  {
    var s0 := Initial(longPress, pressedValue);
    PrefixBounded(s0, es);
    RingIsQueue(Run(s0, es).queue);
    if es != [] {
      var before := es[..|es|-1];
      PrefixBounded(s0, before);
      ReadsReturnStream(longPress, pressedValue, before);
      StepReturnsStream(Run(s0, before), es[|es|-1]);
    }
  }

  // ---- What a caller can do to keep the backlog small ----

  /** The ticks since a read last returned NONE, which a caller can count. */
  ghost function SinceEmpty(s0: State, es: seq<Event>): nat
    requires s0.queue.Valid()
    decreases |es|
  {
    if es == [] then 0 else
      var before, e := es[..|es|-1], es[|es|-1];
      match e
      case Tick(_, _, _) => SinceEmpty(s0, before) + 1
      case Read => if Run(s0, before).queue.ReadReturns() == NONE then 0 else SinceEmpty(s0, before)
      case Mode(_) => SinceEmpty(s0, before)
  }

  /** The caller reads until NONE at least every 15 ticks. */
  ghost predicate DrainedOften(s0: State, es: seq<Event>)
    requires s0.queue.Valid()
  {
    forall n :: 0 <= n <= |es| ==> SinceEmpty(s0, es[..n]) <= 15
  }

  /** A tick adds at most one value, a read takes one away, and NONE means nothing is left. */
  lemma StepBacklog(s: State, e: Event)
    requires s.queue.Valid() && |s.queue.Unread()| <= 15
    ensures |Step(s, e).queue.Unread()| <= |s.queue.Unread()| + (if e.Tick? then 1 else 0)
    ensures e.Read? && s.queue.ReadReturns() == NONE ==> Step(s, e).queue.Unread() == []
  {
    LooksEmpty(s.queue);
  }

  lemma {:induction false} BacklogBelowTicks(longPress: bool, pressedValue: nat, es: seq<Event>)
    requires DrainedOften(Initial(longPress, pressedValue), es)
    ensures var s0 := Initial(longPress, pressedValue);
            |Run(s0, es).queue.Unread()| <= SinceEmpty(s0, es) <= 15
    decreases |es|
  {
    var s0 := Initial(longPress, pressedValue);
    assert es[..|es|] == es;
    if es != [] {
      var before := es[..|es|-1];
      forall n | 0 <= n <= |before| ensures SinceEmpty(s0, before[..n]) <= 15 {
        assert before[..n] == es[..n];
      }
      BacklogBelowTicks(longPress, pressedValue, before);
      StepBacklog(Run(s0, before), es[|es|-1]);
    }
  }

  /** Reading until NONE at least every 15 ticks keeps the backlog at 15 or less, and so makes reads return
      exactly the emitted stream. */
  lemma DrainingOftenIsEnough(longPress: bool, pressedValue: nat, es: seq<Event>)
    requires DrainedOften(Initial(longPress, pressedValue), es)
    ensures Bounded(Initial(longPress, pressedValue), es)
    ensures var s := Run(Initial(longPress, pressedValue), es);
            Values(s.returned) == s.queue.emitted[..s.queue.taken]
  {
    var s0 := Initial(longPress, pressedValue);
    forall n | 0 <= n <= |es| ensures |Run(s0, es[..n]).queue.Unread()| <= 15 {
      forall m | 0 <= m <= n ensures SinceEmpty(s0, es[..n][..m]) <= 15 {
        assert es[..n][..m] == es[..m];
      }
      BacklogBelowTicks(longPress, pressedValue, es[..n]);
    }
    ReadsReturnStream(longPress, pressedValue, es);
  }

  // ---- A run that loses sixteen values ----

  /** Presses and releases, with no read in between. */
  ghost function Rounds(p: nat, q: nat, n: nat): seq<Event> {
    if n == 0 then [] else Rounds(p, q, n - 1) + [Tick(p, 0, 0)] + [Tick(p, 0, 0)] + [Tick(q, 0, 0)]
  }

  lemma RunMore(s0: State, es: seq<Event>, e: Event)
    requires s0.queue.Valid()
    ensures Run(s0, es + [e]) == Step(Run(s0, es), e)
  {
    assert (es + [e])[..|es|] == es;
  }

  lemma RoundEmitsTwo(s: State, p: nat, q: nat)
    requires p != q && s.queue.Valid() && s.machine == Machine(false, p, Poll, 0)
    ensures var s' := Step(Step(Step(s, Tick(p, 0, 0)), Tick(p, 0, 0)), Tick(q, 0, 0));
            s'.machine == s.machine && |s'.queue.emitted| == |s.queue.emitted| + 2 && s'.queue.taken == s.queue.taken
  {
  }

  lemma {:induction false} RoundsFill(p: nat, q: nat, n: nat)
    requires p != q
    ensures var s := Run(Initial(false, p), Rounds(p, q, n));
            s.machine == Machine(false, p, Poll, 0) && |s.queue.emitted| == 2 * n && s.queue.taken == 0
  {
    hide Step, Emits, Ticked;
    if n > 0 {
      RoundsFill(p, q, n - 1);
      var s0, es := Initial(false, p), Rounds(p, q, n - 1);
      RunMore(s0, es, Tick(p, 0, 0));
      RunMore(s0, es + [Tick(p, 0, 0)], Tick(p, 0, 0));
      RunMore(s0, es + [Tick(p, 0, 0)] + [Tick(p, 0, 0)], Tick(q, 0, 0));
      RoundEmitsTwo(Run(s0, es), p, q);
    }
  }

  /** After eight presses and releases the ring looks empty although sixteen values are waiting. */
  lemma SixteenLookEmpty(p: nat, q: nat)
    requires p != q
    ensures var s := Run(Initial(false, p), Rounds(p, q, 8));
            |s.queue.Unread()| == 16 && s.queue.ReadReturns() == NONE
  {
    RoundsFill(p, q, 8);
    LooksEmpty(Run(Initial(false, p), Rounds(p, q, 8)).queue);
  }

  /** A value that is read at once leaves nothing waiting. */
  lemma ReadAtOnce(q: Queue, v: Value)
    requires q.Valid() && q.Unread() == []
    ensures var q' := q.Written(v).AfterRead();
            q'.Valid() && q'.Unread() == [] && q'.emitted == q.Written(v).emitted
  {
    RingIsQueue(q.Written(v));
  }

  /** One tick and one read. */
  method TickAndRead(key: Key, gpio: nat)
    requires key.Valid() && key.queue.Unread() == []
    modifies key, key.buffer
    ensures key.Valid() && key.queue.Unread() == []
    ensures key.Model() == Ticked(old(key.Model()), gpio, 0, 0)
    ensures key.queue.emitted == old(key.queue).Written(Emits(old(key.Model()), gpio, 0)).emitted
  {
    ReadAtOnce(key.queue, Emits(key.Model(), gpio, 0));
    key.HandleTimer(gpio, 0, 0);
    var _ := key.ReadValue();
  }

  /** A press and a release, each read at once. */
  method Round(key: Key, p: nat, q: nat)
    requires key.Valid() && key.queue.Unread() == [] && key.Model() == Machine(false, p, Poll, 0) && p != q
    modifies key, key.buffer
    ensures key.Valid() && key.queue.Unread() == [] && key.Model() == Machine(false, p, Poll, 0)
    ensures key.queue.emitted == old(key.queue.emitted) + [PRESS] + [RELEASE]
  {
    hide Key.Holds, Queue.Unread, Queue.Valid;
    TickAndRead(key, p);
    TickAndRead(key, p);
    TickAndRead(key, q);
  }

  /** The store of the write index for the sixteenth value, a release, and two reads right after it. */
  method ReadTwice(key: Key) returns (first: Value, second: Value)
    requires key.Valid() && key.queue.Unread() == [] && |key.queue.emitted| == 15
    modifies key, key.buffer
    ensures first == RELEASE && second == old(key.queue.emitted)[0]
    ensures key.queue.Valid() && key.queue.Unread() == []
  {
    assert key.buffer[0 % FIFO_SIZE] == key.queue.emitted[0];
    ReadAtOnce(key.queue, RELEASE);
    key.PutValue(RELEASE);
    key.Advance(RELEASE);
    first := key.ReadValue();
    second := key.ReadValue();
  }

  /** A read that misreads: seven presses and releases and one more press, each read at once, and then two
      reads right after the store of the write index that the next release makes.  The first returns the
      release; the second returns the very first press again, although everything has been read. */
  method StaleRead(p: nat, q: nat) returns (key: Key, first: Value, second: Value)
    requires p != q
    ensures first == RELEASE && second == PRESS && key.queue.Valid() && key.queue.Unread() == []
  {
    key := new Key(false, p, UpIn);
    for i := 0 to 7
      invariant key.Valid() && key.Model() == Machine(false, p, Poll, 0) && fresh(key) && fresh(key.buffer)
      invariant key.queue.Unread() == [] && |key.queue.emitted| == 2 * i
      invariant i > 0 ==> key.queue.emitted[0] == PRESS
    {
      Round(key, p, q);
    }
    TickAndRead(key, p);
    TickAndRead(key, p);
    first, second := ReadTwice(key);
  }
}
