/** Concurrent histories and linearizability, for any deterministic sequential object.

    A history is the order in which things happened: agents invoke operations, operations take effect,
    agents return.  Only invocations and returns are observable; the effects are the witnesses that
    turn a concurrent history into a sequential one. */
module History {
  /** A deterministic sequential object: what an operation returns in a state, and the state it leaves. */
  datatype Spec<!O, !R, !S> = Spec(reply: (O, S) -> R, leaves: (O, S) -> S)

  datatype Event<O, R> =
    | Invoke(agent: nat, op: O)
    | TakeEffect(agent: nat, op: O, ret: R)
    | Return(agent: nat, ret: R)

  /** The object's state after the effects of a history, applied one after the other. */
  ghost function Replay<O, R, S>(spec: Spec<O, R, S>, s: S, h: seq<Event<O, R>>): S {
    if h == [] then s else
      var before := Replay(spec, s, h[..|h|-1]);
      var e := h[|h|-1];
      if e.TakeEffect? then spec.leaves(e.op, before) else before
  }

  /** Every effect returned what its operation returns in the state the earlier effects left. */
  ghost predicate Legal<O, R, S>(spec: Spec<O, R, S>, s: S, h: seq<Event<O, R>>) {
    h == [] ||
    (Legal(spec, s, h[..|h|-1]) &&
     var e := h[|h|-1];
     (e.TakeEffect? ==> e.ret == spec.reply(e.op, Replay(spec, s, h[..|h|-1]))))
  }

  /** How far one agent's latest call has got; Broken if its events are out of order. */
  datatype Progress<O, R> = Quiet | Called(op: O) | Effected(op: O, ret: R) | Broken

  ghost function Advance<O, R>(p: Progress<O, R>, e: Event<O, R>): Progress<O, R> {
    match e
    case Invoke(_, op) => if p.Quiet? then Called(op) else Broken
    case TakeEffect(_, op, ret) => if p == Called(op) then Effected(op, ret) else Broken
    case Return(_, ret) => if p.Effected? && p.ret == ret then Quiet else Broken
  }

  ghost function ProgressOf<O, R>(h: seq<Event<O, R>>, a: nat): Progress<O, R> {
    if h == [] then Quiet else
      var before := ProgressOf(h[..|h|-1], a);
      var e := h[|h|-1];
      if e.agent == a then Advance(before, e) else before
  }

  /** Linearizable: each call takes effect once, between its invocation and its return, the returned
      value is the one fixed at that moment, and the effects in order are a sequential execution. */
  ghost predicate Linearizable<O, R, S>(spec: Spec<O, R, S>, s: S, h: seq<Event<O, R>>) {
    Legal(spec, s, h) && forall a :: !ProgressOf(h, a).Broken?
  }

  lemma Grow<O, R, S>(spec: Spec<O, R, S>, s: S, h: seq<Event<O, R>>, e: Event<O, R>)
    ensures Replay(spec, s, h + [e]) ==
            if e.TakeEffect? then spec.leaves(e.op, Replay(spec, s, h)) else Replay(spec, s, h)
    ensures Legal(spec, s, h + [e]) <==>
            Legal(spec, s, h) && (e.TakeEffect? ==> e.ret == spec.reply(e.op, Replay(spec, s, h)))
    ensures forall a :: ProgressOf(h + [e], a) ==
                        if e.agent == a then Advance(ProgressOf(h, a), e) else ProgressOf(h, a)
  {
    assert (h + [e])[..|h + [e]| - 1] == h;
  }

  // ---- Reading a linearizable history back as intervals ----

  ghost predicate SilentBetween<O, R>(h: seq<Event<O, R>>, a: nat, lo: int, hi: int) {
    forall i :: lo < i < hi && 0 <= i < |h| ==> h[i].agent != a
  }

  /** The call in progress at the end of a history has its invocation and its effect where they belong. */
  lemma {:induction false} LocateCall<O, R>(h: seq<Event<O, R>>, a: nat) returns (invoked: int, effect: int)
    requires !ProgressOf(h, a).Broken?
    ensures ProgressOf(h, a).Called? ==>
              0 <= invoked < |h| && h[invoked] == Invoke(a, ProgressOf(h, a).op) && SilentBetween(h, a, invoked, |h|)
    ensures ProgressOf(h, a).Effected? ==>
              && 0 <= invoked < effect < |h|
              && h[invoked] == Invoke(a, ProgressOf(h, a).op)
              && h[effect] == TakeEffect(a, ProgressOf(h, a).op, ProgressOf(h, a).ret)
              && SilentBetween(h, a, invoked, effect) && SilentBetween(h, a, effect, |h|)
  {
    invoked, effect := 0, 0;
    if h != [] {
      invoked, effect := LocateCall(h[..|h|-1], a);
      var e := h[|h|-1];
      if e.agent == a && e.Invoke? {
        invoked := |h| - 1;
      } else if e.agent == a && e.TakeEffect? {
        effect := |h| - 1;
      }
    }
  }

  lemma {:induction false} PrefixNotBroken<O, R>(h: seq<Event<O, R>>, a: nat, n: nat)
    requires n <= |h| && !ProgressOf(h, a).Broken?
    ensures !ProgressOf(h[..n], a).Broken?
    decreases |h|
  {
    if n < |h| {
      PrefixNotBroken(h[..|h|-1], a, n);
      assert h[..|h|-1][..n] == h[..n];
    } else {
      assert h[..n] == h;
    }
  }

  lemma {:induction false} PrefixLegal<O, R, S>(spec: Spec<O, R, S>, s: S, h: seq<Event<O, R>>, n: nat)
    requires n <= |h| && Legal(spec, s, h)
    ensures Legal(spec, s, h[..n])
    decreases |h|
  {
    if n < |h| {
      PrefixLegal(spec, s, h[..|h|-1], n);
      assert h[..|h|-1][..n] == h[..n];
    } else {
      assert h[..n] == h;
    }
  }

  /** Real-time order: a returned call took effect strictly inside its own interval, with the value it
      returned.  So a call that returned before another was invoked comes first sequentially too. */
  lemma EffectInsideCall<O, R, S>(spec: Spec<O, R, S>, s: S, h: seq<Event<O, R>>, r: nat)
    returns (invoked: int, effect: int)
    requires Linearizable(spec, s, h) && r < |h| && h[r].Return?
    ensures 0 <= invoked < effect < r
    ensures h[invoked].Invoke? && h[effect].TakeEffect? && h[invoked].agent == h[effect].agent == h[r].agent
    ensures h[effect].op == h[invoked].op && h[effect].ret == h[r].ret
    ensures SilentBetween(h, h[r].agent, invoked, effect) && SilentBetween(h, h[r].agent, effect, r)
    ensures h[r].ret == spec.reply(h[effect].op, Replay(spec, s, h[..effect]))
  {
    var a := h[r].agent;
    PrefixNotBroken(h, a, r + 1);
    PrefixNotBroken(h, a, r);
    assert h[..r+1][..r] == h[..r];
    invoked, effect := LocateCall(h[..r], a);
    PrefixLegal(spec, s, h, effect + 1);
    assert h[..effect+1][..effect] == h[..effect];
  }
}
