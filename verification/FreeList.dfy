/** The lock-free LIFO of memory blocks: atomic_link_get and atomic_link_put of rtx_core_cm.h, one
    load or store at a time, for any number of agents that may preempt each other anywhere.

    A block is named by its address and NULL is 0.  `link[b]` is the first word of block b: the link
    while b is listed, and anything at all while somebody owns b.  `owner` is who holds a block that
    is not listed; an owner may write to its block, hand it on, or put it back. */
module FreeList {
  import opened History
  import opened Monitor

  type Block = nat
  const NULL: Block := 0

  datatype Op = Pop | Push(block: Block)

  datatype Phase =
    | Idle
    // atomic_link_get
    | GetFetch                        // before ldrex ret,[root]
    | GetTest                         // ret in root.seen; before cbnz / ldr val,[ret]
    | GetStore(val: Block)            // before strex val,[root]
    | GetDone(ret: Block)
    // atomic_link_put
    | PutLoad(block: Block)               // before ldr val1,[root]
    | PutWrite(block: Block, val1: Block) // before str val1,[link]
    | PutFetch(block: Block)              // before ldrex val1,[root]
    | PutRead(block: Block)               // before ldr val2,[link]
    | PutStore(block: Block, val2: Block) // before cmp and strex link,[root]
    | PutDone(block: Block)

  datatype State = State(
    root: Cell<Block>,
    link: map<Block, nat>,
    owner: map<Block, Agent>,
    phases: map<Agent, Phase>,
    events: seq<Event<Op, Block>>)
  {
    ghost function At(a: Agent): Phase {
      if a in phases then phases[a] else Idle
    }

    ghost function Go(a: Agent, p: Phase): State {
      this.(phases := phases[a := p])
    }

    ghost function Log(e: Event<Op, Block>): State {
      this.(events := events + [e])
    }
  }

  datatype Label =
    | BeginGet(agent: Agent)
    | BeginPut(agent: Agent, block: Block)
    | LoadRootExclusive(agent: Agent)
    | LoadNext(agent: Agent)
    | LeaveEmpty(agent: Agent)
    | StoreFails(agent: Agent)
    | StoreSucceeds(agent: Agent)
    | LoadRoot(agent: Agent)
    | WriteLink(agent: Agent)
    | LoadLink(agent: Agent)
    | LinkChanged(agent: Agent)
    | Finish(agent: Agent)
    | LoseTag(agent: Agent)
    // what callers do with blocks they own
    | Scribble(agent: Agent, block: Block, value: nat)
    | HandOver(agent: Agent, block: Block, to: Agent)

  ghost predicate Owns(s: State, a: Agent, b: Block) {
    b in s.owner && s.owner[b] == a
  }

  ghost predicate Enabled(s: State, l: Label) {
    var a := l.agent;
    match l
    case BeginGet(_) => s.At(a).Idle?
    case BeginPut(_, b) => s.At(a).Idle? && Owns(s, a, b)
    case LoadRootExclusive(_) => s.At(a).GetFetch? || s.At(a).PutFetch?
    case LoadNext(_) => s.At(a).GetTest? && a in s.root.seen && s.root.seen[a] != NULL && s.root.seen[a] in s.link
    case LeaveEmpty(_) => s.At(a).GetTest? && a in s.root.seen && s.root.seen[a] == NULL
    case StoreFails(_) => s.At(a).GetStore? || (s.At(a).PutStore? && a in s.root.seen && s.At(a).val2 == s.root.seen[a])
    case StoreSucceeds(_) =>
      a in s.root.tagged && a in s.root.seen &&
      (s.At(a).GetStore? || (s.At(a).PutStore? && s.At(a).val2 == s.root.seen[a]))
    case LoadRoot(_) => s.At(a).PutLoad?
    case WriteLink(_) => s.At(a).PutWrite?
    case LoadLink(_) => s.At(a).PutRead? && s.At(a).block in s.link
    case LinkChanged(_) => s.At(a).PutStore? && a in s.root.seen && s.At(a).val2 != s.root.seen[a]
    case Finish(_) => s.At(a).GetDone? || s.At(a).PutDone?
    case LoseTag(_) => true
    case Scribble(_, b, _) => s.At(a).Idle? && Owns(s, a, b)
    case HandOver(_, b, _) => s.At(a).Idle? && Owns(s, a, b)
  }

  ghost function Step(s: State, l: Label): State
    requires Enabled(s, l)
  {
    var a := l.agent;
    match l
    case BeginGet(_) => s.Go(a, GetFetch).Log(Invoke(a, Pop))
    case BeginPut(_, b) => s.Go(a, PutLoad(b)).Log(Invoke(a, Push(b)))
    case LoadRootExclusive(_) =>
      var s' := s.(root := s.root.Ldrex(a));
      if s.At(a).PutFetch? then s'.Go(a, PutRead(s.At(a).block))
      else if s.root.word == NULL then s'.Go(a, GetTest).Log(TakeEffect(a, Pop, NULL))
      else s'.Go(a, GetTest)
    case LoadNext(_) => s.Go(a, GetStore(s.link[s.root.seen[a]]))
    case LeaveEmpty(_) => s.(root := s.root.Untag(a)).Go(a, GetDone(NULL))
    case StoreFails(_) =>
      s.(root := s.root.Untag(a)).Go(a, if s.At(a).GetStore? then GetFetch else PutLoad(s.At(a).block))
    case StoreSucceeds(_) =>
      if s.At(a).GetStore? then
        var b := s.root.seen[a];
        s.(root := s.root.Store(s.At(a).val), owner := s.owner[b := a]).Go(a, GetDone(b)).Log(TakeEffect(a, Pop, b))
      else
        var b := s.At(a).block;
        s.(root := s.root.Store(b), owner := s.owner - {b}).Go(a, PutDone(b)).Log(TakeEffect(a, Push(b), NULL))
    case LoadRoot(_) => s.Go(a, PutWrite(s.At(a).block, s.root.word))
    case WriteLink(_) =>
      var b := s.At(a).block;
      s.(link := s.link[b := s.At(a).val1]).Go(a, PutFetch(b))
    case LoadLink(_) => s.Go(a, PutStore(s.At(a).block, s.link[s.At(a).block]))
    case LinkChanged(_) => s.Go(a, PutLoad(s.At(a).block))
    case Finish(_) =>
      s.Go(a, Idle).Log(Return(a, if s.At(a).GetDone? then s.At(a).ret else NULL))
    case LoseTag(_) => s.(root := s.root.Untag(a))
    case Scribble(_, b, v) => s.(link := s.link[b := v])
    case HandOver(_, b, c) => s.(owner := s.owner[b := c])
  }

  // ---- The chain in memory ----

  /** Following the links from `from` visits exactly the blocks of `chain` and ends at NULL. */
  ghost predicate IsChain(from: Block, link: map<Block, nat>, chain: seq<Block>)
    decreases |chain|
  {
    if chain == [] then from == NULL
    else from == chain[0] && from != NULL && from in link && IsChain(link[from], link, chain[1..])
  }

  ghost predicate Distinct(chain: seq<Block>) {
    forall i, j :: 0 <= i < j < |chain| ==> chain[i] != chain[j]
  }

  ghost function Listed(chain: seq<Block>): set<Block> {
    set b | b in chain
  }

  /** The chain is acyclic and null-terminated; listed and owned blocks are disjoint and make up `blocks`. */
  ghost predicate Partition(blocks: set<Block>, s: State, chain: seq<Block>) {
    && IsChain(s.root.word, s.link, chain) && Distinct(chain)
    && Listed(chain) !! s.owner.Keys
    && Listed(chain) + s.owner.Keys == blocks
  }

  ghost predicate Safe(blocks: set<Block>, s: State) {
    exists chain :: Partition(blocks, s, chain)
  }

  lemma {:induction false} ChainUnique(from: Block, link: map<Block, nat>, c: seq<Block>, d: seq<Block>)
    requires IsChain(from, link, c) && IsChain(from, link, d)
    ensures c == d
    decreases |c|
  {
    if c != [] && d != [] {
      ChainUnique(link[from], link, c[1..], d[1..]);
      assert c == [c[0]] + c[1..] && d == [d[0]] + d[1..];
    }
  }

  /** Writing the first word of a block that is not listed leaves the chain alone. */
  lemma {:induction false} ChainFrame(from: Block, link: map<Block, nat>, chain: seq<Block>, b: Block, v: nat)
    requires IsChain(from, link, chain) && b !in chain
    ensures IsChain(from, link[b := v], chain)
    decreases |chain|
  {
    if chain != [] {
      ChainFrame(link[from], link, chain[1..], b, v);
    }
  }

  // ---- The sequential stack ----

  ghost function Stack(): Spec<Op, Block, seq<Block>> {
    Spec((op: Op, c: seq<Block>) => if op.Push? || c == [] then NULL else c[0],
         (op: Op, c: seq<Block>) => if op.Push? then [op.block] + c else if c == [] then [] else c[1..])
  }

  /** What makes it a stack: a pop gives back what was pushed last and leaves what was there before, and only
      a pop from the empty stack returns NULL. */
  lemma StackLaws(b: Block, c: seq<Block>)
    requires b != NULL
    ensures var pushed := Stack().leaves(Push(b), c);
            && Stack().reply(Push(b), c) == NULL && pushed != []
            && Stack().reply(Pop, pushed) == b && Stack().leaves(Pop, pushed) == c
    ensures Stack().reply(Pop, []) == NULL && Stack().leaves(Pop, []) == []
    ensures c != [] ==> Stack().reply(Pop, c) == c[0] && [c[0]] + Stack().leaves(Pop, c) == c
  {
  }

  // ---- The invariant ----

  ghost predicate AgentInv(blocks: set<Block>, s: State, a: Agent) {
    var p := ProgressOf(s.events, a);
    match s.At(a)
    case Idle => p == Quiet
    case GetFetch => p == Called(Pop)
    case GetTest => a in s.root.seen && p == (if s.root.seen[a] == NULL then Effected(Pop, NULL) else Called(Pop))
    case GetStore(v) =>
      && a in s.root.seen && s.root.seen[a] != NULL && p == Called(Pop)
      // while the tag survives, the head is still listed and its link is still what was read
      && (a in s.root.tagged ==> s.root.seen[a] in s.link && v == s.link[s.root.seen[a]])
    case GetDone(r) => p == Effected(Pop, r)
    case PutLoad(b) => Owns(s, a, b) && p == Called(Push(b))
    case PutWrite(b, _) => Owns(s, a, b) && p == Called(Push(b))
    case PutFetch(b) => Owns(s, a, b) && p == Called(Push(b))
    case PutRead(b) => Owns(s, a, b) && p == Called(Push(b)) && a in s.root.seen
    case PutStore(b, v) => Owns(s, a, b) && p == Called(Push(b)) && a in s.root.seen && b in s.link && v == s.link[b]
    case PutDone(b) => p == Effected(Push(b), NULL)
  }

  ghost predicate Inv(blocks: set<Block>, chain0: seq<Block>, s: State, chain: seq<Block>) {
    && Partition(blocks, s, chain)
    && s.root.Coherent()
    && NULL !in blocks && s.link.Keys == blocks
    && Legal(Stack(), chain0, s.events) && Replay(Stack(), chain0, s.events) == chain
    && (forall a :: a in s.root.seen ==> s.root.seen[a] == NULL || s.root.seen[a] in blocks)
    && forall a :: AgentInv(blocks, s, a)
  }

  ghost function NewEvent(s: State, s': State): Event<Op, Block>
    requires |s'.events| == |s.events| + 1
  {
    s'.events[|s.events|]
  }

  /** What one instruction does to the listed chain: only a successful STREX changes it,
      and it pushes or pops the head. */
  ghost function NextChain(s: State, l: Label, chain: seq<Block>): seq<Block> {
    var a := l.agent;
    if l.StoreSucceeds? && s.At(a).GetStore? && chain != [] then chain[1..]
    else if l.StoreSucceeds? && s.At(a).PutStore? then [s.At(a).block] + chain
    else chain
  }

  lemma PopHead(blocks: set<Block>, s: State, chain: seq<Block>, a: Agent)
    requires Partition(blocks, s, chain) && s.root.word != NULL
    ensures chain != [] && chain[0] == s.root.word && chain[0] in s.link && chain[0] !in s.owner
    ensures forall s': State ::
              s'.root.word == s.link[chain[0]] && s'.link == s.link && s'.owner == s.owner[chain[0] := a]
              ==> Partition(blocks, s', chain[1..])
  {
    assert chain == [chain[0]] + chain[1..];
    assert Listed(chain) == Listed(chain[1..]) + {chain[0]};
  }

  lemma PushHead(blocks: set<Block>, s: State, chain: seq<Block>, b: Block)
    requires Partition(blocks, s, chain)
    requires b != NULL && b in s.owner && b in s.link && s.link[b] == s.root.word
    ensures forall s': State :: s'.root.word == b && s'.link == s.link && s'.owner == s.owner - {b}
              ==> Partition(blocks, s', [b] + chain)
  {
    var chain' := [b] + chain;
    assert chain'[1..] == chain;
    assert Listed(chain') == Listed(chain) + {b};
    assert b !in Listed(chain);
    forall s': State | s'.root.word == b && s'.link == s.link && s'.owner == s.owner - {b}
      ensures Partition(blocks, s', chain')
    {
      assert s'.owner.Keys == s.owner.Keys - {b};
    }
  }

  lemma StepKeepsPartition(blocks: set<Block>, chain0: seq<Block>, s: State, chain: seq<Block>, l: Label)
    requires Inv(blocks, chain0, s, chain) && Enabled(s, l)
    ensures Partition(blocks, Step(s, l), NextChain(s, l, chain))
    ensures Step(s, l).link.Keys == blocks && Step(s, l).root.Coherent()
    ensures l.StoreSucceeds? && s.At(l.agent).GetStore? ==> chain != [] && chain[0] == s.root.seen[l.agent]
  {
    var a := l.agent;
    assert AgentInv(blocks, s, a);
    if l.StoreSucceeds? {
      if s.At(a).GetStore? {
        PopHead(blocks, s, chain, a);
      } else {
        PushHead(blocks, s, chain, s.At(a).block);
      }
    } else if l.WriteLink? {
      ChainFrame(s.root.word, s.link, chain, s.At(a).block, s.At(a).val1);
    } else if l.Scribble? {
      ChainFrame(s.root.word, s.link, chain, l.block, l.value);
    } else if l.HandOver? {
      assert s.owner[l.block := l.to].Keys == s.owner.Keys;
    }
  }

  /** The history of the acting agent grows by the event of the step, if there is one. */
  lemma ActorsProgress(chain0: seq<Block>, s: State, l: Label)
    requires Enabled(s, l)
    ensures var s', p := Step(s, l), ProgressOf(s.events, l.agent);
            ProgressOf(s'.events, l.agent) == if s'.events == s.events then p else Advance(p, s'.events[|s.events|])
  {
    var s' := Step(s, l);
    if |s'.events| > |s.events| {
      Grow(Stack(), chain0, s.events, NewEvent(s, s'));
    }
  }

  predicate InPut(p: Phase) {
    p.PutLoad? || p.PutWrite? || p.PutFetch? || p.PutRead? || p.PutStore? || p.PutDone?
  }

  lemma ActingInPut(blocks: set<Block>, chain0: seq<Block>, s: State, chain: seq<Block>, l: Label)
    requires Inv(blocks, chain0, s, chain) && Enabled(s, l) && InPut(s.At(l.agent))
    ensures AgentInv(blocks, Step(s, l), l.agent)
  {
    assert AgentInv(blocks, s, l.agent);
    ActorsProgress(chain0, s, l);
  }

  lemma ActingElsewhere(blocks: set<Block>, chain0: seq<Block>, s: State, chain: seq<Block>, l: Label)
    requires Inv(blocks, chain0, s, chain) && Enabled(s, l) && !InPut(s.At(l.agent))
    ensures AgentInv(blocks, Step(s, l), l.agent)
  {
    assert AgentInv(blocks, s, l.agent);
    ActorsProgress(chain0, s, l);
  }

  lemma ActingAgent(blocks: set<Block>, chain0: seq<Block>, s: State, chain: seq<Block>, l: Label)
    requires Inv(blocks, chain0, s, chain) && Enabled(s, l)
    ensures AgentInv(blocks, Step(s, l), l.agent)
  {
    if InPut(s.At(l.agent)) {
      ActingInPut(blocks, chain0, s, chain, l);
    } else {
      ActingElsewhere(blocks, chain0, s, chain, l);
    }
  }

  /** Another agent's instruction neither takes a block away from its owner nor writes to it. */
  lemma OthersBlocks(blocks: set<Block>, chain0: seq<Block>, s: State, chain: seq<Block>, l: Label, c: Agent, b: Block)
    requires Inv(blocks, chain0, s, chain) && Enabled(s, l) && c != l.agent && Owns(s, c, b)
    ensures Owns(Step(s, l), c, b) && Step(s, l).link[b] == s.link[b]
  {
    assert AgentInv(blocks, s, l.agent);
    if l.StoreSucceeds? && s.At(l.agent).GetStore? {
      StepKeepsPartition(blocks, chain0, s, chain, l);
      assert chain[0] in Listed(chain);
    }
  }

  /** Nor does it write to a block that a surviving tag makes the head. */
  lemma OthersHead(blocks: set<Block>, chain0: seq<Block>, s: State, chain: seq<Block>, l: Label)
    requires Inv(blocks, chain0, s, chain) && Enabled(s, l) && s.root.word != NULL
    ensures s.root.word in s.link && Step(s, l).link[s.root.word] == s.link[s.root.word]
  {
    assert AgentInv(blocks, s, l.agent);
    assert chain[0] in Listed(chain);
  }

  lemma OtherStaysPut(chain0: seq<Block>, s: State, l: Label, c: Agent)
    requires Enabled(s, l) && c != l.agent
    ensures var s' := Step(s, l);
            && s'.At(c) == s.At(c) && ProgressOf(s'.events, c) == ProgressOf(s.events, c)
            && (c in s.root.seen ==> c in s'.root.seen && s'.root.seen[c] == s.root.seen[c])
            && (c in s'.root.tagged ==> c in s.root.tagged)
  {
    var s' := Step(s, l);
    if |s'.events| > |s.events| {
      Grow(Stack(), chain0, s.events, NewEvent(s, s'));
    }
  }

  lemma OtherAgent(blocks: set<Block>, chain0: seq<Block>, s: State, chain: seq<Block>, l: Label, c: Agent)
    requires Inv(blocks, chain0, s, chain) && Enabled(s, l) && c != l.agent
    ensures AgentInv(blocks, Step(s, l), c)
  {
    assert AgentInv(blocks, s, c);
    OtherStaysPut(chain0, s, l, c);
    var p := s.At(c);
    if p.GetStore? {
      if c in Step(s, l).root.tagged {
        OthersHead(blocks, chain0, s, chain, l);
      }
    } else if InPut(p) && !p.PutDone? {
      OthersBlocks(blocks, chain0, s, chain, l, c, p.block);
    }
  }

  lemma StepKeepsAgents(blocks: set<Block>, chain0: seq<Block>, s: State, chain: seq<Block>, l: Label)
    requires Inv(blocks, chain0, s, chain) && Enabled(s, l)
    ensures forall c :: AgentInv(blocks, Step(s, l), c)
  {
    forall c ensures AgentInv(blocks, Step(s, l), c) {
      if c == l.agent {
        ActingAgent(blocks, chain0, s, chain, l);
      } else {
        OtherAgent(blocks, chain0, s, chain, l, c);
      }
    }
  }

  lemma StepKeepsInv(blocks: set<Block>, chain0: seq<Block>, s: State, chain: seq<Block>, l: Label)
    requires Inv(blocks, chain0, s, chain) && Enabled(s, l)
    ensures Inv(blocks, chain0, Step(s, l), NextChain(s, l, chain))
  {
    StepKeepsPartition(blocks, chain0, s, chain, l);
    StepKeepsAgents(blocks, chain0, s, chain, l);
    var s' := Step(s, l);
    assert AgentInv(blocks, s, l.agent);
    if |s'.events| > |s.events| {
      Grow(Stack(), chain0, s.events, NewEvent(s, s'));
    }
  }

  // ---- Runs ----

  /** No call in progress; the free blocks form a chain, the others have owners. */
  ghost predicate Initial(blocks: set<Block>, s: State, chain: seq<Block>) {
    && Partition(blocks, s, chain) && NULL !in blocks && s.link.Keys == blocks
    && s.root.tagged == {} && s.root.seen == map[] && s.phases == map[] && s.events == []
  }

  ghost predicate Feasible(s0: State, run: seq<Label>)
    decreases |run|, 0
  {
    run == [] || (Feasible(s0, run[..|run|-1]) && Enabled(Execute(s0, run[..|run|-1]), run[|run|-1]))
  }

  ghost function Execute(s0: State, run: seq<Label>): State
    requires Feasible(s0, run)
    decreases |run|, 1
  {
    if run == [] then s0 else Step(Execute(s0, run[..|run|-1]), run[|run|-1])
  }

  lemma {:induction false} RunKeepsInv(blocks: set<Block>, s0: State, chain0: seq<Block>, run: seq<Label>)
    returns (chain: seq<Block>)
    requires Initial(blocks, s0, chain0) && Feasible(s0, run)
    ensures Inv(blocks, chain0, Execute(s0, run), chain)
  {
    if run == [] {
      chain := chain0;
    } else {
      var before := run[..|run|-1];
      chain := RunKeepsInv(blocks, s0, chain0, before);
      StepKeepsInv(blocks, chain0, Execute(s0, before), chain, run[|run|-1]);
      chain := NextChain(Execute(s0, before), run[|run|-1], chain);
    }
  }

  /** In every reachable state, whatever preempted whatever and whatever owners wrote into their
      blocks: the chain from the root is acyclic and null-terminated, no listed block is owned, every
      other block has exactly one owner, and together they are the blocks the pool started with. */
  lemma FreeListSafe(blocks: set<Block>, s0: State, chain0: seq<Block>, run: seq<Label>)
    requires Initial(blocks, s0, chain0) && Feasible(s0, run)
    ensures Safe(blocks, Execute(s0, run))
  {
    var chain := RunKeepsInv(blocks, s0, chain0, run);
  }

  /** The calls are linearizable as a stack, and the chain in memory is what the sequential execution leaves. */
  lemma FreeListIsAStack(blocks: set<Block>, s0: State, chain0: seq<Block>, run: seq<Label>)
    requires Initial(blocks, s0, chain0) && Feasible(s0, run)
    ensures Linearizable(Stack(), chain0, Execute(s0, run).events)
    ensures Partition(blocks, Execute(s0, run), Replay(Stack(), chain0, Execute(s0, run).events))
  {
    var chain := RunKeepsInv(blocks, s0, chain0, run);
    var s := Execute(s0, run);
    forall a ensures !ProgressOf(s.events, a).Broken? {
      assert AgentInv(blocks, s, a);
    }
  }

  /** A successful pop takes exactly the head of the chain in memory, even if that block was popped,
      reused and pushed back since the caller last ran: the new owner is the caller and nobody else. */
  lemma PopTakesHead(blocks: set<Block>, s0: State, chain0: seq<Block>, run: seq<Label>, a: Agent, chain: seq<Block>)
    requires Initial(blocks, s0, chain0) && Feasible(s0, run)
    requires Enabled(Execute(s0, run), StoreSucceeds(a)) && Execute(s0, run).At(a).GetStore?
    requires IsChain(Execute(s0, run).root.word, Execute(s0, run).link, chain)
    ensures chain != [] && Step(Execute(s0, run), StoreSucceeds(a)).At(a) == GetDone(chain[0])
    ensures chain[0] !in Execute(s0, run).owner && Owns(Step(Execute(s0, run), StoreSucceeds(a)), a, chain[0])
    ensures Step(Execute(s0, run), StoreSucceeds(a)).owner == Execute(s0, run).owner[chain[0] := a]
    ensures Partition(blocks, Step(Execute(s0, run), StoreSucceeds(a)), chain[1..])
  {
    var c := RunKeepsInv(blocks, s0, chain0, run);
    var s := Execute(s0, run);
    ChainUnique(s.root.word, s.link, c, chain);
    StepKeepsPartition(blocks, chain0, s, c, StoreSucceeds(a));
    assert chain[0] in Listed(chain);
  }

  /** Whoever is inside a call can execute its next instruction: no interleaving is missing because a
      step is not enabled.  While the tag survives, a store can also succeed. */
  lemma NeverStuck(blocks: set<Block>, s0: State, chain0: seq<Block>, run: seq<Label>, a: Agent) returns (l: Label)
    requires Initial(blocks, s0, chain0) && Feasible(s0, run) && !Execute(s0, run).At(a).Idle?
    ensures l.agent == a && !l.LoseTag? && Enabled(Execute(s0, run), l)
    ensures l.StoreFails? && a in Execute(s0, run).root.tagged ==> Enabled(Execute(s0, run), StoreSucceeds(a))
  {
    var chain := RunKeepsInv(blocks, s0, chain0, run);
    var s := Execute(s0, run);
    assert AgentInv(blocks, s, a);
    l := match s.At(a)
      case GetFetch => LoadRootExclusive(a)
      case GetTest => if s.root.seen[a] == NULL then LeaveEmpty(a) else LoadNext(a)
      case GetStore(_) => StoreFails(a)
      case GetDone(_) => Finish(a)
      case PutLoad(_) => LoadRoot(a)
      case PutWrite(_, _) => WriteLink(a)
      case PutFetch(_) => LoadRootExclusive(a)
      case PutRead(_) => LoadLink(a)
      case PutStore(_, val2) => if val2 == s.root.seen[a] then StoreFails(a) else LinkChanged(a)
      case PutDone(_) => Finish(a);
  }
}
