/** The intrusive, doubly linked thread lists of rtx_thread.c.

    Objects and threads share the head of their control blocks, and the list code casts freely between
    the two: an object's thread_list is the thread_next of its first thread's predecessor.  `Node`
    stands for either; the ghost field `threads` is the list that hangs off a node used as an object. */
module ThreadList {
  import opened Bits

  const ID_INVALID: bv8 := 0x00
  const ID_EVENT_FLAGS: bv8 := 0xF3

  class Node {
    var id: bv8
    var threadNext: Node?
    var threadPrev: Node?
    const priority: int
    var flagsOptions: Word
    var waitFlags: Word
    var eventFlags: Word
    var r0: Word             // the stacked R0: what the blocked service call returns to the thread
    var registered: nat      // entries for this object in the ISR queue
    ghost var threads: seq<Node>

    constructor (id: bv8, priority: int)
      ensures this.id == id && this.priority == priority && threads == [] && Linked()
      ensures eventFlags == {} && registered == 0
    {
      this.id, this.priority, this.registered := id, priority, 0;
      threadNext, threadPrev, threads := null, null, [];
      flagsOptions, waitFlags, eventFlags, r0 := {}, {}, {}, {};
    }

    /** The links of the i-th thread in this object's list. */
    ghost predicate LinkedAt(i: nat)
      requires i < |threads|
      reads `threads, Elements(threads)`threadNext, Elements(threads)`threadPrev
    {
      && threads[i].threadPrev == Before(this, threads, i)
      && threads[i].threadNext == At(threads, i + 1)
    }

    /** The links of this object's list spell out `threads`, forwards and backwards. */
    ghost predicate Linked()
      reads `threads, `threadNext, Elements(threads)`threadNext, Elements(threads)`threadPrev
    {
      && threadNext == At(threads, 0)
      && (forall i :: 0 <= i < |threads| ==> LinkedAt(i))
      && Distinct(threads) && this !in threads
    }
  }

  ghost function At(s: seq<Node>, i: nat): Node? {
    if i < |s| then s[i] else null
  }

  ghost function Before(root: Node, s: seq<Node>, i: nat): Node
    requires i <= |s|
  {
    if i == 0 then root else s[i-1]
  }

  ghost predicate Differ(s: seq<Node>, i: nat, j: nat)
    requires i < |s| && j < |s|
  {
    s[i] != s[j]
  }

  ghost predicate Distinct(s: seq<Node>) {
    forall i, j :: 0 <= i < j < |s| ==> Differ(s, i, j)
  }

  /** The k-th thread occurs nowhere else. */
  lemma OnlyAt(s: seq<Node>, k: nat)
    requires Distinct(s) && k < |s|
    ensures forall i :: 0 <= i < |s| && i != k ==> s[i] != s[k]
  {
    forall i | 0 <= i < |s| && i != k ensures s[i] != s[k] {
      assert i < k ==> Differ(s, i, k);
      assert k < i ==> Differ(s, k, i);
    }
  }

  ghost function Elements(s: seq<Node>): set<Node> {
    set t | t in s
  }

  /** Where a thread of priority p goes: behind every thread of the same or a higher priority at the front. */
  ghost function PutIndex(s: seq<Node>, p: int): (k: nat)
    ensures k <= |s|
    ensures forall i :: 0 <= i < k ==> s[i].priority >= p
    ensures k < |s| ==> s[k].priority < p
  {
    if s == [] || s[0].priority < p then 0 else 1 + PutIndex(s[1..], p)
  }

  ghost function InsertAt(s: seq<Node>, k: nat, t: Node): seq<Node>
    requires k <= |s|
  {
    s[..k] + [t] + s[k..]
  }

  ghost function Put(s: seq<Node>, t: Node): seq<Node> {
    InsertAt(s, PutIndex(s, t.priority), t)
  }

  ghost predicate InOrder(s: seq<Node>, i: nat, j: nat)
    requires i < |s| && j < |s|
  {
    s[i].priority >= s[j].priority
  }

  ghost predicate Sorted(s: seq<Node>) {
    forall i, j :: 0 <= i < j < |s| ==> InOrder(s, i, j)
  }

  lemma {:induction false} PutIndexIs(s: seq<Node>, p: int, k: nat)
    requires k <= |s|
    requires forall i :: 0 <= i < k ==> s[i].priority >= p
    requires k < |s| ==> s[k].priority < p
    ensures k == PutIndex(s, p)
  {
    if k > 0 {
      assert s[0].priority >= p;
      PutIndexIs(s[1..], p, k - 1);
    }
  }

  /** Insertion adds one thread. */
  lemma InsertAdds(s: seq<Node>, k: nat, t: Node)
    requires k <= |s|
    ensures multiset(InsertAt(s, k, t)) == multiset(s) + multiset{t}
    ensures Elements(InsertAt(s, k, t)) == Elements(s) + {t}
  {
    assert s == s[..k] + s[k..];
  }

  lemma PutAdds(s: seq<Node>, t: Node)
    ensures multiset(Put(s, t)) == multiset(s) + multiset{t}
    ensures Elements(Put(s, t)) == Elements(s) + {t}
  {
    InsertAdds(s, PutIndex(s, t.priority), t);
  }

  lemma InsertSorted(s: seq<Node>, k: nat, t: Node, r: seq<Node>)
    requires Sorted(s) && k <= |s| && r == InsertAt(s, k, t)
    requires forall i :: 0 <= i < k ==> s[i].priority >= t.priority
    requires k < |s| ==> s[k].priority <= t.priority
    ensures Sorted(r)
  {
    forall i, j | 0 <= i < j < |r| ensures InOrder(r, i, j) {
      if i == k {
        assert r[j] == s[j-1] && (k < j - 1 ==> InOrder(s, k, j - 1));
      } else if j != k {
        assert InOrder(s, if i < k then i else i - 1, if j < k then j else j - 1);
      }
    }
  }

  /** Insertion keeps a list sorted. */
  lemma PutSorted(s: seq<Node>, t: Node)
    requires Sorted(s)
    ensures Sorted(Put(s, t))
  {
    InsertSorted(s, PutIndex(s, t.priority), t, Put(s, t));
  }

  /** First in, first out among equals: every thread of the same or a higher priority stays before the new
      one, every thread of a lower priority comes after it, and they all keep their order. */
  lemma PutPlace(s: seq<Node>, t: Node) returns (k: nat)
    requires Sorted(s)
    ensures k <= |s| && |Put(s, t)| == |s| + 1 && Put(s, t)[k] == t
    ensures Put(s, t)[..k] == s[..k] && Put(s, t)[k+1..] == s[k..]
    ensures forall i :: 0 <= i < |s| ==> (i < k <==> s[i].priority >= t.priority)
  {
    k := PutIndex(s, t.priority);
    forall i | k <= i < |s| ensures s[i].priority < t.priority {
      assert k < i ==> InOrder(s, k, i);
    }
  }

  /** Where a preempted thread of priority p goes: before every thread of the same priority. */
  ghost function FrontIndex(s: seq<Node>, p: int): (k: nat)
    ensures k <= |s|
    ensures forall i :: 0 <= i < k ==> s[i].priority > p
    ensures k < |s| ==> s[k].priority <= p
  {
    if s == [] || s[0].priority <= p then 0 else 1 + FrontIndex(s[1..], p)
  }

  ghost function PutFront(s: seq<Node>, t: Node): seq<Node> {
    InsertAt(s, FrontIndex(s, t.priority), t)
  }

  lemma {:induction false} FrontIndexIs(s: seq<Node>, p: int, k: nat)
    requires k <= |s|
    requires forall i :: 0 <= i < k ==> s[i].priority > p
    requires k < |s| ==> s[k].priority <= p
    ensures k == FrontIndex(s, p)
  {
    if k > 0 {
      assert s[0].priority > p;
      FrontIndexIs(s[1..], p, k - 1);
    }
  }

  lemma PutFrontSorted(s: seq<Node>, t: Node)
    requires Sorted(s)
    ensures Sorted(PutFront(s, t)) && Elements(PutFront(s, t)) == Elements(s) + {t}
  {
    InsertSorted(s, FrontIndex(s, t.priority), t, PutFront(s, t));
    InsertAdds(s, FrontIndex(s, t.priority), t);
  }

  /** A preempted thread stays ahead of its equals: only threads of a higher priority come before it, the
      others after it, and they all keep their order. */
  lemma FrontPlace(s: seq<Node>, t: Node) returns (k: nat)
    requires Sorted(s)
    ensures k <= |s| && |PutFront(s, t)| == |s| + 1 && PutFront(s, t)[k] == t
    ensures PutFront(s, t)[..k] == s[..k] && PutFront(s, t)[k+1..] == s[k..]
    ensures forall i :: 0 <= i < |s| ==> (i < k <==> s[i].priority > t.priority)
  {
    k := FrontIndex(s, t.priority);
    forall i | k <= i < |s| ensures s[i].priority <= t.priority {
      assert k < i ==> InOrder(s, k, i);
    }
  }

  /** The links of a list, one by one. */
  lemma Spell(root: Node)
    requires root.Linked()
    ensures forall i :: 0 <= i < |root.threads| ==> root.threads[i].threadNext == At(root.threads, i + 1)
    ensures forall i :: 0 <= i < |root.threads| ==> root.threads[i].threadPrev == Before(root, root.threads, i)
  {
    forall i | 0 <= i < |root.threads|
      ensures root.threads[i].threadNext == At(root.threads, i + 1)
      ensures root.threads[i].threadPrev == Before(root, root.threads, i)
    {
      assert root.LinkedAt(i);
    }
  }

  /** The search loop of osRtxThreadListPut. */
  method FindPlace(root: Node, priority: int) returns (prev: Node, next: Node?, ghost k: nat)
    requires root.Linked()
    ensures k == PutIndex(root.threads, priority) && prev == Before(root, root.threads, k) &&
        next == At(root.threads, k)
  {
    ghost var s := root.threads;
    Spell(root);
    k := 0;
    prev := root;
    next := prev.threadNext;
    while next != null && next.priority >= priority
      invariant 0 <= k <= |s|
      invariant prev == Before(root, s, k) && next == At(s, k)
      invariant forall i :: 0 <= i < k ==> s[i].priority >= priority
      decreases |s| - k
    {
      prev := next;
      next := next.threadNext;
      k := k + 1;
    }
    PutIndexIs(s, priority, k);
  }

  /** Links that spell out s, except that `thread` has been linked in at k, spell out the longer list. */
  lemma InsertedLinks(root: Node, s: seq<Node>, k: nat, thread: Node)
    requires Distinct(s) && root !in s && k <= |s| && thread !in s && thread != root
    requires root.threads == InsertAt(s, k, thread)
    requires thread.threadPrev == Before(root, s, k) && thread.threadNext == At(s, k)
    requires root.threadNext == if k == 0 then thread else s[0]
    requires forall i :: 0 <= i < |s| ==> s[i].threadNext == if i == k - 1 then thread else At(s, i + 1)
    requires forall i :: 0 <= i < |s| ==> s[i].threadPrev == if i == k then thread else Before(root, s, i)
    ensures root.Linked()
  {
    var t := root.threads;
    InsertedDistinct(s, k, thread);
    forall i | 0 <= i < |t| ensures root.LinkedAt(i) {
      if i < k {
        assert t[i] == s[i] && (i > 0 ==> t[i-1] == s[i-1]);
      } else if i > k {
        assert t[i] == s[i-1] && (i > k + 1 ==> t[i-1] == s[i-2]);
      }
    }
  }

  lemma InsertedDistinct(s: seq<Node>, k: nat, thread: Node)
    requires Distinct(s) && k <= |s| && thread !in s
    ensures Distinct(InsertAt(s, k, thread))
  {
    var t := InsertAt(s, k, thread);
    forall i, j | 0 <= i < j < |t| ensures Differ(t, i, j) {
      if i != k && j != k {
        assert Differ(s, if i < k then i else i - 1, if j < k then j else j - 1);
      }
    }
  }

  /** The four assignments that link a thread in at place k. */
  method LinkIn(root: Node, thread: Node, prev: Node, next: Node?, ghost k: nat)
    requires root.Linked() && thread !in root.threads && thread != root && k <= |root.threads|
    requires prev == Before(root, root.threads, k) && next == At(root.threads, k)
    modifies root`threadNext, thread`threadNext, thread`threadPrev
    modifies Elements(root.threads)`threadNext, Elements(root.threads)`threadPrev
    ensures thread.threadPrev == prev && thread.threadNext == next
    ensures root.threadNext == if k == 0 then thread else root.threads[0]
    ensures forall i :: 0 <= i < |root.threads| ==>
                          root.threads[i].threadNext == if i == k - 1 then thread else At(root.threads, i + 1)
    ensures forall i :: 0 <= i < |root.threads| ==>
                          root.threads[i].threadPrev == if i == k then thread else Before(root, root.threads, i)
  {
    ghost var s := root.threads;
    Spell(root);
    if k > 0 {
      OnlyAt(s, k - 1);
    }
    if k < |s| {
      OnlyAt(s, k);
    }
    thread.threadPrev := prev;
    thread.threadNext := next;
    prev.threadNext := thread;
    if next != null {
      next.threadPrev := thread;
    }
  }

  /** osRtxThreadListPut */
  method ListPut(root: Node, thread: Node)
    requires root.Linked() && thread !in root.threads && thread != root
    modifies root`threadNext, root`threads, thread`threadNext, thread`threadPrev
    modifies Elements(root.threads)`threadNext, Elements(root.threads)`threadPrev
    ensures root.threads == Put(old(root.threads), thread)
    ensures root.Linked()
  {
    ghost var s := root.threads;
    var prev, next, k := FindPlace(root, thread.priority);
    LinkIn(root, thread, prev, next, k);
    root.threads := InsertAt(s, k, thread);
    InsertedLinks(root, s, k, thread);
  }

  /** The search loop of osRtxThreadBlock. */
  method FindFront(root: Node, priority: int) returns (prev: Node, next: Node?, ghost k: nat)
    requires root.Linked()
    ensures k == FrontIndex(root.threads, priority) && prev == Before(root, root.threads, k) &&
        next == At(root.threads, k)
  {
    ghost var s := root.threads;
    Spell(root);
    k := 0;
    prev := root;
    next := prev.threadNext;
    while next != null && next.priority > priority
      invariant 0 <= k <= |s|
      invariant prev == Before(root, s, k) && next == At(s, k)
      invariant forall i :: 0 <= i < k ==> s[i].priority > priority
      decreases |s| - k
    {
      prev := next;
      next := next.threadNext;
      k := k + 1;
    }
    FrontIndexIs(s, priority, k);
  }

  /** osRtxThreadBlock: the preempted thread goes before the ready threads of its own priority. */
  method ThreadBlock(ready: Node, thread: Node)
    requires ready.Linked() && thread !in ready.threads && thread != ready
    modifies ready`threadNext, ready`threads, thread`threadNext, thread`threadPrev
    modifies Elements(ready.threads)`threadNext, Elements(ready.threads)`threadPrev
    ensures ready.threads == PutFront(old(ready.threads), thread)
    ensures ready.Linked()
  {
    ghost var s := ready.threads;
    var prev, next, k := FindFront(ready, thread.priority);
    LinkIn(ready, thread, prev, next, k);
    ready.threads := InsertAt(s, k, thread);
    InsertedLinks(ready, s, k, thread);
  }

  ghost function Without(s: seq<Node>, i: nat): seq<Node>
    requires i < |s|
  {
    s[..i] + s[i+1..]
  }

  /** Links that spell out s, except that the i-th thread has been bypassed, spell out the shorter list. */
  lemma RemovedLinks(root: Node, s: seq<Node>, i: nat)
    requires Distinct(s) && root !in s && i < |s| && root.threads == Without(s, i)
    requires root.threadNext == if i == 0 then At(s, 1) else s[0]
    requires forall j :: 0 <= j < |s| && j != i ==> s[j].threadNext == if j == i - 1 then At(s, i + 1) else At(s, j + 1)
    requires forall j :: 0 <= j < |s| && j != i ==>
               s[j].threadPrev == if j == i + 1 then Before(root, s, i) else Before(root, s, j)
    ensures root.Linked()
  {
    var t := root.threads;
    RemovedDistinct(s, i);
    forall j | 0 <= j < |t| ensures root.LinkedAt(j) {
      if j < i {
        assert t[j] == s[j] && (j > 0 ==> t[j-1] == s[j-1]);
      } else {
        assert t[j] == s[j+1] && (j > i ==> t[j-1] == s[j]) && (0 < j == i ==> t[j-1] == s[j-1]);
      }
    }
  }

  lemma RemovedDistinct(s: seq<Node>, i: nat)
    requires Distinct(s) && i < |s|
    ensures Distinct(Without(s, i))
  {
    var t := Without(s, i);
    forall a, b | 0 <= a < b < |t| ensures Differ(t, a, b) {
      assert Differ(s, if a < i then a else a + 1, if b < i then b else b + 1);
    }
  }

  /** osRtxThreadListGet */
  method ListGet(root: Node) returns (thread: Node)
    requires root.Linked() && root.threads != []
    modifies root`threadNext, root`threads
    modifies Elements(root.threads)`threadPrev
    ensures thread == old(root.threads)[0] && thread.threadPrev == null
    ensures root.threads == old(root.threads)[1..]
    ensures root.Linked()
  {
    ghost var s := root.threads;
    Spell(root);
    OnlyAt(s, 0);
    if |s| > 1 {
      OnlyAt(s, 1);
    }
    thread := root.threadNext;
    root.threadNext := thread.threadNext;
    if thread.threadNext != null {
      thread.threadNext.threadPrev := root;
    }
    thread.threadPrev := null;
    root.threads := s[1..];
    assert root.threads == Without(s, 0);
    RemovedLinks(root, s, 0);
  }

  lemma WithoutSorted(s: seq<Node>, i: nat)
    requires Sorted(s) && i < |s|
    ensures Sorted(Without(s, i))
  {
    var r := Without(s, i);
    forall a, b | 0 <= a < b < |r| ensures InOrder(r, a, b) {
      assert InOrder(s, if a < i then a else a + 1, if b < i then b else b + 1);
    }
  }

  /** osRtxThreadListRemove; `root` and `i` say, for the proof, where a linked thread is.  A thread that is
      on no list is left alone. */
  method ListRemove(thread: Node, ghost root: Node, ghost i: nat)
    requires thread.threadPrev != null ==> root.Linked() && i < |root.threads| && root.threads[i] == thread
    modifies root`threadNext, root`threads, thread`threadPrev
    modifies Elements(root.threads)`threadNext, Elements(root.threads)`threadPrev
    ensures thread.threadPrev == null && thread.threadNext == old(thread.threadNext)
    ensures old(thread.threadPrev) != null ==> root.threads == Without(old(root.threads), i) && root.Linked()
    ensures old(thread.threadPrev) == null ==>
              && unchanged(root`threadNext, root`threads)
              && forall t: Node :: t in root.threads ==> unchanged(t`threadNext, t`threadPrev)
  {
    if thread.threadPrev != null {
      ghost var s := root.threads;
      Spell(root);
      OnlyAt(s, i);
      if i > 0 {
        OnlyAt(s, i - 1);
      }
      if i + 1 < |s| {
        OnlyAt(s, i + 1);
      }
      thread.threadPrev.threadNext := thread.threadNext;
      if thread.threadNext != null {
        thread.threadNext.threadPrev := thread.threadPrev;
      }
      thread.threadPrev := null;
      root.threads := Without(s, i);
      RemovedLinks(root, s, i);
    }
  }
}
