/** The waiter sweep of svcRtxEventFlagsSet and osRtxEventFlagsPostProcess, on values.

    Both walk the waiting threads in list order, check each against the flag word, and unlink and wake
    those whose condition is met; a clearing waiter takes its flags away before the next is checked. */
module Sweep {
  import opened Bits
  import opened FlagWord

  datatype Waiter<T> = Waiter(who: T, flags: Word, options: Word)
  datatype Wake<T> = Wake(waiter: Waiter<T>, value: Word)
  datatype Swept<T> = Swept(word: Word, kept: seq<Waiter<T>>, woken: seq<Wake<T>>)

  function Met<T>(word: Word, w: Waiter<T>): Word {
    Check(word, w.flags, w.options)
  }

  function After<T>(word: Word, w: Waiter<T>): Word {
    Checked(word, w.flags, w.options)
  }

  function Run<T>(word: Word, ws: seq<Waiter<T>>): Swept<T> {
    if ws == [] then Swept(word, [], [])
    else if Met(word, ws[0]) != {} then
      var r := Run(After(word, ws[0]), ws[1..]);
      Swept(r.word, r.kept, [Wake(ws[0], Met(word, ws[0]))] + r.woken)
    else
      var r := Run(word, ws[1..]);
      Swept(r.word, [ws[0]] + r.kept, r.woken)
  }

  /** One more waiter at the end of the list. */
  function OneMore<T>(r: Swept<T>, w: Waiter<T>): Swept<T> {
    if Met(r.word, w) != {} then Swept(After(r.word, w), r.kept, r.woken + [Wake(w, Met(r.word, w))])
    else Swept(r.word, r.kept + [w], r.woken)
  }

  /** A walk in progress: what has been swept so far is a sweep of the waiters visited so far. */
  lemma {:induction false} RunOneMore<T>(word: Word, ws: seq<Waiter<T>>, w: Waiter<T>)
    ensures Run(word, ws + [w]) == OneMore(Run(word, ws), w)
  {
    if ws == [] {
      assert [w][1..] == [];
    } else {
      assert (ws + [w])[1..] == ws[1..] + [w];
      RunOneMore(if Met(word, ws[0]) != {} then After(word, ws[0]) else word, ws[1..], w);
    }
  }

  // ---- What a sweep comes to ----

  /** The flags taken by those among `woken` that clear. */
  ghost function Taken<T>(woken: seq<Wake<T>>): Word {
    if woken == [] then {}
    else (if Clears(woken[0].waiter.options) then woken[0].waiter.flags else {}) + Taken(woken[1..])
  }

  /** The elements of s at the positions that carry `mark`, in order. */
  ghost function Pick<X>(s: seq<X>, marks: seq<bool>, mark: bool): seq<X>
    requires |s| == |marks|
  {
    if s == [] then [] else (if marks[0] == mark then [s[0]] else []) + Pick(s[1..], marks[1..], mark)
  }

  ghost function Waiters<T>(woken: seq<Wake<T>>): seq<Waiter<T>> {
    if woken == [] then [] else [woken[0].waiter] + Waiters(woken[1..])
  }

  /** Final flags: the flags at the start minus the wait flags of the woken clearing waiters. */
  lemma {:induction false} FinalFlags<T>(word: Word, ws: seq<Waiter<T>>)
    ensures Run(word, ws).word == word - Taken(Run(word, ws).woken)
  {
    if ws != [] {
      var w := ws[0];
      if Met(word, w) != {} {
        var r := Run(After(word, w), ws[1..]);
        FinalFlags(After(word, w), ws[1..]);
        assert Run(word, ws).woken[1..] == r.woken;
      } else {
        FinalFlags(word, ws[1..]);
      }
    }
  }

  /** Nobody who stays on the list is satisfied by what is left. */
  lemma {:induction false} NobodyLeftSatisfied<T>(word: Word, ws: seq<Waiter<T>>, w: Waiter<T>)
    requires w in Run(word, ws).kept
    ensures Met(Run(word, ws).word, w) == {}
  {
    if Met(word, ws[0]) != {} {
      NobodyLeftSatisfied(After(word, ws[0]), ws[1..], w);
    } else {
      var r := Run(word, ws[1..]);
      if w in r.kept {
        NobodyLeftSatisfied(word, ws[1..], w);
      } else {
        FinalFlags(word, ws[1..]);
        if Met(r.word, w) != {} {
          CheckMonotone(word, r.word, w.flags, w.options);
        }
      }
    }
  }

  /** Every waiter is visited once: the list splits into the kept and the woken, each in the original order. */
  lemma {:induction false} SplitsTheList<T>(word: Word, ws: seq<Waiter<T>>) returns (marks: seq<bool>)
    ensures |marks| == |ws|
    ensures Run(word, ws).kept == Pick(ws, marks, false)
    ensures Waiters(Run(word, ws).woken) == Pick(ws, marks, true)
    ensures |Run(word, ws).kept| + |Run(word, ws).woken| == |ws|
  {
    if ws == [] {
      marks := [];
    } else {
      var woken := Met(word, ws[0]) != {};
      var rest := SplitsTheList(if woken then After(word, ws[0]) else word, ws[1..]);
      marks := [woken] + rest;
      assert marks[1..] == rest;
      if woken {
        assert Run(word, ws).woken[1..] == Run(After(word, ws[0]), ws[1..]).woken;
      }
    }
  }

  /** Each delivered value is sound for the waiter that gets it. */
  lemma {:induction false} DeliveriesSound<T>(word: Word, ws: seq<Waiter<T>>, i: nat)
    requires ValidFlags(word) && i < |Run(word, ws).woken|
    ensures var d := Run(word, ws).woken[i];
            d.value != {} && ERROR !in d.value && Condition(d.value, d.waiter.flags, d.waiter.options)
  {
    var w := ws[0];
    if Met(word, w) != {} {
      if i == 0 {
        DeliveredSound(word, w.flags, w.options);
      } else {
        StillValid(word, w);
        DeliveriesSound(After(word, w), ws[1..], i - 1);
      }
    } else {
      DeliveriesSound(word, ws[1..], i);
    }
  }

  lemma StillValid<T>(word: Word, w: Waiter<T>)
    requires ValidFlags(word)
    ensures ValidFlags(After(word, w))
  {
  }

  /** What a delivery can carry was in the word when the sweep started. */
  lemma {:induction false} DeliveredFromWord<T>(word: Word, ws: seq<Waiter<T>>, i: nat)
    requires i < |Run(word, ws).woken|
    ensures Run(word, ws).woken[i].value <= word
  {
    if Met(word, ws[0]) != {} {
      if i > 0 {
        DeliveredFromWord(After(word, ws[0]), ws[1..], i - 1);
      }
    } else {
      DeliveredFromWord(word, ws[1..], i);
    }
  }

  /** No double consumption inside a sweep: what a clearing waiter took, no later waiter sees. */
  lemma {:induction false} TakenOnce<T>(word: Word, ws: seq<Waiter<T>>, i: nat, j: nat)
    requires i < j < |Run(word, ws).woken| && Clears(Run(word, ws).woken[i].waiter.options)
    ensures Run(word, ws).woken[j].value !! Run(word, ws).woken[i].waiter.flags
  {
    if Met(word, ws[0]) != {} {
      if i == 0 {
        DeliveredFromWord(After(word, ws[0]), ws[1..], j - 1);
      } else {
        TakenOnce(After(word, ws[0]), ws[1..], i - 1, j - 1);
      }
    } else {
      TakenOnce(word, ws[1..], i, j);
    }
  }

  lemma {:induction false} LongerSweep<T>(word: Word, ws: seq<Waiter<T>>, i: nat)
    requires i <= |ws|
    ensures Run(word, ws[..i]).woken <= Run(word, ws).woken && Run(word, ws[..i]).kept <= Run(word, ws).kept
    decreases |ws|
  {
    if i == |ws| {
      assert ws[..i] == ws;
    } else {
      var shorter := ws[..|ws|-1];
      LongerSweep(word, shorter, i);
      assert shorter[..i] == ws[..i] && ws == shorter + [ws[|ws|-1]];
      RunOneMore(word, shorter, ws[|ws|-1]);
    }
  }

  /** First come, first served, exactly: the i-th waiter is woken if and only if its condition is met by the
      flags at the start minus those that clearing waiters before it took; and what it gets is exactly those
      flags, all of them. */
  lemma FirstComeFirstServed<T>(word: Word, ws: seq<Waiter<T>>, i: nat)
    requires i < |ws|
    ensures var r, before, w := Run(word, ws), Run(word, ws[..i]), ws[i];
            var left := word - Taken(before.woken);
            && before.woken <= r.woken && before.kept <= r.kept
            && if left != {} && (if WAIT_ALL in w.options then w.flags <= left else w.flags * left != {})
               then |before.woken| < |r.woken| && r.woken[|before.woken|] == Wake(w, left)
               else |before.kept| < |r.kept| && r.kept[|before.kept|] == w
  {
    FinalFlags(word, ws[..i]);
    LongerSweep(word, ws, i);
    LongerSweep(word, ws, i + 1);
    assert ws[..i+1] == ws[..i] + [ws[i]];
    RunOneMore(word, ws[..i], ws[i]);
    var left, w := word - Taken(Run(word, ws[..i]).woken), ws[i];
    assert left * w.flags == w.flags * left && (left * w.flags == w.flags <==> w.flags <= left);
  }

  lemma {:induction false} NothingToDo<T>(word: Word, ws: seq<Waiter<T>>)
    requires forall w :: w in ws ==> Met(word, w) == {}
    ensures Run(word, ws) == Swept(word, ws, [])
  {
    if ws != [] {
      NothingToDo(word, ws[1..]);
    }
  }

  /** A second sweep with no new flags changes nothing. */
  lemma SweepIdempotent<T>(word: Word, ws: seq<Waiter<T>>)
    ensures var r := Run(word, ws);
            Run(r.word, r.kept) == Swept(r.word, r.kept, [])
  {
    var r := Run(word, ws);
    forall w | w in r.kept ensures Met(r.word, w) == {} {
      NobodyLeftSatisfied(word, ws, w);
    }
    NothingToDo(r.word, r.kept);
  }
}
