/**
 The recorder's invariant holds in every state of every interleaving.
 */
module RecorderInvariant {
  import opened Basics
  import opened RecorderModel

  // --------------------------------------------------------------- bookkeeping

  lemma {:induction false} HandsUpdate(ws: seq<Worker>, i: nat, w: Worker, r: nat)
    requires i < |ws|
    ensures TimesInHands(ws[i := w], r) + Times(Hand(ws[i]), r) == TimesInHands(ws, r) + Times(Hand(w), r)
  {
    var vs := ws[i := w];
    if i > 0 {
      HandsUpdate(ws[1..], i - 1, w, r);
      assert vs[1..] == ws[1..][i - 1 := w];
    } else {
      assert vs[1..] == ws[1..];
    }
  }

  lemma {:induction false} UncountedUpdate(ws: seq<Worker>, i: nat, w: Worker)
    requires i < |ws|
    ensures AllUncounted(ws[i := w]) + Uncounted(ws[i]) == AllUncounted(ws) + Uncounted(w)
  {
    var vs := ws[i := w];
    if i > 0 {
      UncountedUpdate(ws[1..], i - 1, w);
      assert vs[1..] == ws[1..][i - 1 := w];
    } else {
      assert vs[1..] == ws[1..];
    }
  }

  lemma TimesConcat(a: seq<nat>, b: seq<nat>, r: nat)
    ensures Times(a + b, r) == Times(a, r) + Times(b, r)
    ensures Times(a, r) > 0 <==> r in a
  {
    assert multiset(a + b) == multiset(a) + multiset(b);
  }

  lemma IncreasingConcat(a: seq<nat>, b: seq<nat>)
    ensures Increasing(a + b) <==> Increasing(a) && Increasing(b) && Below(a, b)
  {
    var c := a + b;
    assert forall i :: 0 <= i < |a| ==> c[i] == a[i];
    assert forall i :: 0 <= i < |b| ==> c[|a| + i] == b[i];
    if Increasing(c) {
      forall i, j | 0 <= i < j < |b|
        ensures b[i] < b[j]
      {
        assert c[|a| + i] < c[|a| + j];
      }
      forall x, y | x in a && y in b
        ensures x < y
      {
        var i :| 0 <= i < |a| && a[i] == x;
        var j :| 0 <= j < |b| && b[j] == y;
        assert c[i] < c[|a| + j];
      }
    }
    if Increasing(a) && Increasing(b) && Below(a, b) {
      forall i, j | 0 <= i < j < |c|
        ensures c[i] < c[j]
      {
        if i < |a| <= j { assert c[i] in a && c[j] in b; }
      }
    }
  }

  // ------------------------------------------------------ every step keeps them

  /** The records of worker `i` move to another place when it is replaced by `w`. */
  lemma ReplaceConserves(s: State, t: State, i: nat, w: Worker)
    requires i < |s.workers| && t.workers == s.workers[i := w] && t.ids == s.ids
    requires forall r: nat ::
      Times(t.lost, r) + Times(t.queue, r) + Times(t.table, r) + Times(t.discarded, r) + Times(Hand(w), r) ==
      Times(s.lost, r) + Times(s.queue, r) + Times(s.table, r) + Times(s.discarded, r) + Times(Hand(s.workers[i]), r)
    requires Conserved(s)
    ensures Conserved(t)
  {
    forall r: nat
      ensures Places(t, r) == if r < |t.ids| then 1 else 0
    {
      HandsUpdate(s.workers, i, w, r);
      assert Places(s, r) == if r < |s.ids| then 1 else 0;
    }
  }

  lemma SubmitConserves(s: State, id: int)
    requires Conserved(s)
    ensures Conserved(Submitted(s, id))
  {
    var t := Submitted(s, id);
    forall r: nat
      ensures Places(t, r) == if r < |t.ids| then 1 else 0
    {
      TimesConcat(s.queue, [|s.ids|], r);
      TimesConcat(s.lost, [|s.ids|], r);
      assert Places(s, r) == if r < |s.ids| then 1 else 0;
    }
  }

  lemma CollectConserves(s: State, i: nat, timedOut: bool)
    requires Conserved(s) && i < |s.workers| && s.workers[i] == Resting(Waiting)
    ensures Conserved(Collected(s, i, timedOut))
  {
    var k := Taken(s, timedOut);
    if k > 0 {
      var w := Worker(Persisting(0), s.queue[..k], false, false);
      forall r: nat
        ensures Times(s.queue, r) == Times(s.queue[k..], r) + Times(Hand(w), r)
      {
        TimesConcat(s.queue[..k], s.queue[k..], r);
        assert s.queue[..k] + s.queue[k..] == s.queue;
      }
      ReplaceConserves(s, Collected(s, i, timedOut), i, w);
    }
  }

  lemma GiveUpConserves(s: State, i: nat)
    requires Conserved(s) && i < |s.workers|
    ensures Conserved(GivenUp(s, i))
  {
    var w := s.workers[i];
    forall r: nat
      ensures Times(s.discarded + Hand(w), r) == Times(s.discarded, r) + Times(Hand(w), r)
    {
      TimesConcat(s.discarded, Hand(w), r);
    }
    ReplaceConserves(s, GivenUp(s, i), i, Resting(if w.last then Stopped else Sleeping));
  }

  /** Rows enter the table only when no row has their keys; so a stored batch never enters again. */
  lemma StoredConflicts(s: State, w: Worker)
    requires WorkerOk(s, w)
    ensures w.stored ==> Conflicts(s, w.batch)
  {
    if w.stored {
      var r := w.batch[0];
      assert r in w.batch && r in s.table;
    }
  }

  lemma InsertConserves(s: State, i: nat, t: State, w: Worker)
    requires Conserved(s) && i < |s.workers| && !s.workers[i].stored
    requires t.table == s.table + s.workers[i].batch && t.ids == s.ids
    requires t.lost == s.lost && t.queue == s.queue && t.discarded == s.discarded
    requires Hand(w) == [] && t.workers == s.workers[i := w]
    ensures Conserved(t)
  {
    forall r: nat
      ensures Times(t.table, r) == Times(s.table, r) + Times(s.workers[i].batch, r)
    {
      TimesConcat(s.table, s.workers[i].batch, r);
    }
    ReplaceConserves(s, t, i, w);
  }

  lemma AdvanceConserves(s: State, i: nat)
    requires Conserved(s) && i < |s.workers| && WorkerOk(s, s.workers[i])
    ensures Conserved(Advanced(s, i))
  {
    var w := s.workers[i];
    var t := Advanced(s, i);
    if w.phase.Committing? {
      if Conflicts(s, w.batch) {
        GiveUpConserves(s, i);
      } else {
        StoredConflicts(s, w);
        InsertConserves(s, i, t, t.workers[i]);
      }
    } else if InFlush(w.phase) {
      ReplaceConserves(s, t, i, t.workers[i]);
    }
  }

  lemma AbandonConserves(s: State, i: nat, took: bool)
    requires Conserved(s) && i < |s.workers| && WorkerOk(s, s.workers[i])
    ensures Conserved(Abandoned(s, i, took))
  {
    var w := s.workers[i];
    var t := Abandoned(s, i, took);
    if w.phase.Committing? && took {
      if !Conflicts(s, w.batch) {
        StoredConflicts(s, w);
        InsertConserves(s, i, t, t.workers[i]);
      }
    } else if w.phase.Closing? {
      ReplaceConserves(s, t, i, t.workers[i]);
    }
  }

  lemma InterruptConserves(s: State, i: nat, cancelled: bool, took: bool)
    requires Conserved(s) && i < |s.workers| && WorkerOk(s, s.workers[i])
    ensures Conserved(Interrupted(s, i, cancelled, took))
  {
    var w := s.workers[i];
    if InFlush(w.phase) {
      if w.phase.Publishing? && !cancelled {
        AdvanceConserves(s, i);
      } else {
        var t := Abandoned(s, i, took);
        AbandonConserves(s, i, took);
        if cancelled && !w.last {
          ReplaceConserves(t, Interrupted(s, i, cancelled, took), i, t.workers[i].(phase := Persisting(0), last := true));
        } else {
          GiveUpConserves(t, i);
        }
      }
    } else if cancelled {
      ReplaceConserves(s, Interrupted(s, i, cancelled, took), i, Resting(Stopped));
    }
  }

  // -- numbering, keys and bounds

  /** The table after a step: unchanged, or extended by a worker's batch that conflicts with nothing. */
  ghost predicate Extends(s: State, t: State) {
    t.table == s.table || exists i :: 0 <= i < |s.workers| && InsertsBatch(s, t, i)
  }

  ghost predicate InsertsBatch(s: State, t: State, i: nat) {
    i < |s.workers| && t.table == s.table + s.workers[i].batch && !Conflicts(s, s.workers[i].batch)
  }

  lemma ExtendKeyed(s: State, t: State)
    requires Keyed(s) && WellNumbered(s) && Extends(s, t) && s.ids <= t.ids
    ensures Keyed(t)
  {
    assert forall r :: r in s.table ==> KeyOf(t, r) == KeyOf(s, r);
    if t.table != s.table {
      var n :| 0 <= n < |s.workers| && InsertsBatch(s, t, n);
      var batch := s.workers[n].batch;
      assert forall r :: r in s.workers[n].batch ==> r < |s.ids| && KeyOf(t, r) == KeyOf(s, r);
      assert forall k :: 0 <= k < |batch| ==> batch[k] in s.workers[n].batch;
      forall i, j | 0 <= i < j < |t.table|
        ensures KeyOf(t, t.table[i]) != KeyOf(t, t.table[j])
      {
        if j >= |s.table| {
          assert t.table[j] == batch[j - |s.table|];
          if i >= |s.table| {
            assert t.table[i] == batch[i - |s.table|];
          } else {
            assert t.table[i] in s.table && t.table[j] in batch;
          }
        } else {
          assert t.table[i] == s.table[i] && t.table[j] == s.table[j];
          assert s.table[i] in s.table && s.table[j] in s.table;
          assert KeyOf(s, s.table[i]) != KeyOf(s, s.table[j]);
        }
      }
    } else {
      forall i, j | 0 <= i < j < |t.table|
        ensures KeyOf(t, t.table[i]) != KeyOf(t, t.table[j])
      {
        assert s.table[i] in s.table && s.table[j] in s.table;
        assert KeyOf(s, s.table[i]) != KeyOf(s, s.table[j]);
      }
    }
  }

  lemma NextExtends(s: State, step: Step)
    ensures Extends(s, Next(s, step)) && s.ids <= Next(s, step).ids
  {
    var t := Next(s, step);
    if t.table != s.table {
      var i := step.worker;
      assert InsertsBatch(s, t, i);
    }
  }

  lemma CollectNumbered(s: State, i: nat, timedOut: bool)
    requires WellNumbered(s) && i < |s.workers|
    ensures WellNumbered(Collected(s, i, timedOut))
  {
    assert forall r :: r in s.queue[..Taken(s, timedOut)] ==> r in s.queue;
    assert forall r :: r in s.queue[Taken(s, timedOut)..] ==> r in s.queue;
  }

  lemma AdvanceNumbered(s: State, i: nat)
    requires WellNumbered(s) && i < |s.workers|
    ensures WellNumbered(Advanced(s, i))
  {
  }

  lemma InterruptNumbered(s: State, i: nat, cancelled: bool, took: bool)
    requires WellNumbered(s) && i < |s.workers|
    ensures WellNumbered(Interrupted(s, i, cancelled, took))
  {
    AdvanceNumbered(s, i);
  }

  lemma NextNumbered(s: State, step: Step)
    requires WellNumbered(s)
    ensures WellNumbered(Next(s, step))
  {
    match step {
      case Submit(id) =>
      case Collect(i, timedOut) => if i < |s.workers| { CollectNumbered(s, i, timedOut); }
      case Advance(i) => if i < |s.workers| { AdvanceNumbered(s, i); }
      case Interrupt(i, cancelled, took) => if i < |s.workers| { InterruptNumbered(s, i, cancelled, took); }
      case Wake(i) =>
    }
  }

  lemma NextWorkersOk(s: State, step: Step)
    requires WorkersOk(s)
    ensures WorkersOk(Next(s, step))
  {
    match step {
      case Submit(id) =>
      case Collect(i, timedOut) =>
      case Advance(i) => AdvanceWorkersOk(s, i);
      case Interrupt(i, cancelled, took) => InterruptWorkersOk(s, i, cancelled, took);
      case Wake(i) =>
    }
  }

  lemma AdvanceWorkersOk(s: State, i: nat)
    requires WorkersOk(s)
    ensures i < |s.workers| ==> WorkersOk(Advanced(s, i))
  {
  }

  lemma InterruptWorkersOk(s: State, i: nat, cancelled: bool, took: bool)
    requires WorkersOk(s)
    ensures i < |s.workers| ==> WorkersOk(Interrupted(s, i, cancelled, took))
  {
    if i < |s.workers| {
      assert WorkerOk(s, s.workers[i]);
      AdvanceWorkersOk(s, i);
    }
  }

  lemma NextBounded(s: State, step: Step)
    requires Bounded(s) && WorkersOk(s)
    ensures Bounded(Next(s, step))
  {
    match step {
      case Submit(id) =>
      case Collect(i, timedOut) =>
        if i < |s.workers| && s.workers[i].phase.Waiting? {
          UncountedUpdate(s.workers, i, Worker(Persisting(0), s.queue[..Taken(s, timedOut)], false, false));
        }
      case Advance(i) => AdvanceBounded(s, i);
      case Interrupt(i, cancelled, took) => InterruptBounded(s, i, cancelled, took);
      case Wake(i) =>
        if i < |s.workers| {
          UncountedUpdate(s.workers, i, Resting(Waiting));
        }
    }
  }

  lemma GiveUpBounded(s: State, i: nat)
    requires Bounded(s) && i < |s.workers| && !s.workers[i].phase.Closing?
    ensures Bounded(GivenUp(s, i))
  {
    UncountedUpdate(s.workers, i, GivenUp(s, i).workers[i]);
  }

  lemma AdvanceBounded(s: State, i: nat)
    requires Bounded(s)
    ensures i < |s.workers| ==> Bounded(Advanced(s, i))
  {
    if i < |s.workers| {
      var w := s.workers[i];
      if w.phase.Committing? && Conflicts(s, w.batch) {
        GiveUpBounded(s, i);
      } else if InFlush(w.phase) {
        UncountedUpdate(s.workers, i, Advanced(s, i).workers[i]);
      }
    }
  }

  lemma AbandonBounded(s: State, i: nat, took: bool)
    requires Bounded(s) && i < |s.workers|
    ensures var t := Abandoned(s, i, took); Bounded(t) && |t.workers| == |s.workers| && !t.workers[i].phase.Closing?
  {
    UncountedUpdate(s.workers, i, Abandoned(s, i, took).workers[i]);
    assert s.workers[i := s.workers[i]] == s.workers;
  }

  lemma InterruptBounded(s: State, i: nat, cancelled: bool, took: bool)
    requires Bounded(s)
    ensures i < |s.workers| ==> Bounded(Interrupted(s, i, cancelled, took))
  {
    if i < |s.workers| {
      var w := s.workers[i];
      AdvanceBounded(s, i);
      if InFlush(w.phase) {
        var t := Abandoned(s, i, took);
        AbandonBounded(s, i, took);
        GiveUpBounded(t, i);
        UncountedUpdate(t.workers, i, t.workers[i].(phase := Persisting(0), last := true));
      } else {
        UncountedUpdate(s.workers, i, Resting(Stopped));
      }
    }
  }

  // -- order

  lemma SplitIncreasing(s: seq<nat>, k: nat)
    requires Increasing(s) && k <= |s|
    ensures Increasing(s[..k]) && Increasing(s[k..]) && Below(s[..k], s[k..])
  {
    assert s[..k] + s[k..] == s;
    IncreasingConcat(s[..k], s[k..]);
  }

  lemma SplitAfter(a: seq<nat>, s: seq<nat>, k: nat)
    requires k <= |s|
    ensures a + [] + s == a + s[..k] + s[k..] && forall r :: r in s[k..] ==> r in s
  {
    assert s == s[..k] + s[k..];
  }

  lemma DropMiddle(a: seq<nat>, b: seq<nat>, c: seq<nat>)
    requires Increasing(a + b + c)
    ensures Increasing(a + [] + c) && Increasing(a + b + [] + c)
  {
    IncreasingConcat(a + b, c);
    IncreasingConcat(a, b);
    assert a + [] == a && a + b + [] == a + b;
    forall x, y | x in a && y in c
      ensures x < y
    {
      assert x in a + b;
    }
    IncreasingConcat(a, c);
  }

  lemma SubmitInOrder(s: State, id: int)
    requires WellNumbered(s) && BatchesInOrder(s) && RowsInOrder(s)
    ensures BatchesInOrder(Submitted(s, id)) && RowsInOrder(Submitted(s, id))
  {
    var r := |s.ids|;
    IncreasingConcat(s.queue, [r]);
    if |s.workers| == 1 {
      var before := s.table + Hand(s.workers[0]);
      IncreasingConcat(before + s.queue, [r]);
      assert before + s.queue + [r] == before + (s.queue + [r]);
      assert forall x :: x in before ==> x in s.table || x in s.workers[0].batch;
    }
  }

  lemma CollectInOrder(s: State, i: nat, timedOut: bool)
    requires BatchesInOrder(s) && RowsInOrder(s) && i < |s.workers| && s.workers[i] == Resting(Waiting)
    ensures BatchesInOrder(Collected(s, i, timedOut)) && RowsInOrder(Collected(s, i, timedOut))
  {
    var k := Taken(s, timedOut);
    SplitIncreasing(s.queue, k);
    SplitAfter(s.table, s.queue, k);
  }

  /** A worker passes its batch on, to the table or nowhere, or keeps it. */
  ghost predicate PassesOn(s: State, t: State, i: nat) {
    && i < |s.workers| && t.queue == s.queue && |t.workers| == |s.workers|
    && t.workers == s.workers[i := t.workers[i]]
    && (t.workers[i].batch == s.workers[i].batch || t.workers[i].batch == [])
    && (|| (t.table == s.table && Hand(t.workers[i]) == Hand(s.workers[i]))
        || (t.table == s.table && Hand(t.workers[i]) == [])
        || (t.table == s.table + Hand(s.workers[i]) && Hand(t.workers[i]) == []))
  }

  lemma PassingKeepsOrder(s: State, t: State, i: nat)
    requires BatchesInOrder(s) && RowsInOrder(s) && PassesOn(s, t, i)
    ensures BatchesInOrder(t) && RowsInOrder(t)
  {
    if |s.workers| == 1 {
      DropMiddle(s.table, Hand(s.workers[0]), s.queue);
    }
  }

  lemma AdvancePasses(s: State, i: nat)
    requires WorkersOk(s) && i < |s.workers|
    ensures PassesOn(s, Advanced(s, i), i)
  {
    var w := s.workers[i];
    assert WorkerOk(s, w);
    StoredConflicts(s, w);
    assert s.workers[i := w] == s.workers;
  }

  lemma AbandonPasses(s: State, i: nat, took: bool)
    requires WorkersOk(s) && i < |s.workers|
    ensures PassesOn(s, Abandoned(s, i, took), i)
  {
    var w := s.workers[i];
    assert WorkerOk(s, w);
    StoredConflicts(s, w);
    assert s.workers[i := w] == s.workers;
  }

  lemma InterruptInOrder(s: State, i: nat, cancelled: bool, took: bool)
    requires WorkersOk(s) && BatchesInOrder(s) && RowsInOrder(s) && i < |s.workers|
    ensures var u := Interrupted(s, i, cancelled, took); BatchesInOrder(u) && RowsInOrder(u)
  {
    var w := s.workers[i];
    var u := Interrupted(s, i, cancelled, took);
    if InFlush(w.phase) {
      if w.phase.Publishing? && !cancelled {
        AdvancePasses(s, i);
        PassingKeepsOrder(s, u, i);
      } else {
        var t := Abandoned(s, i, took);
        AbandonPasses(s, i, took);
        PassingKeepsOrder(s, t, i);
        PassingKeepsOrder(t, u, i);
      }
    } else {
      assert WorkerOk(s, w);
      assert s.workers[i := w] == s.workers;
      PassingKeepsOrder(s, u, i);
    }
  }

  lemma NextInOrder(s: State, step: Step)
    requires WellNumbered(s) && WorkersOk(s) && BatchesInOrder(s) && RowsInOrder(s)
    ensures BatchesInOrder(Next(s, step)) && RowsInOrder(Next(s, step))
  {
    match step {
      case Submit(id) => SubmitInOrder(s, id);
      case Collect(i, timedOut) =>
        if i < |s.workers| && s.workers[i].phase.Waiting? {
          assert WorkerOk(s, s.workers[i]);
          CollectInOrder(s, i, timedOut);
        }
      case Advance(i) =>
        if i < |s.workers| {
          AdvancePasses(s, i);
          PassingKeepsOrder(s, Advanced(s, i), i);
        }
      case Interrupt(i, cancelled, took) =>
        if i < |s.workers| { InterruptInOrder(s, i, cancelled, took); }
      case Wake(i) =>
        if i < |s.workers| && s.workers[i].phase.Sleeping? {
          assert WorkerOk(s, s.workers[i]);
          PassingKeepsOrder(s, Woken(s, i), i);
        }
    }
  }

  lemma NextConserved(s: State, step: Step)
    requires Conserved(s) && WorkersOk(s)
    ensures Conserved(Next(s, step))
  {
    match step {
      case Submit(id) => SubmitConserves(s, id);
      case Collect(i, timedOut) =>
        if i < |s.workers| && s.workers[i].phase.Waiting? {
          assert WorkerOk(s, s.workers[i]);
          CollectConserves(s, i, timedOut);
        }
      case Advance(i) =>
        if i < |s.workers| {
          assert WorkerOk(s, s.workers[i]);
          AdvanceConserves(s, i);
        }
      case Interrupt(i, cancelled, took) =>
        if i < |s.workers| {
          assert WorkerOk(s, s.workers[i]);
          InterruptConserves(s, i, cancelled, took);
        }
      case Wake(i) =>
        if i < |s.workers| && s.workers[i].phase.Sleeping? {
          assert WorkerOk(s, s.workers[i]);
          ReplaceConserves(s, Woken(s, i), i, Resting(Waiting));
        }
    }
  }

  // ------------------------------------------------------------------ every run

  /** Every step of every party keeps the invariant. */
  lemma NextInv(s: State, step: Step)
    requires Inv(s)
    ensures Inv(Next(s, step))
  {
    NextConserved(s, step);
    NextNumbered(s, step);
    NextWorkersOk(s, step);
    NextBounded(s, step);
    NextExtends(s, step);
    ExtendKeyed(s, Next(s, step));
    NextInOrder(s, step);
  }

  /** The state after any interleaving of steps. */
  function Run(s: State, steps: seq<Step>): State
    decreases |steps|
  {
    if steps == [] then s else Run(Next(s, steps[0]), steps[1..])
  }

  lemma {:induction false} RunInv(s: State, steps: seq<Step>)
    requires Inv(s)
    ensures Inv(Run(s, steps))
    decreases |steps|
  {
    if steps != [] {
      NextInv(s, steps[0]);
      RunInv(Next(s, steps[0]), steps[1..]);
    }
  }

  lemma {:induction false} RestingHands(ws: seq<Worker>)
    requires forall i :: 0 <= i < |ws| ==> ws[i] == Resting(Waiting)
    ensures AllUncounted(ws) == 0 && forall r: nat :: TimesInHands(ws, r) == 0
  {
    if ws != [] {
      RestingHands(ws[1..]);
    }
  }

  /** The invariant holds after any run of a new recorder with any number of workers. */
  lemma RecorderInv(capacity: int, batchSize: int, workers: nat, steps: seq<Step>)
    ensures Inv(Run(Initial(capacity, batchSize, workers), steps))
  {
    var s := Initial(capacity, batchSize, workers);
    RestingHands(s.workers);
    if workers == 1 { assert s.table + Hand(s.workers[0]) + s.queue == []; }
    RunInv(s, steps);
  }
}
