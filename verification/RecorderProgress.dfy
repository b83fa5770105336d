/**
 What the steps of the recorder achieve: nothing is dropped without need, what is collected
 is stored when nothing fails, and a failure costs exactly its batch.
 */
module RecorderProgress {
  import opened Basics
  import opened RecorderModel
  import opened RecorderInvariant
  import opened Recorder

  /** A new recorder has nothing anywhere and all its workers waiting. */
  lemma InitialMeaning(capacity: int, batchSize: int, workers: nat)
    ensures var s := Initial(capacity, batchSize, workers);
      && s.capacity == capacity && s.batchSize == batchSize && |s.workers| == workers
      && (forall i :: 0 <= i < workers ==> s.workers[i] == Worker(Waiting, [], false, false))
      && s.ids == [] && s.queue == [] && s.lost == [] && s.table == [] && s.discarded == [] && s.written == 0 && s.missed == 0
  {
  }

  // -------------------------------------------------------------------- submitting

  predicate IsFull(s: State) {
    0 < s.capacity <= |s.queue|
  }

  /** A record is turned away if and only if the queue is full; otherwise it goes to the end of the queue. */
  lemma SubmitIff(s: State, id: int)
    ensures var t := Next(s, Submit(id));
      && (IsFull(s) <==> t.lost != s.lost)
      && (IsFull(s) ==> t.lost == s.lost + [|s.ids|] && t.queue == s.queue)
      && (!IsFull(s) ==> t.lost == s.lost && t.queue == s.queue + [|s.ids|])
      && t.ids == s.ids + [id] && t.workers == s.workers && t.table == s.table
      && t.discarded == s.discarded && t.written == s.written && t.missed == s.missed
  {
    assert IsFull(s) ==> |Next(s, Submit(id)).lost| == |s.lost| + 1;
  }

  /** The queue is never full when a record is submitted. */
  ghost predicate NeverFull(s: State, steps: seq<Step>)
    decreases |steps|
  {
    steps == [] || ((steps[0].Submit? ==> !IsFull(s)) && NeverFull(Next(s, steps[0]), steps[1..]))
  }

  /** Only submits turn records away. */
  lemma OthersLoseNothing(s: State, step: Step)
    requires !step.Submit?
    ensures Next(s, step).lost == s.lost
  {
  }

  /** A run drops a record if and only if the queue is full at some submit. */
  lemma {:induction false} DropsIff(s: State, steps: seq<Step>)
    ensures |Run(s, steps).lost| >= |s.lost|
    ensures |Run(s, steps).lost| == |s.lost| <==> NeverFull(s, steps)
    decreases |steps|
  {
    if steps != [] {
      var t := Next(s, steps[0]);
      DropsIff(t, steps[1..]);
      if steps[0].Submit? {
        SubmitIff(s, steps[0].id);
      } else {
        OthersLoseNothing(s, steps[0]);
      }
    }
  }

  // -------------------------------------------------------------------- collecting

  /** Everything about the state but the queue, the table, the counters and one worker stays. */
  predicate OnlyWorker(s: State, t: State, i: nat) {
    && i < |s.workers| == |t.workers| && t.workers == s.workers[i := t.workers[i]]
    && t.capacity == s.capacity && t.batchSize == s.batchSize && t.ids == s.ids && t.lost == s.lost
  }

  /**
   A waiting worker that gets a record, or times out, takes as many records from the front of
   the queue as the batch size allows: one in any case if it got a record. It then flushes
   them, or waits again if there are none.
   */
  lemma CollectTakes(s: State, i: nat, timedOut: bool)
    requires i < |s.workers| && s.workers[i] == Resting(Waiting) && (timedOut || s.queue != [])
    ensures var t := Next(s, Step.Collect(i, timedOut));
      var batch := t.workers[i].batch;
      && OnlyWorker(s, t, i) && t.table == s.table && t.discarded == s.discarded && t.written == s.written
      && s.queue == batch + t.queue
      && (if batch == [] then t.workers[i] == Resting(Waiting) else t.workers[i] == Worker(Persisting(0), batch, false, false))
      && (!timedOut ==> batch != [])
      && (|batch| < s.batchSize ==> t.queue == [])
      && (|batch| > Max(0, s.batchSize) ==> !timedOut && |batch| == 1)
  {
    var k := Taken(s, timedOut);
    assert s.queue == s.queue[..k] + s.queue[k..];
  }

  // ---------------------------------------------------------------------- flushing

  /** `n` successful steps of one worker. */
  function Advances(i: nat, n: nat): seq<Step> {
    if n == 0 then [] else [Advance(i)] + Advances(i, n - 1)
  }

  lemma AdvanceOnce(s: State, i: nat, n: nat)
    requires n > 0 && i < |s.workers|
    ensures Run(s, Advances(i, n)) == Run(Advanced(s, i), Advances(i, n - 1))
  {
    assert Advances(i, n)[1..] == Advances(i, n - 1);
  }

  /** What a flush that succeeds makes of the state. */
  function Flushed(s: State, i: nat): State
    requires i < |s.workers|
  {
    var w := s.workers[i];
    s.(table := s.table + w.batch, written := s.written + |w.batch|,
       workers := s.workers[i := Worker(if w.last then Stopped else Waiting, [], false, false)])
  }

  /** From the commit on, three steps store the batch, count it and end the flush. */
  lemma CommitStores(s: State, i: nat)
    requires i < |s.workers| && s.workers[i].phase.Committing? && !Conflicts(s, s.workers[i].batch)
    ensures Run(s, Advances(i, 3)) == Flushed(s, i)
  {
    var w := s.workers[i];
    var t := Advanced(s, i);
    AdvanceOnce(s, i, 3);
    assert t == s.(table := s.table + w.batch, workers := s.workers[i := w.(phase := Closing, stored := true)]);
    var u := Advanced(t, i);
    AdvanceOnce(t, i, 2);
    assert u == t.(written := s.written + |w.batch|, workers := s.workers[i := w.(phase := Publishing, stored := true)]);
    AdvanceOnce(u, i, 1);
    var v := Advanced(u, i);
    assert v == Flushed(s, i);
    assert Advances(i, 0) == [];
  }

  /** The steps that a flush takes from a phase of its uploads on. */
  function StepsLeft(w: Worker): nat
    requires w.phase.Persisting? && w.phase.done <= |w.batch|
  {
    |w.batch| - w.phase.done + 4
  }

  /**
   A batch whose keys conflict with nothing is stored and counted when nothing fails, all of
   it, in order, after what the table holds, and its worker waits again or has stopped.
   */
  lemma {:induction false} FlushStores(s: State, i: nat)
    requires i < |s.workers| && s.workers[i].phase.Persisting? && s.workers[i].phase.done <= |s.workers[i].batch|
    requires !Conflicts(s, s.workers[i].batch)
    ensures Run(s, Advances(i, StepsLeft(s.workers[i]))) == Flushed(s, i)
    decreases StepsLeft(s.workers[i])
  {
    var w := s.workers[i];
    var t := Advanced(s, i);
    AdvanceOnce(s, i, StepsLeft(w));
    SameConflicts(s, t, w.batch);
    if w.phase.done < |w.batch| {
      assert t.workers[i] == w.(phase := Persisting(w.phase.done + 1));
      FlushStores(t, i);
    } else {
      assert t.workers[i] == w.(phase := Committing);
      CommitStores(t, i);
    }
    assert s.workers[i := t.workers[i]][i := Flushed(s, i).workers[i]] == s.workers[i := Flushed(s, i).workers[i]];
  }

  lemma SameConflicts(s: State, t: State, batch: seq<nat>)
    requires t.ids == s.ids && t.table == s.table
    ensures Conflicts(t, batch) <==> Conflicts(s, batch)
  {
    assert forall r :: KeyOf(t, r) == KeyOf(s, r);
  }

  /**
   From every reachable state with distinct record ids: what a waiting worker collects is
   stored, exactly once and in order, when no step of its flush fails.
   */
  lemma CollectedIsStored(s: State, i: nat, timedOut: bool)
    requires Inv(s) && DistinctKeys(s) && i < |s.workers| && s.workers[i].phase.Waiting? && (timedOut || s.queue != [])
    ensures var t := Next(s, Step.Collect(i, timedOut));
      var batch := t.workers[i].batch;
      batch != [] ==>
        var u := Run(t, Advances(i, |batch| + 4));
        && u.table == s.table + batch && u.written == s.written + |batch| && s.queue == batch + u.queue
        && u.discarded == s.discarded && u.workers == s.workers
  {
    assert WorkerOk(s, s.workers[i]);
    CollectTakes(s, i, timedOut);
    NextInv(s, Step.Collect(i, timedOut));
    var t := Next(s, Step.Collect(i, timedOut));
    if t.workers[i].batch != [] {
      RefusedIffStored(t, i);
      FlushStores(t, i);
      assert t.workers[i := s.workers[i]] == s.workers;
    }
  }

  // ----------------------------------------------------------------------- failing

  /** An error before the commit loses the batch, and nothing but the batch; the worker backs off and waits again. */
  lemma FailureCostsBatch(s: State, i: nat)
    requires Inv(s) && i < |s.workers| && (s.workers[i].phase.Persisting? || s.workers[i].phase.Committing?)
    requires !s.workers[i].last
    ensures var t := Next(s, Interrupt(i, false, false));
      && OnlyWorker(s, t, i) && t.table == s.table && t.queue == s.queue && t.written == s.written
      && t.discarded == s.discarded + s.workers[i].batch && t.workers[i] == Resting(Sleeping)
      && Next(t, Wake(i)) == t.(workers := t.workers[i := Resting(Waiting)])
  {
    assert WorkerOk(s, s.workers[i]);
  }

  /** An error while the live events are sent changes nothing. */
  lemma PublishErrorsAreSwallowed(s: State, i: nat, took: bool)
    requires i < |s.workers| && s.workers[i].phase.Publishing?
    ensures Next(s, Interrupt(i, false, took)) == Next(s, Advance(i))
  {
  }

  /** A conflicting insert fails the same way. */
  lemma ConflictCostsBatch(s: State, i: nat)
    requires Inv(s) && i < |s.workers| && s.workers[i].phase.Committing? && !s.workers[i].last
    requires Conflicts(s, s.workers[i].batch)
    ensures var t := Next(s, Advance(i));
      && OnlyWorker(s, t, i) && t.table == s.table && t.queue == s.queue && t.written == s.written
      && t.discarded == s.discarded + s.workers[i].batch && t.workers[i] == Resting(Sleeping)
  {
    assert WorkerOk(s, s.workers[i]);
  }

  /**
   A worker cancelled in a flush before its commit flushes its batch once more: when that
   succeeds every record of it is stored, and the worker has stopped.
   */
  lemma CancelledBatchIsStored(s: State, i: nat, took: bool)
    requires Inv(s) && DistinctKeys(s) && i < |s.workers| && !s.workers[i].last
    requires s.workers[i].phase.Persisting? || (s.workers[i].phase.Committing? && !took)
    ensures var t := Next(s, Interrupt(i, true, took));
      var batch := s.workers[i].batch;
      var u := Run(t, Advances(i, |batch| + 4));
      u.table == s.table + batch && u.written == s.written + |batch| && u.queue == s.queue && u.workers == s.workers[i := Resting(Stopped)]
  {
    assert WorkerOk(s, s.workers[i]);
    NextInv(s, Interrupt(i, true, took));
    var t := Next(s, Interrupt(i, true, took));
    assert t.workers[i] == Worker(Persisting(0), s.workers[i].batch, true, false);
    RefusedIffStored(t, i);
    FlushStores(t, i);
  }

  /** A worker cancelled while it waits or backs off stops at once and takes nothing. */
  lemma IdleStops(s: State, i: nat, took: bool)
    requires i < |s.workers| && (s.workers[i].phase.Waiting? || s.workers[i].phase.Sleeping?)
    ensures Next(s, Interrupt(i, true, took)) == s.(workers := s.workers[i := Resting(Stopped)])
  {
  }
}
