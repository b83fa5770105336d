/**
 What the recorder's invariant means for the captured flows, and the object that keeps it.
 */
module Recorder {
  import opened Basics
  import opened RecorderModel
  import opened RecorderInvariant

  // --------------------------------------------------------------- consequences

  ghost predicate DistinctKeys(s: State) {
    forall i, j :: 0 <= i < j < |s.ids| ==> s.ids[i] != s.ids[j]
  }

  lemma {:induction false} HandsContain(ws: seq<Worker>, i: nat, r: nat)
    requires i < |ws|
    ensures Times(Hand(ws[i]), r) <= TimesInHands(ws, r)
  {
    if i > 0 {
      HandsContain(ws[1..], i - 1, r);
    }
  }

  /**
   At most once: with distinct record ids, the insert of a flush is refused exactly when
   its rows are in the table already. So the flush made while being cancelled never stores
   a record twice, and no other flush is turned away.
   */
  lemma RefusedIffStored(s: State, i: nat)
    requires Inv(s) && DistinctKeys(s) && i < |s.workers| && InFlush(s.workers[i].phase)
    ensures Conflicts(s, s.workers[i].batch) <==> s.workers[i].stored
  {
    var w := s.workers[i];
    assert WorkerOk(s, w);
    StoredConflicts(s, w);
    if !w.stored {
      forall j, k | 0 <= j < k < |w.batch|
        ensures KeyOf(s, w.batch[j]) != KeyOf(s, w.batch[k])
      {
        assert w.batch[j] in w.batch && w.batch[k] in w.batch && w.batch[j] < w.batch[k];
      }
      forall r, t | r in w.batch && t in s.table
        ensures KeyOf(s, r) != KeyOf(s, t)
      {
        HandsContain(s.workers, i, r);
        TimesConcat(Hand(w), [], r);
        TimesConcat(s.table, [], r);
        assert Places(s, r) == if r < |s.ids| then 1 else 0;
        assert r != t && r < |s.ids| && t < |s.ids|;
      }
    }
  }

  /** With one worker the table lists its rows in the order of submission. */
  lemma OneWorkerInOrder(capacity: int, batchSize: int, steps: seq<Step>)
    ensures Increasing(Run(Initial(capacity, batchSize, 1), steps).table)
  {
    var s := Run(Initial(capacity, batchSize, 1), steps);
    RecorderInv(capacity, batchSize, 1, steps);
    RunWorkers(Initial(capacity, batchSize, 1), steps);
    IncreasingConcat(s.table + Hand(s.workers[0]), s.queue);
    IncreasingConcat(s.table, Hand(s.workers[0]));
  }

  lemma {:induction false} RunWorkers(s: State, steps: seq<Step>)
    ensures |Run(s, steps).workers| == |s.workers|
    decreases |steps|
  {
    if steps != [] {
      RunWorkers(Next(s, steps[0]), steps[1..]);
    }
  }

  /** The step leaves committed rows uncounted. */
  predicate HidesRows(s: State, step: Step) {
    && step.Interrupt? && step.worker < |s.workers|
    && var w := s.workers[step.worker];
       w.phase.Closing? || (w.phase.Committing? && step.took && !Conflicts(s, w.batch))
  }

  /** Rows go uncounted exactly when a flush is interrupted between its commit and its count. */
  lemma MissedIff(s: State, step: Step)
    requires WorkersOk(s)
    ensures Next(s, step).missed >= s.missed
    ensures Next(s, step).missed > s.missed <==> HidesRows(s, step)
  {
    if step.Interrupt? && step.worker < |s.workers| {
      assert WorkerOk(s, s.workers[step.worker]);
    }
  }

  ghost predicate NeverHidesRows(s: State, steps: seq<Step>)
    decreases |steps|
  {
    steps == [] || (!HidesRows(s, steps[0]) && NeverHidesRows(Next(s, steps[0]), steps[1..]))
  }

  /** `written` never exceeds the committed rows, and counts them all in a run without such interruptions. */
  lemma {:induction false} WrittenCounts(s: State, steps: seq<Step>)
    requires Inv(s)
    ensures var t := Run(s, steps);
      && t.written <= |t.table|
      && (s.missed == 0 && NeverHidesRows(s, steps) ==> t.written + AllUncounted(t.workers) == |t.table|)
    decreases |steps|
  {
    if steps != [] {
      NextInv(s, steps[0]);
      MissedIff(s, steps[0]);
      WrittenCounts(Next(s, steps[0]), steps[1..]);
    }
  }

  // ------------------------------------------------------------------- shutdown

  /** The worker has stopped, or makes the flush that ends it. */
  predicate Ending(w: Worker) {
    w.phase.Stopped? || w.last
  }

  ghost predicate AllEnding(s: State) {
    forall i :: 0 <= i < |s.workers| ==> Ending(s.workers[i])
  }

  function WorkerOf(step: Step): nat {
    match step case Submit(_) => 0 case Collect(i, _) => i case Advance(i) => i case Interrupt(i, _, _) => i case Wake(i) => i
  }

  /** A step that can happen once every worker has been told to stop: the next thing a worker sees is that. */
  predicate InShutdown(s: State, step: Step) {
    || step.Submit?
    || WorkerOf(step) >= |s.workers|
    || (step.Interrupt? && step.cancelled)
    || Ending(s.workers[WorkerOf(step)])
  }

  ghost predicate Shutdown(s: State, steps: seq<Step>)
    decreases |steps|
  {
    steps == [] || (InShutdown(s, steps[0]) && Shutdown(Next(s, steps[0]), steps[1..]))
  }

  /** What shutdown leaves of the queue: all of it, with later submissions after it. */
  ghost predicate Left(s: State, t: State) {
    && s.queue <= t.queue && |s.ids| <= |t.ids|
    && forall i :: |s.queue| <= i < |t.queue| ==> t.queue[i] >= |s.ids|
  }

  lemma ShutdownStep(s: State, step: Step)
    requires Inv(s) && InShutdown(s, step)
    ensures Left(s, Next(s, step)) && (AllEnding(s) ==> AllEnding(Next(s, step)))
  {
    if !step.Submit? && WorkerOf(step) < |s.workers| {
      assert WorkerOk(s, s.workers[WorkerOf(step)]);
    }
  }

  lemma LeftTwice(s: State, t: State, u: State)
    requires Left(s, t) && Left(t, u)
    ensures Left(s, u)
  {
    forall i | |s.queue| <= i < |u.queue|
      ensures u.queue[i] >= |s.ids|
    {
      if i < |t.queue| { assert t.queue[i] == u.queue[i]; }
    }
  }

  lemma QueuedIsNotStored(s: State, r: nat)
    requires Inv(s) && r in s.queue
    ensures r !in s.table && r !in s.discarded && TimesInHands(s.workers, r) == 0
  {
    assert Places(s, r) == if r < |s.ids| then 1 else 0;
    assert Times(s.queue, r) >= 1;
  }

  lemma {:induction false} ShutdownRun(s: State, steps: seq<Step>)
    requires Inv(s) && Shutdown(s, steps)
    ensures var t := Run(s, steps); Inv(t) && Left(s, t) && (AllEnding(s) ==> AllEnding(t))
    decreases |steps|
  {
    if steps != [] {
      var t := Next(s, steps[0]);
      NextInv(s, steps[0]);
      ShutdownStep(s, steps[0]);
      ShutdownRun(t, steps[1..]);
      LeftTwice(s, t, Run(t, steps[1..]));
    }
  }

  /**
   Shutdown stores nothing that was queued when it began: whatever happens afterwards, the
   queue stays, and none of its records is ever in the table or in a worker's hands.
   */
  lemma ShutdownAbandonsQueue(s: State, steps: seq<Step>)
    requires Inv(s) && Shutdown(s, steps)
    ensures var t := Run(s, steps);
      && s.queue <= t.queue
      && forall r :: r in s.queue ==> r !in t.table && r !in t.discarded && TimesInHands(t.workers, r) == 0
  {
    ShutdownRun(s, steps);
    var t := Run(s, steps);
    forall r | r in s.queue
      ensures r !in t.table && r !in t.discarded && TimesInHands(t.workers, r) == 0
    {
      assert r in t.queue;
      QueuedIsNotStored(t, r);
    }
  }

  /** So no record accepted before the shutdown is left behind if and only if the queue was empty when it began. */
  lemma NothingLeftBehindIff(s: State, steps: seq<Step>)
    requires Inv(s) && Shutdown(s, steps)
    ensures NoneLeftOf(s, Run(s, steps)) <==> s.queue == []
  {
    ShutdownRun(s, steps);
    LeftOf(s, Run(s, steps));
  }

  /** No record submitted by the time of `s` is queued at the time of `t`. */
  ghost predicate NoneLeftOf(s: State, t: State) {
    forall r :: r in t.queue ==> r >= |s.ids|
  }

  lemma LeftOf(s: State, t: State)
    requires WellNumbered(s) && Left(s, t)
    ensures NoneLeftOf(s, t) <==> s.queue == []
  {
    if s.queue != [] {
      assert s.queue[0] in s.queue && t.queue[0] == s.queue[0] && t.queue[0] in t.queue;
    }
  }

  /** Once all workers are ending, every further step is one of the shutdown. */
  lemma {:induction false} EndingIsShutdown(s: State, steps: seq<Step>)
    requires Inv(s) && AllEnding(s)
    ensures Shutdown(s, steps)
    decreases |steps|
  {
    if steps != [] {
      NextInv(s, steps[0]);
      ShutdownStep(s, steps[0]);
      EndingIsShutdown(Next(s, steps[0]), steps[1..]);
    }
  }

  /** What `stop` does to the workers from number `i` on; `took` tells which commits took effect. */
  function Cancels(took: seq<bool>, i: nat): seq<Step>
    requires i <= |took|
    decreases |took| - i
  {
    if i == |took| then [] else [Interrupt(i, true, took[i])] + Cancels(took, i + 1)
  }

  lemma CancelStep(s: State, i: nat, took: bool)
    requires Inv(s) && i < |s.workers|
    ensures var t := Next(s, Interrupt(i, true, took));
      && Ending(t.workers[i]) && t.queue == s.queue && t.ids == s.ids && |t.workers| == |s.workers|
      && forall j :: 0 <= j < |s.workers| && j != i ==> t.workers[j] == s.workers[j]
  {
    assert WorkerOk(s, s.workers[i]);
  }

  /** Cancelling every worker leaves all of them ending and the queue as it was. */
  lemma {:induction false} CancelsEnd(s: State, took: seq<bool>, i: nat)
    requires Inv(s) && |took| == |s.workers| && i <= |took|
    requires forall j :: 0 <= j < i ==> Ending(s.workers[j])
    ensures var t := Run(s, Cancels(took, i));
      Shutdown(s, Cancels(took, i)) && Inv(t) && AllEnding(t) && t.queue == s.queue && t.ids == s.ids
    decreases |took| - i
  {
    if i < |took| {
      var step := Interrupt(i, true, took[i]);
      CancelStep(s, i, took[i]);
      NextInv(s, step);
      CancelsEnd(Next(s, step), took, i + 1);
      assert Cancels(took, i)[1..] == Cancels(took, i + 1);
    }
  }

  /** In particular for `stop`, which cancels every worker and waits, whatever happens from then on. */
  lemma StopLeavesNoneIff(s: State, took: seq<bool>, steps: seq<Step>)
    requires Inv(s) && |took| == |s.workers|
    ensures NoneLeftOf(s, Run(Run(s, Cancels(took, 0)), steps)) <==> s.queue == []
  {
    CancelsEnd(s, took, 0);
    var t := Run(s, Cancels(took, 0));
    EndingIsShutdown(t, steps);
    NothingLeftBehindIff(t, steps);
  }

  /** A record submitted just before shutdown is left behind. */
  lemma ShutdownLeavesRecord(id: int)
    ensures var s := Run(Initial(10, 50, 1), [Submit(id), Interrupt(0, true, false)]);
      AllEnding(s) && s.queue == [0] && s.table == []
  {
    var s := Initial(10, 50, 1);
    var steps := [Submit(id), Interrupt(0, true, false)];
    var t := Next(s, steps[0]);
    assert steps[1..] == [Interrupt(0, true, false)] && steps[1..][1..] == [];
    assert s.workers[0] == Resting(Waiting);
    assert Run(s, steps) == Run(t, steps[1..]) == Run(Next(t, Interrupt(0, true, false)), []);
  }

  // ----------------------------------------------------------------- the recorder

  /** The object the connection handlers and the workers share. */
  class Recorder {
    const capacity: int
    const batchSize: int
    var queue: seq<nat>
    var dropped: nat
    var written: nat
    /** The state of the whole pipeline. */
    ghost var state: State

    ghost predicate Valid()
      reads this
    {
      && Inv(state) && state.capacity == capacity && state.batchSize == batchSize
      && queue == state.queue && dropped == |state.lost| && written == state.written
    }

    constructor (capacity: int, batchSize: int, ghost workers: nat)
      ensures Valid() && state == Initial(capacity, batchSize, workers)
    {
      this.capacity, this.batchSize := capacity, batchSize;
      queue, dropped, written := [], 0, 0;
      state := Initial(capacity, batchSize, workers);
      new;
      RecorderInv(capacity, batchSize, workers, []);
    }

    /** Non-blocking hand-off: a full queue drops the record and counts it. */
    method Submit(record: nat, ghost id: int)
      requires Valid() && record == |state.ids|
      modifies this
      ensures Valid() && state == Next(old(state), Step.Submit(id))
    {
      NextInv(state, Step.Submit(id));
      state := Next(state, Step.Submit(id));
      if capacity <= 0 || |queue| < capacity {
        queue := queue + [record];
      } else {
        dropped := dropped + 1;
      }
    }

    /** A worker wakes up with a record or the timeout and tops its batch up. */
    method Collect(timedOut: bool, ghost worker: nat) returns (batch: seq<nat>)
      requires Valid() && worker < |state.workers| && state.workers[worker].phase.Waiting?
      requires timedOut || queue != []
      modifies this
      ensures Valid() && state == Next(old(state), Step.Collect(worker, timedOut))
      ensures batch == state.workers[worker].batch && old(queue) == batch + queue
    {
      assert WorkerOk(state, state.workers[worker]);
      NextInv(state, Step.Collect(worker, timedOut));
      ghost var k := Taken(state, timedOut);
      batch := TakeUpTo(timedOut);
      assert old(queue)[..k] + old(queue)[k..] == old(queue);
      state := Next(state, Step.Collect(worker, timedOut));
    }

    /** One record if it arrived, then whatever is there, up to the batch size. */
    method TakeUpTo(timedOut: bool) returns (batch: seq<nat>)
      requires timedOut || queue != []
      modifies this`queue
      ensures var k := Min(|old(queue)|, Max(if timedOut then 0 else 1, batchSize));
        batch == old(queue)[..k] && queue == old(queue)[k..]
    {
      ghost var start := queue;
      batch := [];
      if !timedOut {
        batch, queue := [queue[0]], queue[1..];
      }
      while |batch| < batchSize && queue != []
        invariant |batch| <= |start| && batch == start[..|batch|] && queue == start[|batch|..]
        invariant |batch| <= Max(if timedOut then 0 else 1, batchSize)
        invariant timedOut || |batch| >= 1
        decreases |queue|
      {
        batch, queue := batch + [queue[0]], queue[1..];
      }
    }

    /** After the commit and the session are done, the rows are counted. */
    method CountRows(batch: seq<nat>, ghost worker: nat)
      requires Valid() && worker < |state.workers| && state.workers[worker].phase.Closing?
      requires batch == state.workers[worker].batch
      modifies this
      ensures Valid() && state == Next(old(state), Advance(worker))
      ensures written == old(written) + |batch|
    {
      NextInv(state, Advance(worker));
      state := Next(state, Advance(worker));
      written := written + |batch|;
    }
  }
}
