/**
 The capture pipeline as a state machine: a bounded lossy queue drained by workers that
 batch, commit, fail and are cancelled. A step is one stretch of code between two
 suspension points, so a run is any sequence of steps of any of the parties.

 A record is known by its place in the order of submission; `ids` gives its primary key.
 */
module RecorderModel {
  import opened Basics

  // ------------------------------------------------------------------- workers

  /** Where a worker is suspended. */
  datatype Phase =
    | Waiting                    // for a record, or for the flush timeout
    | Persisting(done: nat)      // uploading the bodies of a batch
    | Committing                 // the insert is under way
    | Closing                    // committed, the session not yet closed
    | Publishing                 // counted, live events being sent
    | Sleeping                   // backing off after an error
    | Stopped

  /**
   `last` marks the flush made while being cancelled. `stored` says that the rows of the
   batch are in the table.
   */
  datatype Worker = Worker(phase: Phase, batch: seq<nat>, last: bool, stored: bool)

  function Resting(phase: Phase): Worker {
    Worker(phase, [], false, false)
  }

  predicate InFlush(p: Phase) {
    p.Persisting? || p.Committing? || p.Closing? || p.Publishing?
  }

  /** The records that only this worker still has. */
  function Hand(w: Worker): seq<nat> {
    if w.stored then [] else w.batch
  }

  /** Rows that a worker has committed and not yet counted. */
  function Uncounted(w: Worker): nat {
    if w.phase.Closing? then |w.batch| else 0
  }

  /** How often `r` occurs in `s`. */
  function Times(s: seq<nat>, r: nat): nat {
    multiset(s)[r]
  }

  function TimesInHands(ws: seq<Worker>, r: nat): nat {
    if ws == [] then 0 else Times(Hand(ws[0]), r) + TimesInHands(ws[1..], r)
  }

  function AllUncounted(ws: seq<Worker>): nat {
    if ws == [] then 0 else Uncounted(ws[0]) + AllUncounted(ws[1..])
  }

  // --------------------------------------------------------------------- state

  datatype State = State(
    capacity: int,        // zero or less: no bound
    batchSize: int,
    ids: seq<int>,        // the primary key of every record submitted so far
    queue: seq<nat>,
    lost: seq<nat>,       // turned away by a full queue
    workers: seq<Worker>,
    table: seq<nat>,      // committed rows, in the order of insertion
    discarded: seq<nat>,  // records of batches given up
    written: nat,
    missed: nat)          // rows whose flush was interrupted before it counted them

  function Initial(capacity: int, batchSize: int, workers: nat): State {
    State(capacity, batchSize, [], [], [], seq(workers, i => Resting(Waiting)), [], [], 0, 0)
  }

  function KeyOf(s: State, r: nat): int {
    if r < |s.ids| then s.ids[r] else 0
  }

  /** The insert would repeat a primary key, within the batch or against the table. */
  predicate Conflicts(s: State, batch: seq<nat>) {
    || (exists i, j :: 0 <= i < j < |batch| && KeyOf(s, batch[i]) == KeyOf(s, batch[j]))
    || (exists r, t :: r in batch && t in s.table && KeyOf(s, r) == KeyOf(s, t))
  }

  // --------------------------------------------------------------------- steps

  datatype Step =
    | Submit(id: int)
    | Collect(worker: nat, timedOut: bool)
    | Advance(worker: nat)
    | Interrupt(worker: nat, cancelled: bool, took: bool)
    | Wake(worker: nat)

  /** A full queue turns the record away. */
  function Submitted(s: State, id: int): State {
    var r := |s.ids|;
    if s.capacity <= 0 || |s.queue| < s.capacity
    then s.(ids := s.ids + [id], queue := s.queue + [r])
    else s.(ids := s.ids + [id], lost := s.lost + [r])
  }

  /** How many records one turn of the collecting loop takes. */
  function Taken(s: State, timedOut: bool): nat {
    Min(|s.queue|, Max(if timedOut then 0 else 1, s.batchSize))
  }

  /** A record or the timeout arrives, and the batch is topped up without waiting. */
  function Collected(s: State, i: nat, timedOut: bool): State
    requires i < |s.workers|
  {
    var k := Taken(s, timedOut);
    if k == 0 then s
    else s.(queue := s.queue[k..], workers := s.workers[i := Worker(Persisting(0), s.queue[..k], false, false)])
  }

  /** A batch that is given up: it is lost unless its rows are already in the table. */
  function GivenUp(s: State, i: nat): State
    requires i < |s.workers|
  {
    var w := s.workers[i];
    s.(discarded := s.discarded + Hand(w),
       workers := s.workers[i := Resting(if w.last then Stopped else Sleeping)])
  }

  /** The awaited operation of a flush succeeds; a commit does so only without a key conflict. */
  function Advanced(s: State, i: nat): State
    requires i < |s.workers|
  {
    var w := s.workers[i];
    match w.phase
    case Persisting(k) =>
      s.(workers := s.workers[i := w.(phase := if k < |w.batch| then Persisting(k + 1) else Committing)])
    case Committing =>
      if Conflicts(s, w.batch) then GivenUp(s, i)
      else s.(table := s.table + w.batch, workers := s.workers[i := w.(phase := Closing, stored := true)])
    case Closing =>
      s.(written := s.written + |w.batch|, workers := s.workers[i := w.(phase := Publishing)])
    case Publishing =>
      s.(workers := s.workers[i := Resting(if w.last then Stopped else Waiting)])
    case _ => s
  }

  /** An interrupted commit may have taken effect, if it could. */
  function CommitTook(s: State, i: nat): State
    requires i < |s.workers|
  {
    var w := s.workers[i];
    if Conflicts(s, w.batch) then s
    else s.(table := s.table + w.batch, missed := s.missed + |w.batch|, workers := s.workers[i := w.(stored := true)])
  }

  /** A flush leaves its phase early; rows that it committed stay uncounted. */
  function Abandoned(s: State, i: nat, took: bool): State
    requires i < |s.workers|
  {
    var w := s.workers[i];
    if w.phase.Committing? && took then CommitTook(s, i)
    else if w.phase.Closing? then s.(missed := s.missed + |w.batch|, workers := s.workers[i := w.(phase := Publishing)])
    else s
  }

  /**
   The awaited operation fails or the worker is cancelled there. A first cancellation
   flushes the batch once more; an error, or a cancellation of that last flush, gives it
   up. Errors while publishing are swallowed.
   */
  function Interrupted(s: State, i: nat, cancelled: bool, took: bool): State
    requires i < |s.workers|
  {
    var w := s.workers[i];
    if InFlush(w.phase) then
      if w.phase.Publishing? && !cancelled then Advanced(s, i)
      else
        var t := Abandoned(s, i, took);
        if cancelled && !w.last
        then t.(workers := t.workers[i := t.workers[i].(phase := Persisting(0), last := true)])
        else GivenUp(t, i)
    else if cancelled then s.(workers := s.workers[i := Resting(Stopped)])
    else s
  }

  function Woken(s: State, i: nat): State
    requires i < |s.workers|
  {
    if s.workers[i].phase.Sleeping? then s.(workers := s.workers[i := Resting(Waiting)]) else s
  }

  /** One step of any party; a step that is not enabled changes nothing. */
  function Next(s: State, step: Step): State
  {
    match step
    case Submit(id) => Submitted(s, id)
    case Collect(i, timedOut) =>
      if i < |s.workers| && s.workers[i].phase.Waiting? && (timedOut || s.queue != []) then Collected(s, i, timedOut) else s
    case Advance(i) => if i < |s.workers| then Advanced(s, i) else s
    case Interrupt(i, cancelled, took) => if i < |s.workers| then Interrupted(s, i, cancelled, took) else s
    case Wake(i) => if i < |s.workers| then Woken(s, i) else s
  }

  // ----------------------------------------------------------------- invariants

  ghost predicate Below(a: seq<nat>, b: seq<nat>) {
    forall x, y :: x in a && y in b ==> x < y
  }

  /** How often a record occurs over all the places it can be. */
  function Places(s: State, r: nat): nat {
    Times(s.lost, r) + Times(s.queue, r) + TimesInHands(s.workers, r) + Times(s.table, r) + Times(s.discarded, r)
  }

  /**
   Conservation: a submitted record is in exactly one place, once: turned away, queued, in
   one worker's batch, committed, or discarded with a failed batch.
   */
  ghost predicate Conserved(s: State) {
    forall r: nat :: Places(s, r) == if r < |s.ids| then 1 else 0
  }

  ghost predicate Bounded(s: State) {
    && (s.capacity > 0 ==> |s.queue| <= s.capacity)
    && (forall i :: 0 <= i < |s.workers| ==> |s.workers[i].batch| <= Max(1, s.batchSize))
    && s.written + s.missed + AllUncounted(s.workers) == |s.table|
  }

  ghost predicate WorkerOk(s: State, w: Worker) {
    && (w.batch != [] <==> InFlush(w.phase))
    && (w.phase.Closing? || w.phase.Publishing? ==> w.stored)
    && (w.stored ==> forall r :: r in w.batch ==> r in s.table)
    && (w.stored ==> w.last || w.phase.Closing? || w.phase.Publishing?)
    && (!InFlush(w.phase) ==> !w.stored && !w.last)
  }

  ghost predicate WorkersOk(s: State) {
    forall i :: 0 <= i < |s.workers| ==> WorkerOk(s, s.workers[i])
  }

  /** No two rows of the table share a primary key. */
  ghost predicate Keyed(s: State)
  {
    forall i, j :: 0 <= i < j < |s.table| ==> KeyOf(s, s.table[i]) != KeyOf(s, s.table[j])
  }

  /** Batches and the queue keep the order of submission; a batch is older than the queue. */
  ghost predicate BatchesInOrder(s: State) {
    && Increasing(s.queue)
    && (forall i :: 0 <= i < |s.workers| ==> Increasing(s.workers[i].batch) && Below(s.workers[i].batch, s.queue))
  }

  /** With a single worker: the rows, then its batch, then the queue follow the order of submission. */
  ghost predicate RowsInOrder(s: State) {
    |s.workers| == 1 ==> Increasing(s.table + Hand(s.workers[0]) + s.queue)
  }

  ghost predicate WellNumbered(s: State) {
    && (forall r :: r in s.table || r in s.queue ==> r < |s.ids|)
    && (forall i, r :: 0 <= i < |s.workers| && r in s.workers[i].batch ==> r < |s.ids|)
  }

  ghost predicate Inv(s: State) {
    WellNumbered(s) && Conserved(s) && Bounded(s) && WorkersOk(s) && Keyed(s) && BatchesInOrder(s) && RowsInOrder(s)
  }
}
