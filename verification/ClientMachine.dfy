/** The asynchronous write client as a step machine. */
module ClientMachine {
  import opened InfluxTypes
  import opened RetryPolicy

  type Point = PendingWritePoint

  datatype Outcome =
    | Acknowledged
    | Refused(status: nat, text: string)  // an HTTP status outside 200..299
    | Unreachable(text: string)           // the transfer itself failed
    | NotSent(text: string)               // no CURL handle: neither flag nor error code is touched

  predicate IsFundamental(o: Outcome) {
    o.Unreachable? || (o.Refused? && o.status in {400, 401, 404})
  }

  datatype Worker =
    | LoopHead                                                   // about to load the fundamental-error flag
    | Collect                                                    // about to take a batch under the lock
    | Attempt(batch: seq<Point>, number: nat, error: string)     // about to test the attempt bound
    | Failed(batch: seq<Point>, number: nat, error: string)      // the attempt failed
    | CountBatch(n: nat)                                         // batchesWritten_ not yet incremented
    | CountWritten(n: nat)                                       // pointsWritten_ not yet incremented
    | ClearError
    | CountFailure(batch: seq<Point>, error: string)
    | SetError(batch: seq<Point>, error: string)
    | Requeue(batch: seq<Point>)
    | CountDropped(n: nat)                                       // pointsDropped_ not yet incremented
    | CountQueuedDropped(n: nat)                                 // queuedPointsDropped_ not yet incremented
    | Exited

  /** A producer that found the queue full holds the queue lock while it counts the rejected point. */
  datatype Producer = Free | CountReject | CountQueuedReject

  datatype Fate = Written | Lost

  datatype Counters = Counters(
    queuedPointsDropped: nat,
    pointsWritten: nat,
    pointsDropped: nat,
    batchesWritten: nat,
    batchWriteFailures: nat,
    retryAttempts: nat)

  /** What happened so far; no step reads it. */
  datatype History = History(
    accepted: seq<Point>,    // every point for which writePoint returned true, in order
    settled: seq<Point>,     // every point that was acknowledged or given up, in order
    fates: seq<Fate>,        // what became of each of them
    written: seq<Point>,     // the acknowledged ones, in the order the server got them
    lost: seq<Point>,        // the ones given up
    rejected: nat)           // points refused because the queue was full

  datatype State = State(
    queue: seq<Point>,
    stop: bool,
    fundamental: bool,
    asyncError: string,
    errorCode: nat,
    counters: Counters,
    worker: Worker,
    producer: Producer,
    history: History)

  ghost predicate Initial(s: State) {
    && s.queue == [] && !s.stop && !s.fundamental && s.asyncError == "" && s.errorCode == 0
    && s.worker.LoopHead? && s.producer.Free?
    && s.counters.queuedPointsDropped == s.counters.pointsWritten == s.counters.pointsDropped == 0
    && s.counters.batchesWritten == s.counters.batchWriteFailures == s.counters.retryAttempts == 0
    && s.history.accepted == [] && s.history.settled == [] && s.history.fates == []
    && s.history.written == [] && s.history.lost == [] && s.history.rejected == 0
  }

  /**
   * Any number of producers, one worker, any number of readers and the thread that stops the client interleave; a
   * step is one critical section, one atomic operation, or one HTTP attempt of the source.
   */
  datatype Action =
    | Push(p: Point)
    | Reject
    | ProducerCounts
    | Stop
    | ReaderFault
    | ClearAsyncError
    | Work(o: Outcome)  // the outcome matters only when the worker is about to send

  function InFlight(w: Worker): seq<Point> {
    match w
    case Attempt(b, _, _) => b
    case Failed(b, _, _) => b
    case CountFailure(b, _) => b
    case SetError(b, _) => b
    case Requeue(b) => b
    case _ => []
  }

  function Repeat(fate: Fate, n: nat): (r: seq<Fate>)
    ensures |r| == n
    ensures forall i :: 0 <= i < n ==> r[i] == fate
  {
    if n == 0 then [] else Repeat(fate, n - 1) + [fate]
  }

  function Record(h: History, batch: seq<Point>, fate: Fate): History {
    h.(settled := h.settled + batch,
       fates := h.fates + Repeat(fate, |batch|),
       written := if fate.Written? then h.written + batch else h.written,
       lost := if fate.Lost? then h.lost + batch else h.lost)
  }

  predicate Enabled(c: WriteConfig, s: State, a: Action) {
    match a
    case Push(_) => s.producer.Free? && |s.queue| < c.maxQueuePoints
    case Reject => s.producer.Free? && |s.queue| >= c.maxQueuePoints
    case ProducerCounts => !s.producer.Free?
    case Stop => s.producer.Free?
    case ReaderFault => true
    case ClearAsyncError => true
    case Work(_) =>
      // both waits of the source end with the lock held and stop set or the queue not empty
      match s.worker
      case Collect => s.producer.Free? && (s.stop || s.queue != [])
      case Requeue(_) => s.producer.Free?
      case Exited => false
      case _ => true
  }

  function Apply(c: WriteConfig, s: State, a: Action): State {
    match a
    case Push(p) => s.(queue := s.queue + [p], history := s.history.(accepted := s.history.accepted + [p]))
    case Reject => s.(producer := CountReject, history := s.history.(rejected := s.history.rejected + 1))
    case ProducerCounts =>
      var k := s.counters;
      if s.producer.CountReject?
      then s.(counters := k.(pointsDropped := k.pointsDropped + 1), producer := CountQueuedReject)
      else s.(counters := k.(queuedPointsDropped := k.queuedPointsDropped + 1), producer := Free)
    case Stop => s.(stop := true)
    case ReaderFault => s.(fundamental := true)
    case ClearAsyncError => s.(asyncError := "")
    case Work(o) => WorkerStep(c, s, o)
  }

  function WorkerStep(c: WriteConfig, s: State, o: Outcome): State {
    match s.worker
    case LoopHead => s.(worker := if s.fundamental then Exited else Collect)
    case Collect =>
      if s.queue == [] then s.(worker := Exited)
      else
        var n := Min(|s.queue|, c.maxBatchPoints);
        s.(queue := s.queue[n..], worker := Attempt(s.queue[..n], 1, ""))
    case Attempt(batch, number, error) =>
      if number > MaxAttempts(c.maxRetries) then s.(worker := CountFailure(batch, error))
      else if o.Acknowledged? then s.(worker := CountBatch(|batch|), history := Record(s.history, batch, Written))
      else
        s.(worker := Failed(batch, number, o.text),
           fundamental := s.fundamental || IsFundamental(o),
           errorCode := if o.Refused? then o.status else s.errorCode)
    case Failed(batch, number, error) =>
      s.(worker := Attempt(batch, Successor(number), error),
         counters := if number < MaxAttempts(c.maxRetries)
                     then s.counters.(retryAttempts := s.counters.retryAttempts + 1)
                     else s.counters)
    case CountBatch(n) =>
      s.(counters := s.counters.(batchesWritten := s.counters.batchesWritten + 1), worker := CountWritten(n))
    case CountWritten(n) =>
      s.(counters := s.counters.(pointsWritten := s.counters.pointsWritten + n), worker := ClearError)
    case ClearError => s.(asyncError := "", worker := LoopHead)
    case CountFailure(batch, error) =>
      s.(counters := s.counters.(batchWriteFailures := s.counters.batchWriteFailures + 1),
         worker := SetError(batch, error))
    case SetError(batch, error) =>
      s.(asyncError := if error == "" then "Async write failed" else error, worker := Requeue(batch))
    case Requeue(batch) =>
      if !s.stop && |s.queue| + |batch| <= c.maxQueuePoints
      then s.(queue := batch + s.queue, worker := LoopHead)
      else s.(worker := CountDropped(|batch|), history := Record(s.history, batch, Lost))
    case CountDropped(n) =>
      s.(counters := s.counters.(pointsDropped := s.counters.pointsDropped + n), worker := CountQueuedDropped(n))
    case CountQueuedDropped(n) =>
      s.(counters := s.counters.(queuedPointsDropped := s.counters.queuedPointsDropped + n), worker := LoopHead)
    case Exited => s
  }

  // ---------------------------------------------------------------- runs

  predicate Valid(c: WriteConfig, s: State, run: seq<Action>)
    decreases |run|
  {
    run == [] || (Enabled(c, s, run[0]) && Valid(c, Apply(c, s, run[0]), run[1..]))
  }

  function After(c: WriteConfig, s: State, run: seq<Action>): State
    decreases |run|
  {
    if run == [] then s else After(c, Apply(c, s, run[0]), run[1..])
  }

  lemma {:induction false} RunConcat(c: WriteConfig, s: State, r1: seq<Action>, r2: seq<Action>)
    requires Valid(c, s, r1) && Valid(c, After(c, s, r1), r2)
    ensures Valid(c, s, r1 + r2) && After(c, s, r1 + r2) == After(c, After(c, s, r1), r2)
    decreases |r1|
  {
    if r1 == [] {
      assert r1 + r2 == r2;
    } else {
      RunConcat(c, Apply(c, s, r1[0]), r1[1..], r2);
      assert (r1 + r2)[1..] == r1[1..] + r2;
    }
  }

  // ---------------------------------------------------------------- conservation

  /** The points that met one of the fates, in order. */
  function Having(points: seq<Point>, fates: seq<Fate>, fate: Fate): (r: seq<Point>)
    requires |points| == |fates|
  {
    if fates == [] then [] else
      var n := |fates| - 1;
      Having(points[..n], fates[..n], fate) + (if fates[n] == fate then [points[n]] else [])
  }

  /** Positions of the points that met one of the fates. */
  function PositionsOf(fates: seq<Fate>, fate: Fate): (r: seq<nat>)
    ensures forall i :: 0 <= i < |r| ==> r[i] < |fates| && fates[r[i]] == fate
    ensures forall i, j :: 0 <= i < j < |r| ==> r[i] < r[j]
  {
    if fates == [] then [] else
      var front := PositionsOf(fates[..|fates| - 1], fate);
      if fates[|fates| - 1] == fate then front + [|fates| - 1] else front
  }

  lemma {:induction false} HavingAt(points: seq<Point>, fates: seq<Fate>, fate: Fate)
    requires |points| == |fates|
    ensures var at, r := PositionsOf(fates, fate), Having(points, fates, fate);
      |at| == |r| && forall i :: 0 <= i < |at| ==> r[i] == points[at[i]]
  {
    if fates != [] {
      var n := |fates| - 1;
      HavingAt(points[..n], fates[..n], fate);
      var at, r := PositionsOf(fates[..n], fate), Having(points[..n], fates[..n], fate);
      assert forall i :: 0 <= i < |at| ==> at[i] < n && r[i] == points[..n][at[i]] == points[at[i]];
      if fates[n] == fate {
        assert PositionsOf(fates, fate) == at + [n] && Having(points, fates, fate) == r + [points[n]];
      } else {
        assert PositionsOf(fates, fate) == at && Having(points, fates, fate) == r + [] == r;
      }
    }
  }

  /** The history of settled points is an exact split of what was settled. */
  ghost predicate SplitByFate(h: History) {
    && |h.fates| == |h.settled| == |h.written| + |h.lost|
    && h.written == Having(h.settled, h.fates, Written)
    && h.lost == Having(h.settled, h.fates, Lost)
  }

  lemma {:induction false} HavingAppended(
      points: seq<Point>, fates: seq<Fate>, batch: seq<Point>, fate: Fate, other: Fate)
    requires |points| == |fates|
    ensures Having(points + batch, fates + Repeat(fate, |batch|), other) ==
            Having(points, fates, other) + (if fate == other then batch else [])
    decreases |batch|
  {
    if batch == [] {
      assert points + batch == points && fates + Repeat(fate, 0) == fates;
    } else {
      var k := |batch| - 1;
      HavingAppended(points, fates, batch[..k], fate, other);
      assert (points + batch)[..|points| + k] == points + batch[..k];
      assert (fates + Repeat(fate, k + 1))[..|fates| + k] == fates + Repeat(fate, k);
    }
  }

  lemma RecordSplits(h: History, batch: seq<Point>, fate: Fate)
    requires SplitByFate(h)
    ensures SplitByFate(Record(h, batch, fate))
  {
    HavingAppended(h.settled, h.fates, batch, fate, Written);
    HavingAppended(h.settled, h.fates, batch, fate, Lost);
  }

  /** Settled points that a counter does not show yet. */
  function UncountedWritten(w: Worker): nat {
    match w case CountBatch(n) => n case CountWritten(n) => n case _ => 0
  }

  function UncountedDropped(w: Worker): nat { if w.CountDropped? then w.n else 0 }

  function UncountedQueuedDropped(w: Worker): nat {
    match w case CountDropped(n) => n case CountQueuedDropped(n) => n case _ => 0
  }

  ghost predicate BatchesBounded(c: WriteConfig, w: Worker) {
    match w
    case LoopHead => true
    case Collect => true
    case ClearError => true
    case Exited => true
    case CountBatch(n) => 1 <= n <= c.maxBatchPoints
    case CountWritten(n) => 1 <= n <= c.maxBatchPoints
    case CountDropped(n) => 1 <= n <= c.maxBatchPoints
    case CountQueuedDropped(n) => 1 <= n <= c.maxBatchPoints
    case _ => 1 <= |InFlight(w)| <= c.maxBatchPoints
  }

  /** Every accepted point is in exactly one place, and those places in order are the acceptance order. */
  ghost predicate Conserved(c: WriteConfig, s: State) {
    && s.history.settled + Pending(s) == s.history.accepted
    && SplitByFate(s.history)
    && |s.queue| <= c.maxQueuePoints
    && BatchesBounded(c, s.worker)
  }

  /** The most points that `batches` batches can hold. */
  function Capacity(c: WriteConfig, batches: nat): nat {
    if batches == 0 then 0 else Capacity(c, batches - 1) + c.maxBatchPoints
  }

  lemma {:induction false} CapacityIsProduct(c: WriteConfig, batches: nat)
    ensures Capacity(c, batches) == c.maxBatchPoints * batches
  {
    if batches > 0 { CapacityIsProduct(c, batches - 1); }
  }

  lemma {:induction false} CapacityMonotone(c: WriteConfig, a: nat, b: nat)
    requires a <= b
    ensures Capacity(c, a) <= Capacity(c, b)
    decreases b
  {
    if a < b { CapacityMonotone(c, a, b - 1); }
  }

  // What each counter shows, up to the increments that are still to come.
  ghost predicate WrittenCounted(s: State) {
    s.counters.pointsWritten + UncountedWritten(s.worker) == |s.history.written|
  }

  ghost predicate DroppedCounted(s: State) {
    s.counters.pointsDropped + UncountedDropped(s.worker) + (if s.producer.CountReject? then 1 else 0)
    == s.history.rejected + |s.history.lost|
  }

  ghost predicate QueuedDroppedCounted(s: State) {
    s.counters.queuedPointsDropped + UncountedQueuedDropped(s.worker) + (if s.producer.Free? then 0 else 1)
    == s.history.rejected + |s.history.lost|
  }

  ghost predicate BatchesCounted(c: WriteConfig, s: State) {
    s.counters.pointsWritten + (if s.worker.CountWritten? then s.worker.n else 0)
    <= Capacity(c, s.counters.batchesWritten)
  }

  ghost predicate Counted(c: WriteConfig, s: State) {
    WrittenCounted(s) && DroppedCounted(s) && QueuedDroppedCounted(s) && BatchesCounted(c, s)
  }

  ghost predicate AttemptsBounded(c: WriteConfig, w: Worker) {
    c.maxRetries != SIZE_MAX - 1 ==>
      match w
      case Attempt(_, number, _) => 1 <= number <= MaxAttempts(c.maxRetries) + 1
      case Failed(_, number, _) => 1 <= number <= MaxAttempts(c.maxRetries)
      case _ => true
  }

  ghost predicate Inv(c: WriteConfig, s: State) {
    Conserved(c, s) && Counted(c, s) && AttemptsBounded(c, s.worker)
  }

  // ---------------------------------------------------------------- refinement of one FIFO

  /** The accepted points that are not settled yet, oldest first. */
  function Pending(s: State): seq<Point> { InFlight(s.worker) + s.queue }

  datatype FifoStep = Stutter | Append(p: Point) | RemovePrefix(n: nat)

  ghost predicate IsFifoStep(q: seq<Point>, q': seq<Point>, f: FifoStep) {
    match f
    case Stutter => q' == q
    case Append(p) => q' == q + [p]
    case RemovePrefix(n) => 1 <= n <= |q| && q' == q[n..]
  }

  /** What a step does to the one queue of accepted and unsettled points. */
  function AbstractStep(c: WriteConfig, s: State, a: Action): FifoStep {
    match a
    case Push(p) => Append(p)
    case Work(o) =>
      if s.worker.Attempt? && s.worker.number <= MaxAttempts(c.maxRetries) && o.Acknowledged?
      then RemovePrefix(|s.worker.batch|)
      else if s.worker.Requeue? && (s.stop || |s.queue| + |s.worker.batch| > c.maxQueuePoints)
      then RemovePrefix(|s.worker.batch|)
      else Stutter
    case _ => Stutter
  }

  ghost predicate Refines(c: WriteConfig, s: State, s': State, f: FifoStep) {
    && IsFifoStep(Pending(s), Pending(s'), f)
    && s'.history.settled ==
       s.history.settled + (if f.RemovePrefix? then Pending(s)[..f.n] else [])
    && s'.history.accepted == s.history.accepted + (if f.Append? then [f.p] else [])
    && |s'.queue| <= c.maxQueuePoints
    && BatchesBounded(c, s'.worker)
  }

  /** Taking and requeueing a batch are invisible; pushing appends; acknowledging and dropping remove a
      prefix, which is exactly what the step settles. */
  lemma RefinesFifo(c: WriteConfig, s: State, a: Action)
    requires c.Valid() && BatchesBounded(c, s.worker) && |s.queue| <= c.maxQueuePoints && Enabled(c, s, a)
    ensures Refines(c, s, Apply(c, s, a), AbstractStep(c, s, a))
  {
    if a.Work? {
      if s.worker.Attempt? {
        SendRefinesFifo(c, s, a.o);
      } else if s.worker.Requeue? {
        RequeueRefinesFifo(c, s, a.o);
      } else {
        OtherWorkRefinesFifo(c, s, a.o);
      }
    } else {
      ClientRefinesFifo(c, s, a);
    }
  }

  lemma ClientRefinesFifo(c: WriteConfig, s: State, a: Action)
    requires BatchesBounded(c, s.worker) && |s.queue| <= c.maxQueuePoints && Enabled(c, s, a) && !a.Work?
    ensures Refines(c, s, Apply(c, s, a), AbstractStep(c, s, a))
  {
    NothingSettled(s);
    if a.Push? { assert Pending(Apply(c, s, a)) == Pending(s) + [a.p]; }
  }

  lemma NothingSettled(s: State)
    ensures s.history.settled + [] == s.history.settled
    ensures s.history.accepted + [] == s.history.accepted
  {
  }

  lemma SendRefinesFifo(c: WriteConfig, s: State, o: Outcome)
    requires BatchesBounded(c, s.worker) && |s.queue| <= c.maxQueuePoints && s.worker.Attempt?
    ensures Refines(c, s, WorkerStep(c, s, o), AbstractStep(c, s, Work(o)))
  {
    var batch := s.worker.batch;
    NothingSettled(s);
    assert Pending(s)[..|batch|] == batch && Pending(s)[|batch|..] == s.queue;
    assert [] + s.queue == s.queue;
  }

  lemma RequeueRefinesFifo(c: WriteConfig, s: State, o: Outcome)
    requires BatchesBounded(c, s.worker) && |s.queue| <= c.maxQueuePoints && s.worker.Requeue?
    ensures Refines(c, s, WorkerStep(c, s, o), AbstractStep(c, s, Work(o)))
  {
    var batch := s.worker.batch;
    NothingSettled(s);
    assert Pending(s)[..|batch|] == batch && Pending(s)[|batch|..] == s.queue;
    assert [] + s.queue == s.queue && [] + (batch + s.queue) == batch + s.queue;
  }

  lemma OtherWorkRefinesFifo(c: WriteConfig, s: State, o: Outcome)
    requires c.Valid() && BatchesBounded(c, s.worker) && |s.queue| <= c.maxQueuePoints
    requires !s.worker.Attempt? && !s.worker.Requeue?
    ensures Refines(c, s, WorkerStep(c, s, o), AbstractStep(c, s, Work(o)))
  {
    NothingSettled(s);
    if s.worker.Collect? && s.queue != [] {
      var n := Min(|s.queue|, c.maxBatchPoints);
      assert s.queue[..n] + s.queue[n..] == s.queue && [] + s.queue == s.queue;
    }
  }

  lemma FifoStepConserves(s: State, s': State, f: FifoStep)
    requires s.history.settled + Pending(s) == s.history.accepted
    requires IsFifoStep(Pending(s), Pending(s'), f)
    requires s'.history.settled ==
             s.history.settled + (if f.RemovePrefix? then Pending(s)[..f.n] else [])
    requires s'.history.accepted == s.history.accepted + (if f.Append? then [f.p] else [])
    ensures s'.history.settled + Pending(s') == s'.history.accepted
  {
    var done, q := s.history.settled, Pending(s);
    match f {
      case Stutter =>
        assert done + [] == done;
      case Append(p) =>
        assert done + (q + [p]) == (done + q) + [p] && done + [] == done;
      case RemovePrefix(n) =>
        assert (done + q[..n]) + q[n..] == done + q;
    }
  }

  lemma StepConserves(c: WriteConfig, s: State, a: Action)
    requires c.Valid() && Conserved(c, s) && Enabled(c, s, a)
    ensures Conserved(c, Apply(c, s, a))
  {
    RefinesFifo(c, s, a);
    FifoStepConserves(s, Apply(c, s, a), AbstractStep(c, s, a));
    StepSplits(c, s, a);
  }

  lemma StepCountsWritten(c: WriteConfig, s: State, a: Action)
    requires WrittenCounted(s)
    ensures WrittenCounted(Apply(c, s, a))
  {
  }

  lemma StepCountsDropped(c: WriteConfig, s: State, a: Action)
    requires DroppedCounted(s) && Enabled(c, s, a)
    ensures DroppedCounted(Apply(c, s, a))
  {
  }

  lemma StepCountsQueuedDropped(c: WriteConfig, s: State, a: Action)
    requires QueuedDroppedCounted(s) && Enabled(c, s, a)
    ensures QueuedDroppedCounted(Apply(c, s, a))
  {
  }

  lemma StepSplits(c: WriteConfig, s: State, a: Action)
    requires SplitByFate(s.history)
    ensures SplitByFate(Apply(c, s, a).history)
  {
    if a.Work? && s.worker.Attempt? { RecordSplits(s.history, s.worker.batch, Written); }
    if a.Work? && s.worker.Requeue? { RecordSplits(s.history, s.worker.batch, Lost); }
  }

  lemma StepCountsBatches(c: WriteConfig, s: State, a: Action)
    requires BatchesBounded(c, s.worker) && BatchesCounted(c, s) && Enabled(c, s, a)
    ensures BatchesCounted(c, Apply(c, s, a))
  {
  }

  lemma StepBoundsAttempts(c: WriteConfig, s: State, a: Action)
    requires c.Valid() && AttemptsBounded(c, s.worker) && Enabled(c, s, a)
    ensures AttemptsBounded(c, Apply(c, s, a).worker)
  {
  }

  lemma StepKeepsInv(c: WriteConfig, s: State, a: Action)
    requires c.Valid() && Inv(c, s) && Enabled(c, s, a)
    ensures Inv(c, Apply(c, s, a))
  {
    StepConserves(c, s, a);
    StepCountsWritten(c, s, a);
    StepCountsDropped(c, s, a);
    StepCountsQueuedDropped(c, s, a);
    StepCountsBatches(c, s, a);
    StepBoundsAttempts(c, s, a);
  }

  lemma {:induction false} RunKeepsInv(c: WriteConfig, s: State, run: seq<Action>)
    requires c.Valid() && Inv(c, s) && Valid(c, s, run)
    ensures Inv(c, After(c, s, run))
    decreases |run|
  {
    if run != [] {
      StepKeepsInv(c, s, run[0]);
      RunKeepsInv(c, Apply(c, s, run[0]), run[1..]);
    }
  }

  lemma InitialInv(c: WriteConfig, s: State)
    requires Initial(s)
    ensures Inv(c, s)
  {
  }

  /** What the invariant says about the sizes and the counters. */
  ghost predicate Accounted(c: WriteConfig, s: State) {
    var h, k := s.history, s.counters;
    && |h.accepted| == |h.written| + |h.lost| + |InFlight(s.worker)| + |s.queue|
    && |s.queue| <= c.maxQueuePoints
    && |InFlight(s.worker)| <= c.maxBatchPoints
    && k.queuedPointsDropped <= k.pointsDropped
    && k.pointsWritten <= c.maxBatchPoints * k.batchesWritten
    && (s.producer.Free? && (s.worker.LoopHead? || s.worker.Collect? || s.worker.Exited?) ==>
          |h.accepted| + h.rejected == k.pointsWritten + k.pointsDropped + |s.queue|)
  }

  lemma InvAccounts(c: WriteConfig, s: State)
    requires Inv(c, s)
    ensures Accounted(c, s)
  {
    CapacityIsProduct(c, s.counters.batchesWritten);
  }

  /** Safety over every interleaving: nothing accepted is lost, duplicated or reordered. */
  lemma Conservation(c: WriteConfig, s0: State, run: seq<Action>)
    requires c.Valid() && Initial(s0) && Valid(c, s0, run)
    ensures var s := After(c, s0, run);
      && s.history.settled + InFlight(s.worker) + s.queue == s.history.accepted
      && Accounted(c, s)
  {
    InitialInv(c, s0);
    RunKeepsInv(c, s0, run);
    var s := After(c, s0, run);
    InvAccounts(c, s);
    assert s.history.settled + InFlight(s.worker) + s.queue == s.history.settled + Pending(s);
  }

  // ---------------------------------------------------------------- order of the written points

  ghost predicate InOrderSubsequence(at: seq<nat>, part: seq<Point>, whole: seq<Point>) {
    && |at| == |part|
    && (forall i :: 0 <= i < |at| ==> at[i] < |whole| && whole[at[i]] == part[i])
    && (forall i, j :: 0 <= i < j < |at| ==> at[i] < at[j])
  }

  /** Written points are a subsequence of the accepted points: same order, no point twice. */
  lemma WrittenInOrder(c: WriteConfig, s0: State, run: seq<Action>)
    requires c.Valid() && Initial(s0) && Valid(c, s0, run)
    ensures var h := After(c, s0, run).history;
      InOrderSubsequence(PositionsOf(h.fates, Written), h.written, h.accepted)
  {
    InitialInv(c, s0);
    RunKeepsInv(c, s0, run);
    ConservedInOrder(c, After(c, s0, run));
  }

  lemma ConservedInOrder(c: WriteConfig, s: State)
    requires Conserved(c, s)
    ensures var h := s.history;
      InOrderSubsequence(PositionsOf(h.fates, Written), h.written, h.accepted)
  {
    var h := s.history;
    HavingAt(h.settled, h.fates, Written);
    assert forall k :: 0 <= k < |h.settled| ==> h.accepted[k] == h.settled[k];
  }

  // ---------------------------------------------------------------- the fundamental error

  predicate TakesBatch(s: State, a: Action) { a.Work? && s.worker.Collect? && s.queue != [] }

  function BatchesTaken(c: WriteConfig, s: State, run: seq<Action>): nat
    decreases |run|
  {
    if run == [] then 0
    else (if TakesBatch(s, run[0]) then 1 else 0) + BatchesTaken(c, Apply(c, s, run[0]), run[1..])
  }

  /** The flag is sticky, and once it is set at most one further batch leaves the queue: only a worker
      that had already looked at the flag takes one. */
  lemma {:induction false} FundamentalErrorStopsTheWorker(c: WriteConfig, s: State, run: seq<Action>)
    requires s.fundamental && Valid(c, s, run)
    ensures After(c, s, run).fundamental
    ensures BatchesTaken(c, s, run) <= if s.worker.Collect? then 1 else 0
    decreases |run|
  {
    if run != [] {
      FundamentalErrorStopsTheWorker(c, Apply(c, s, run[0]), run[1..]);
    }
  }

  /** An exited worker never comes back, and what it left in the queue is the difference between what
      was accepted and what was counted. */
  lemma {:induction false} AfterExit(c: WriteConfig, s: State, run: seq<Action>)
    requires c.Valid() && Inv(c, s) && s.worker.Exited? && Valid(c, s, run)
    ensures var s' := After(c, s, run);
      && s'.worker.Exited? && s'.history.settled == s.history.settled
      && |s'.history.accepted| == |s'.history.written| + |s'.history.lost| + |s'.queue|
      && s'.counters.pointsWritten == |s'.history.written|
    decreases |run|
  {
    RunKeepsInv(c, s, run);
    if run != [] {
      StepKeepsInv(c, s, run[0]);
      AfterExit(c, Apply(c, s, run[0]), run[1..]);
    }
  }

  // ---------------------------------------------------------------- shutdown

  /** Steps that the worker may still make before it takes the next batch. */
  function StepsLeft(c: WriteConfig, w: Worker): int {
    match w
    case LoopHead => 2
    case Collect => 1
    case Attempt(_, number, _) => 2 * (MaxAttempts(c.maxRetries) + 1 - number) + 8
    case Failed(_, number, _) => 2 * (MaxAttempts(c.maxRetries) - number) + 9
    case CountFailure(_, _) => 7
    case SetError(_, _) => 6
    case Requeue(_) => 5
    case CountDropped(_) => 4
    case CountQueuedDropped(_) => 3
    case CountBatch(_) => 5
    case CountWritten(_) => 4
    case ClearError => 3
    case Exited => 0
  }

  /** The queue length is the main measure; each queued point pays for one whole batch. */
  function Rank(c: WriteConfig, s: State): int {
    Budget(c, |s.queue|) + StepsLeft(c, s.worker)
  }

  /** The most steps that `queued` points can cause. */
  function Budget(c: WriteConfig, queued: nat): nat {
    if queued == 0 then 0 else Budget(c, queued - 1) + 2 * MaxAttempts(c.maxRetries) + 8
  }

  lemma {:induction false} BudgetMonotone(c: WriteConfig, a: nat, b: nat)
    requires a < b
    ensures Budget(c, a) + 2 * MaxAttempts(c.maxRetries) + 8 <= Budget(c, b)
    decreases b
  {
    if a < b - 1 { BudgetMonotone(c, a, b - 1); }
  }

  /** Once the client is stopped and no producer holds the lock, the worker is never blocked and each of
      its steps lowers the rank. */
  lemma StoppedWorkerProgresses(c: WriteConfig, s: State, o: Outcome)
    requires c.Valid() && c.maxRetries != SIZE_MAX - 1 && AttemptsBounded(c, s.worker)
    requires s.stop && s.producer.Free? && !s.worker.Exited?
    ensures Enabled(c, s, Work(o))
    ensures var s' := Apply(c, s, Work(o));
      s'.stop && s'.producer.Free? && Rank(c, s') < Rank(c, s)
  {
    if s.worker.Collect? {
      if s.queue != [] { BudgetMonotone(c, |WorkerStep(c, s, o).queue|, |s.queue|); }
    } else {
      StepsLeftFalls(c, s, o);
    }
  }

  lemma StepsLeftFalls(c: WriteConfig, s: State, o: Outcome)
    requires c.Valid() && c.maxRetries != SIZE_MAX - 1 && AttemptsBounded(c, s.worker)
    requires s.stop && !s.worker.Exited? && !s.worker.Collect?
    ensures var s' := WorkerStep(c, s, o);
      |s'.queue| == |s.queue| && StepsLeft(c, s'.worker) < StepsLeft(c, s.worker)
      && s'.stop && s'.producer == s.producer
  {
  }

  /** An exited worker saw a fundamental error, or was stopped and found the queue empty. */
  ghost predicate QuietUntilDrained(s: State) { s.worker.Exited? ==> s.fundamental || s.queue == [] }

  /** Before the client is stopped, only a fundamental error ends the worker. */
  lemma {:induction false} RunningExitsOnErrorOnly(c: WriteConfig, s: State, run: seq<Action>)
    requires Valid(c, s, run) && Stop !in run && !s.stop && (s.worker.Exited? ==> s.fundamental)
    ensures var e := After(c, s, run); !e.stop && (e.worker.Exited? ==> e.fundamental)
    decreases |run|
  {
    if run != [] {
      assert run[0] in run && forall a :: a in run[1..] ==> a in run;
      RunningExitsOnErrorOnly(c, Apply(c, s, run[0]), run[1..]);
    }
  }

  /** What may still happen once producers are finished. */
  predicate Finishing(a: Action) { a.Work? || a.ReaderFault? || a.ClearAsyncError? }

  ghost predicate AllFinishing(run: seq<Action>) { forall i :: 0 <= i < |run| ==> Finishing(run[i]) }

  function WorkSteps(run: seq<Action>): nat {
    if run == [] then 0 else (if run[0].Work? then 1 else 0) + WorkSteps(run[1..])
  }

  /** Stopped, with no producer in the way. */
  ghost predicate Draining(c: WriteConfig, s: State) {
    s.stop && s.producer.Free? && Inv(c, s) && QuietUntilDrained(s)
  }

  lemma FinishingStep(c: WriteConfig, s: State, a: Action)
    requires c.Valid() && c.maxRetries != SIZE_MAX - 1 && Draining(c, s) && Finishing(a) && Enabled(c, s, a)
    ensures var s' := Apply(c, s, a);
      && Draining(c, s') && (a.Work? ==> !s.worker.Exited? && Rank(c, s') < Rank(c, s))
      && (!a.Work? ==> Rank(c, s') == Rank(c, s))
      && s'.history.accepted == s.history.accepted && s'.history.rejected == s.history.rejected
  {
    hide Inv, Rank;
    StepKeepsInv(c, s, a);
    if a.Work? {
      InvBoundsAttempts(c, s);
      StoppedWorkerProgresses(c, s, a.o);
    } else {
      RankOfWorker(c, s, Apply(c, s, a));
    }
    StepIsQuiet(c, s, a);
  }

  lemma InvBoundsAttempts(c: WriteConfig, s: State)
    requires Inv(c, s)
    ensures AttemptsBounded(c, s.worker)
  {
  }

  lemma RankOfWorker(c: WriteConfig, s: State, t: State)
    requires t.worker == s.worker && t.queue == s.queue
    ensures Rank(c, t) == Rank(c, s)
  {
  }

  lemma StepIsQuiet(c: WriteConfig, s: State, a: Action)
    requires s.stop && s.producer.Free? && QuietUntilDrained(s) && Finishing(a)
    ensures var s' := Apply(c, s, a);
      && s'.stop && s'.producer.Free? && QuietUntilDrained(s')
      && s'.history.accepted == s.history.accepted && s'.history.rejected == s.history.rejected
  {
  }

  lemma {:induction false} FinishingRun(c: WriteConfig, s: State, run: seq<Action>)
    requires c.Valid() && c.maxRetries != SIZE_MAX - 1 && Draining(c, s) && AllFinishing(run) && Valid(c, s, run)
    ensures var e := After(c, s, run);
      && Draining(c, e) && Rank(c, e) + WorkSteps(run) <= Rank(c, s)
      && e.history.accepted == s.history.accepted && e.history.rejected == s.history.rejected
    decreases |run|
  {
    hide Draining, Rank;
    if run != [] {
      FinishingStep(c, s, run[0]);
      assert forall i :: 0 <= i < |run| - 1 ==> run[1..][i] == run[i + 1];
      FinishingRun(c, Apply(c, s, run[0]), run[1..]);
    }
  }

  lemma RankPositive(c: WriteConfig, s: State)
    requires c.maxRetries != SIZE_MAX - 1 && Inv(c, s)
    ensures 0 <= Rank(c, s) && (!s.worker.Exited? ==> 1 <= Rank(c, s))
  {
  }

  ghost predicate Drained(s: State, e: State) {
    && e.history.accepted == s.history.accepted && e.history.rejected == s.history.rejected
    && (e.fundamental ||
        (e.queue == [] &&
         e.counters.pointsWritten + (e.counters.pointsDropped - e.history.rejected) == |s.history.accepted|))
  }

  lemma ExitedIsDrained(c: WriteConfig, e: State)
    requires Draining(c, e) && e.worker.Exited?
    ensures Drained(e, e)
  {
  }

  /** Any run of a client from its start to the stop flag, set while no producer is in the way. */
  lemma StoppingRun(c: WriteConfig, s0: State, running: seq<Action>)
    requires c.Valid() && Initial(s0) && Valid(c, s0, running + [Stop]) && Stop !in running
    ensures Draining(c, After(c, s0, running + [Stop]))
  {
    hide Draining;
    RunSplits(c, s0, running, [Stop]);
    InitialInv(c, s0);
    RunKeepsInv(c, s0, running);
    RunningExitsOnErrorOnly(c, s0, running);
    StopDrains(c, After(c, s0, running));
  }

  lemma {:induction false} RunSplits(c: WriteConfig, s: State, r1: seq<Action>, r2: seq<Action>)
    requires Valid(c, s, r1 + r2)
    ensures Valid(c, s, r1) && Valid(c, After(c, s, r1), r2)
    ensures After(c, s, r1 + r2) == After(c, After(c, s, r1), r2)
    decreases |r1|
  {
    if r1 == [] {
      assert r1 + r2 == r2;
    } else {
      assert (r1 + r2)[1..] == r1[1..] + r2;
      RunSplits(c, Apply(c, s, r1[0]), r1[1..], r2);
    }
  }

  lemma StopDrains(c: WriteConfig, s: State)
    requires c.Valid() && Inv(c, s) && Valid(c, s, [Stop]) && (s.worker.Exited? ==> s.fundamental)
    ensures Draining(c, After(c, s, [Stop]))
  {
    hide Inv;
    StepKeepsInv(c, s, Stop);
    assert After(c, Apply(c, s, Stop), [Stop][1..]) == Apply(c, s, Stop);
  }

  /**
   * Shutdown terminates.  After any run from the start, the stop flag, and any steps but those of producers, the
   * worker has made at most Rank steps since the flag was set, and can go on unless it has exited; once it has
   * made that many it has exited.  Then a fundamental error occurred, or the queue is empty and every accepted
   * point is counted exactly once, as written or as dropped.
   */
  lemma ShutdownDrains(c: WriteConfig, s0: State, running: seq<Action>, finishing: seq<Action>, o: Outcome)
    requires c.Valid() && c.maxRetries != SIZE_MAX - 1 && Initial(s0) && Stop !in running && AllFinishing(finishing)
    requires Valid(c, s0, running + [Stop] + finishing)
    ensures Valid(c, s0, running + [Stop])
    ensures var s, e := After(c, s0, running + [Stop]), After(c, s0, running + [Stop] + finishing);
      && WorkSteps(finishing) <= Rank(c, s)
      && (!e.worker.Exited? ==> Enabled(c, e, Work(o)))
      && (WorkSteps(finishing) == Rank(c, s) ==> e.worker.Exited?)
      && (e.worker.Exited? ==> Drained(s, e))
  {
    hide Draining, Inv, Rank, Drained;
    RunSplits(c, s0, running + [Stop], finishing);
    StoppingRun(c, s0, running);
    var s := After(c, s0, running + [Stop]);
    FinishingRun(c, s, finishing);
    var e := After(c, s, finishing);
    DrainingGoesOn(c, e, o);
    if e.worker.Exited? {
      ExitedIsDrained(c, e);
      DrainedSince(s, e);
    }
  }

  lemma DrainingGoesOn(c: WriteConfig, e: State, o: Outcome)
    requires c.Valid() && c.maxRetries != SIZE_MAX - 1 && Draining(c, e)
    ensures 0 <= Rank(c, e) && (!e.worker.Exited? ==> 1 <= Rank(c, e) && Enabled(c, e, Work(o)))
  {
    hide Rank;
    RankPositive(c, e);
    if !e.worker.Exited? { StoppedWorkerProgresses(c, e, o); }
  }

  lemma DrainedSince(s: State, e: State)
    requires Drained(e, e) && e.history.accepted == s.history.accepted && e.history.rejected == s.history.rejected
    ensures Drained(s, e)
  {
  }

  // ---------------------------------------------------------------- attempts that fail

  /** The worker alone, with the server answering as it likes. */
  function WorkRun(outcomes: seq<Outcome>): seq<Action> {
    if outcomes == [] then [] else [Work(outcomes[0])] + WorkRun(outcomes[1..])
  }

  ghost predicate Unacknowledged(outcomes: seq<Outcome>) {
    forall i :: 0 <= i < |outcomes| ==> !outcomes[i].Acknowledged?
  }

  /** One failed attempt and the preparation of the next one. */
  lemma FailedAttempt(c: WriteConfig, s: State, o: Outcome, p: Outcome)
    requires s.worker.Attempt? && s.worker.number <= MaxAttempts(c.maxRetries) && !o.Acknowledged?
    ensures Valid(c, s, WorkRun([o, p]))
    ensures After(c, s, WorkRun([o, p])).worker == Attempt(s.worker.batch, Successor(s.worker.number), o.text)
  {
    assert WorkRun([o, p]) == [Work(o), Work(p)] by {
      assert [o, p][1..] == [p] && [p][1..] == [];
      assert WorkRun([p]) == [Work(p)] + WorkRun([p][1..]);
    }
    assert [Work(o), Work(p)][1..] == [Work(p)] && [Work(p)][1..] == [];
    var t := Apply(c, s, Work(o));
    assert Valid(c, Apply(c, t, Work(p)), []);
    assert Valid(c, t, [Work(p)]) && After(c, t, [Work(p)]) == Apply(c, t, Work(p));
  }

  /**
   * The attempt numbers of the machine are those of the retry policy: as long as the policy sends again, n failed
   * attempts lead from the first attempt of a batch to the one with number AttemptNumber(n).
   */
  lemma {:induction false} AttemptsAreNumbered(c: WriteConfig, s: State, outcomes: seq<Outcome>, n: nat)
    requires s.worker.Attempt? && s.worker.number == 1 && Unacknowledged(outcomes) && |outcomes| == 2 * n
    requires n > 0 ==> SendsAgain(c.maxRetries, n - 1)
    ensures Valid(c, s, WorkRun(outcomes))
    ensures var w := After(c, s, WorkRun(outcomes)).worker;
      w.Attempt? && w.batch == s.worker.batch && w.number == AttemptNumber(n)
  {
    AttemptNumberSteps(0);
    if n > 0 {
      var front, o, p := outcomes[..2 * n - 2], outcomes[2 * n - 2], outcomes[2 * n - 1];
      assert n - 1 > 0 ==> SendsAgain(c.maxRetries, n - 2);
      AttemptsAreNumbered(c, s, front, n - 1);
      var t := After(c, s, WorkRun(front));
      assert AttemptNumber(n - 1) <= MaxAttempts(c.maxRetries);
      FailedAttempt(c, t, o, p);
      AttemptNumberSteps(n - 1);
      RunConcat(c, s, WorkRun(front), WorkRun([o, p]));
      WorkRunConcat(front, [o, p]);
      assert front + [o, p] == outcomes;
    }
  }

  lemma {:induction false} WorkRunConcat(a: seq<Outcome>, b: seq<Outcome>)
    ensures WorkRun(a + b) == WorkRun(a) + WorkRun(b)
  {
    hide WorkRun;
    if a == [] {
      assert a + b == b;
      WorkRunStep([]);
    } else {
      WorkRunConcat(a[1..], b);
      assert (a + b)[0] == a[0] && (a + b)[1..] == a[1..] + b;
      WorkRunStep(a);
      WorkRunStep(a + b);
      assert [Work(a[0])] + (WorkRun(a[1..]) + WorkRun(b)) == ([Work(a[0])] + WorkRun(a[1..])) + WorkRun(b);
    }
  }

  lemma WorkRunStep(outcomes: seq<Outcome>)
    ensures WorkRun(outcomes) == if outcomes == [] then [] else [Work(outcomes[0])] + WorkRun(outcomes[1..])
  {
  }

  /**
   * With maxRetries == SIZE_MAX - 1 shutdown can hang: the attempt number wraps below its bound, and a server
   * that never acknowledges, however it fails, keeps the worker sending the same batch for ever.
   */
  lemma {:induction false} ShutdownHangs(c: WriteConfig, s: State, outcomes: seq<Outcome>)
    requires c.maxRetries == SIZE_MAX - 1 && Unacknowledged(outcomes)
    requires s.worker.Attempt? || s.worker.Failed?
    requires s.worker.number <= SIZE_MAX
    ensures Valid(c, s, WorkRun(outcomes))
    ensures var e := After(c, s, WorkRun(outcomes));
      (e.worker.Attempt? || e.worker.Failed?) && e.worker.batch == s.worker.batch && e.queue == s.queue
    decreases |outcomes|
  {
    if outcomes != [] { ShutdownHangs(c, Apply(c, s, Work(outcomes[0])), outcomes[1..]); }
  }

  // ---------------------------------------------------------------- snapshots

  datatype Stats = Stats(
    queuedPoints: nat, queuedPointsDropped: nat, pointsWritten: nat, pointsDropped: nat, batchesWritten: nat,
    batchWriteFailures: nat, retryAttempts: nat, errorCode: nat, fundamentalErrorOccurred: bool)

  /** The state after the first i segments of a run. */
  function StateAt(c: WriteConfig, s: State, segments: seq<seq<Action>>, i: nat): State
    requires i <= |segments|
  {
    if i == 0 then s else After(c, StateAt(c, s, segments, i - 1), segments[i - 1])
  }

  ghost predicate ValidSegments(c: WriteConfig, s: State, segments: seq<seq<Action>>) {
    forall i :: 0 <= i < |segments| ==> Valid(c, StateAt(c, s, segments, i), segments[i])
  }

  /** getWriteStats reads its nine values one after the other; other steps run in between. */
  function Snapshot(c: WriteConfig, s: State, g: seq<seq<Action>>): Stats
    requires |g| == 8
  {
    Stats(|s.queue|,
          StateAt(c, s, g, 1).counters.queuedPointsDropped, StateAt(c, s, g, 2).counters.pointsWritten,
          StateAt(c, s, g, 3).counters.pointsDropped, StateAt(c, s, g, 4).counters.batchesWritten,
          StateAt(c, s, g, 5).counters.batchWriteFailures, StateAt(c, s, g, 6).counters.retryAttempts,
          StateAt(c, s, g, 7).errorCode, StateAt(c, s, g, 8).fundamental)
  }

  ghost predicate CountersLe(s: State, s': State) {
    && s.counters.queuedPointsDropped <= s'.counters.queuedPointsDropped
    && s.counters.pointsWritten <= s'.counters.pointsWritten
    && s.counters.pointsDropped <= s'.counters.pointsDropped && s.counters.batchesWritten <= s'.counters.batchesWritten
    && s.counters.batchWriteFailures <= s'.counters.batchWriteFailures
    && s.counters.retryAttempts <= s'.counters.retryAttempts
  }

  lemma StepGrowsCounters(c: WriteConfig, s: State, a: Action)
    ensures CountersLe(s, Apply(c, s, a))
  {
  }

  lemma {:induction false} CountersGrow(c: WriteConfig, s: State, run: seq<Action>)
    requires Valid(c, s, run)
    ensures CountersLe(s, After(c, s, run))
    decreases |run|
  {
    if run != [] {
      StepGrowsCounters(c, s, run[0]);
      CountersGrow(c, Apply(c, s, run[0]), run[1..]);
    }
  }

  /** A snapshot is consistent although it is not atomic. */
  lemma SnapshotConsistent(c: WriteConfig, s: State, g: seq<seq<Action>>)
    requires c.Valid() && Inv(c, s) && |g| == 8 && ValidSegments(c, s, g)
    ensures var stats := Snapshot(c, s, g);
      && stats.queuedPoints <= c.maxQueuePoints
      && stats.queuedPointsDropped <= stats.pointsDropped
      && stats.pointsWritten <= c.maxBatchPoints * stats.batchesWritten
  {
    SegmentsKeepInv(c, s, g, 1);
    SegmentsKeepInv(c, s, g, 2);
    CountersGrow(c, StateAt(c, s, g, 1), g[1]);
    CountersGrow(c, StateAt(c, s, g, 2), g[2]);
    CountersGrow(c, StateAt(c, s, g, 3), g[3]);
    var s2, s4 := StateAt(c, s, g, 2), StateAt(c, s, g, 4);
    CapacityMonotone(c, s2.counters.batchesWritten, s4.counters.batchesWritten);
    CapacityIsProduct(c, s4.counters.batchesWritten);
  }

  lemma {:induction false} CountersGrowBetween(c: WriteConfig, s: State, g: seq<seq<Action>>, i: nat, j: nat)
    requires i <= j <= |g| && ValidSegments(c, s, g)
    ensures CountersLe(StateAt(c, s, g, i), StateAt(c, s, g, j))
    decreases j
  {
    if i < j {
      CountersGrowBetween(c, s, g, i, j - 1);
      CountersGrow(c, StateAt(c, s, g, j - 1), g[j - 1]);
    }
  }

  /** Every value of a snapshot lies between the one at its beginning and the one at its end, in its own place. */
  lemma SnapshotBetween(c: WriteConfig, s: State, g: seq<seq<Action>>)
    requires |g| == 8 && ValidSegments(c, s, g)
    ensures var stats, k, k' := Snapshot(c, s, g), s.counters, StateAt(c, s, g, 8).counters;
      && k.queuedPointsDropped <= stats.queuedPointsDropped <= k'.queuedPointsDropped
      && k.pointsWritten <= stats.pointsWritten <= k'.pointsWritten
      && k.pointsDropped <= stats.pointsDropped <= k'.pointsDropped
      && k.batchesWritten <= stats.batchesWritten <= k'.batchesWritten
      && k.batchWriteFailures <= stats.batchWriteFailures <= k'.batchWriteFailures
      && k.retryAttempts <= stats.retryAttempts <= k'.retryAttempts
      && stats.queuedPoints == |s.queue| && stats.fundamentalErrorOccurred == StateAt(c, s, g, 8).fundamental
      && (exists i: nat :: i <= 8 && stats.errorCode == StateAt(c, s, g, i).errorCode)
  {
    hide ValidSegments;
    forall i: nat | i <= 8
      ensures CountersLe(s, StateAt(c, s, g, i)) && CountersLe(StateAt(c, s, g, i), StateAt(c, s, g, 8))
    {
      CountersGrowBetween(c, s, g, 0, i);
      CountersGrowBetween(c, s, g, i, 8);
    }
    hide StateAt;
    assert Snapshot(c, s, g).errorCode == StateAt(c, s, g, 7).errorCode;
  }

  lemma {:induction false} SegmentsKeepInv(c: WriteConfig, s: State, g: seq<seq<Action>>, i: nat)
    requires c.Valid() && Inv(c, s) && i <= |g| && ValidSegments(c, s, g)
    ensures Inv(c, StateAt(c, s, g, i))
  {
    if i > 0 {
      SegmentsKeepInv(c, s, g, i - 1);
      RunKeepsInv(c, StateAt(c, s, g, i - 1), g[i - 1]);
    }
  }
}
