/** What the answers of the server make of the client. */
module ClientAnswers {
  import opened InfluxTypes
  import opened RetryPolicy
  import opened ClientMachine

  // ---------------------------------------------------------------- what is observed

  datatype Event =
    | Faulted                // a transfer for a reader failed
    | Cleared                // somebody cleared the error text
    | Took                   // the worker took a batch
    | Answered(o: Outcome)   // an attempt to send it was answered
    | Reported               // the worker set or cleared the error text for it

  /** What is observed of one step. */
  function Observe(c: WriteConfig, s: State, a: Action): Option<Event> {
    match a
    case ReaderFault => Some(Faulted)
    case ClearAsyncError => Some(Cleared)
    case Work(o) =>
      if TakesBatch(s, a) then Some(Took)
      else if s.worker.Attempt? && s.worker.number <= MaxAttempts(c.maxRetries) then Some(Answered(o))
      else if s.worker.ClearError? || s.worker.SetError? then Some(Reported)
      else None
    case _ => None
  }

  function Noted(log: seq<Event>, e: Option<Event>): seq<Event> { if e.None? then log else log + [e.value] }

  /** What is observed of a run, after what was observed before. */
  function Log(c: WriteConfig, s: State, run: seq<Action>, before: seq<Event>): seq<Event>
    decreases |run|
  {
    if run == [] then before else Log(c, Apply(c, s, run[0]), run[1..], Noted(before, Observe(c, s, run[0])))
  }

  // ---------------------------------------------------------------- what follows from it

  /** An event that sets the fundamental-error flag. */
  predicate Raises(e: Event) {
    match e
    case Faulted => true
    case Answered(Unreachable(_)) => true
    case Answered(Refused(status, _)) => status == 400 || status == 401 || status == 404
    case _ => false
  }

  function CodeAfter(code: nat, e: Event): nat { if e.Answered? && e.o.Refused? then e.o.status else code }

  /** The status of the last refusal. */
  function LastStatus(log: seq<Event>): nat {
    if log == [] then 0 else CodeAfter(LastStatus(log[..|log| - 1]), log[|log| - 1])
  }

  /** The answers to the attempts for each batch whose end was reported, and for the batch at hand. */
  datatype Turns = Turns(done: seq<seq<Outcome>>, current: Option<seq<Outcome>>)

  function Next(ts: Turns, e: Event): Turns {
    match e
    case Took => Turns(ts.done, Some([]))
    case Answered(o) => if ts.current.Some? then Turns(ts.done, Some(ts.current.value + [o])) else ts
    case Reported => if ts.current.Some? then Turns(ts.done + [ts.current.value], None) else ts
    case _ => ts
  }

  function TurnsOf(log: seq<Event>): Turns {
    if log == [] then Turns([], None) else Next(TurnsOf(log[..|log| - 1]), log[|log| - 1])
  }

  predicate Won(t: seq<Outcome>) { t != [] && t[|t| - 1].Acknowledged? }

  /** The text of the last answer, which is not an acknowledgement. */
  function LastText(t: seq<Outcome>): string {
    if t == [] || t[|t| - 1].Acknowledged? then "" else t[|t| - 1].text
  }

  /** The error text that a batch with these answers leaves. */
  function Verdict(t: seq<Outcome>): string {
    if Won(t) then "" else if LastText(t) == "" then "Async write failed" else LastText(t)
  }

  function TextAfter(text: string, ts: Turns, e: Event): string {
    match e
    case Cleared => ""
    case Reported => if ts.current.Some? then Verdict(ts.current.value) else text
    case _ => text
  }

  /** What the last batch left, unless it was cleared since. */
  function ErrorText(log: seq<Event>): string {
    if log == [] then ""
    else
      var front := log[..|log| - 1];
      TextAfter(ErrorText(front), TurnsOf(front), log[|log| - 1])
  }

  /** Only the last attempt was acknowledged, or none of all that are allowed. */
  ghost predicate Complete(c: WriteConfig, t: seq<Outcome>) {
    if Won(t) then Unacknowledged(t[..|t| - 1]) && Allowed(c, |t|)
    else Unacknowledged(t) && |t| == MaxAttempts(c.maxRetries)
  }

  /** With maxRetries == SIZE_MAX - 1 there is no bound. */
  ghost predicate Allowed(c: WriteConfig, attempts: nat) {
    c.maxRetries != SIZE_MAX - 1 ==> attempts <= MaxAttempts(c.maxRetries)
  }

  function Wins(ts: seq<seq<Outcome>>): nat {
    if ts == [] then 0 else Wins(ts[..|ts| - 1]) + (if Won(ts[|ts| - 1]) then 1 else 0)
  }

  /** All attempts but the first one of each batch. */
  function Retried(ts: seq<seq<Outcome>>): nat {
    if ts == [] then 0 else Retried(ts[..|ts| - 1]) + RetriesOf(ts[|ts| - 1])
  }

  function RetriesOf(t: seq<Outcome>): nat { if t == [] then 0 else |t| - 1 }

  // ---------------------------------------------------------------- the state fits the log

  ghost predicate FlagFits(log: seq<Event>, s: State) {
    s.fundamental <==> exists i :: 0 <= i < |log| && Raises(log[i])
  }

  ghost predicate CodeFits(code: nat, s: State) { s.errorCode == code }

  /** What the worker knows of the batch at hand. */
  ghost predicate WorkerFits(c: WriteConfig, current: Option<seq<Outcome>>, w: Worker) {
    match w
    case Attempt(_, number, error) =>
      current.Some? && Unacknowledged(current.value) && Allowed(c, |current.value|) &&
      number == AttemptNumber(|current.value|) && error == LastText(current.value)
    case Failed(_, number, error) =>
      current.Some? && current.value != [] && Unacknowledged(current.value) && Allowed(c, |current.value|) &&
      number == AttemptNumber(|current.value| - 1) && error == LastText(current.value)
    case CountFailure(_, error) => GaveUp(c, current, error)
    case SetError(_, error) => GaveUp(c, current, error)
    case CountBatch(_) => current.Some? && Won(current.value) && Complete(c, current.value)
    case CountWritten(_) => current.Some? && Won(current.value) && Complete(c, current.value)
    case ClearError => current.Some? && Won(current.value) && Complete(c, current.value)
    case _ => current.None?
  }

  ghost predicate GaveUp(c: WriteConfig, current: Option<seq<Outcome>>, error: string) {
    current.Some? && !Won(current.value) && Complete(c, current.value) && error == LastText(current.value)
  }

  ghost predicate TextFits(text: string, s: State) { s.asyncError == text }

  ghost predicate TurnsFit(c: WriteConfig, ts: Turns, w: Worker) {
    WorkerFits(c, ts.current, w) && forall i :: 0 <= i < |ts.done| ==> Complete(c, ts.done[i])
  }

  /** Retries of the batch at hand that are counted already. */
  function RetriesSoFar(c: WriteConfig, current: Option<seq<Outcome>>, w: Worker): nat {
    if current.None? then 0
    else if w.Attempt? && |current.value| < MaxAttempts(c.maxRetries) then |current.value|
    else RetriesOf(current.value)
  }

  ghost predicate WinsFit(ts: Turns, s: State) {
    s.counters.batchesWritten == Wins(ts.done) + (if s.worker.CountWritten? || s.worker.ClearError? then 1 else 0)
  }

  ghost predicate LossesFit(ts: Turns, s: State) {
    s.counters.batchWriteFailures + Wins(ts.done) == |ts.done| + (if s.worker.SetError? then 1 else 0)
  }

  ghost predicate RetriesFit(c: WriteConfig, ts: Turns, s: State) {
    c.maxRetries != SIZE_MAX - 1 ==>
      s.counters.retryAttempts == Retried(ts.done) + RetriesSoFar(c, ts.current, s.worker)
  }

  ghost predicate CountersFit(c: WriteConfig, ts: Turns, s: State) {
    WinsFit(ts, s) && LossesFit(ts, s) && RetriesFit(c, ts, s)
  }

  ghost predicate Fits(c: WriteConfig, log: seq<Event>, s: State) {
    && FlagFits(log, s) && CodeFits(LastStatus(log), s) && TextFits(ErrorText(log), s)
    && TurnsFit(c, TurnsOf(log), s.worker) && CountersFit(c, TurnsOf(log), s)
  }

  lemma StepFitsFlag(c: WriteConfig, log: seq<Event>, s: State, a: Action)
    requires FlagFits(log, s)
    ensures FlagFits(Noted(log, Observe(c, s, a)), Apply(c, s, a))
  {
    var e := Observe(c, s, a);
    if e.Some? {
      var more := log + [e.value];
      assert more[|log|] == e.value;
      assert forall i :: 0 <= i < |log| ==> more[i] == log[i];
    }
  }

  lemma OneMore(log: seq<Event>, e: Event)
    ensures (log + [e])[..|log|] == log && (log + [e])[|log|] == e
  {
  }

  lemma StepFitsCode(c: WriteConfig, code: nat, s: State, a: Action)
    requires CodeFits(code, s)
    ensures var e := Observe(c, s, a); CodeFits(if e.None? then code else CodeAfter(code, e.value), Apply(c, s, a))
  {
    hide Record;
  }

  lemma StepFitsText(c: WriteConfig, text: string, ts: Turns, s: State, a: Action)
    requires TextFits(text, s) && WorkerFits(c, ts.current, s.worker)
    ensures var e := Observe(c, s, a);
      TextFits(if e.None? then text else TextAfter(text, ts, e.value), Apply(c, s, a))
  {
    hide Record, Complete, Unacknowledged, Allowed, AttemptNumber;
  }

  lemma AttemptNumbers(n: nat)
    ensures AttemptNumber(n) <= SIZE_MAX
    ensures n < SIZE_MAX ==> AttemptNumber(n) == n + 1
    ensures n > 0 ==> AttemptNumber(n) == Successor(AttemptNumber(n - 1))
  {
  }

  /** The batch at hand after one more answer. */
  lemma AnswerFits(c: WriteConfig, t: seq<Outcome>, w: Worker, o: Outcome)
    requires c.Valid() && w.Attempt? && w.number <= MaxAttempts(c.maxRetries) && WorkerFits(c, Some(t), w)
    ensures if o.Acknowledged? then Won(t + [o]) && Complete(c, t + [o])
            else WorkerFits(c, Some(t + [o]), Failed(w.batch, w.number, o.text))
  {
    AttemptNumbers(|t|);
    assert (t + [o])[..|t|] == t;
  }

  /** No attempt is left. */
  lemma NoneLeft(c: WriteConfig, t: seq<Outcome>, w: Worker)
    requires c.Valid() && w.Attempt? && w.number > MaxAttempts(c.maxRetries) && WorkerFits(c, Some(t), w)
    ensures WorkerFits(c, Some(t), CountFailure(w.batch, w.error))
  {
    AttemptNumbers(|t|);
  }

  function Observed(ts: Turns, e: Option<Event>): Turns { if e.None? then ts else Next(ts, e.value) }

  lemma LogGoesOn(log: seq<Event>, e: Option<Event>)
    ensures var more := Noted(log, e);
      && TurnsOf(more) == Observed(TurnsOf(log), e)
      && LastStatus(more) == (if e.None? then LastStatus(log) else CodeAfter(LastStatus(log), e.value))
      && ErrorText(more) == if e.None? then ErrorText(log) else TextAfter(ErrorText(log), TurnsOf(log), e.value)
  {
    if e.Some? { OneMore(log, e.value); }
  }

  /** Steps of others leave the worker, its batch and its counters alone. */
  lemma OthersLeave(c: WriteConfig, ts: Turns, s: State, a: Action)
    requires !a.Work?
    ensures Observed(ts, Observe(c, s, a)) == ts
    ensures var t := Apply(c, s, a);
      && t.worker == s.worker && t.counters.batchesWritten == s.counters.batchesWritten
      && t.counters.batchWriteFailures == s.counters.batchWriteFailures
      && t.counters.retryAttempts == s.counters.retryAttempts
  {
  }

  lemma StepFitsTurns(c: WriteConfig, ts: Turns, s: State, a: Action)
    requires c.Valid() && TurnsFit(c, ts, s.worker)
    ensures TurnsFit(c, Observed(ts, Observe(c, s, a)), Apply(c, s, a).worker)
  {
    if !a.Work? {
      OthersLeave(c, ts, s, a);
    } else if s.worker.Attempt? {
      AttemptFitsTurns(c, ts, s, a.o);
    } else {
      OtherWorkFitsTurns(c, ts, s, a.o);
    }
  }

  lemma AttemptFitsTurns(c: WriteConfig, ts: Turns, s: State, o: Outcome)
    requires c.Valid() && TurnsFit(c, ts, s.worker) && s.worker.Attempt?
    ensures TurnsFit(c, Observed(ts, Observe(c, s, Work(o))), WorkerStep(c, s, o).worker)
  {
    hide AttemptNumber, Complete, Record, Unacknowledged, LastText, Won;
    if s.worker.number <= MaxAttempts(c.maxRetries) {
      AnswerFits(c, ts.current.value, s.worker, o);
    } else {
      NoneLeft(c, ts.current.value, s.worker);
    }
  }

  lemma OtherWorkFitsTurns(c: WriteConfig, ts: Turns, s: State, o: Outcome)
    requires c.Valid() && TurnsFit(c, ts, s.worker) && !s.worker.Attempt?
    ensures TurnsFit(c, Observed(ts, Observe(c, s, Work(o))), WorkerStep(c, s, o).worker)
  {
    hide AttemptNumber, Complete, Record;
    AttemptNumbers(0);
    if s.worker.Failed? { AttemptNumbers(|ts.current.value|); }
  }

  lemma TurnEnds(ts: seq<seq<Outcome>>, t: seq<Outcome>)
    ensures Wins(ts + [t]) == Wins(ts) + (if Won(t) then 1 else 0)
    ensures Retried(ts + [t]) == Retried(ts) + RetriesOf(t)
  {
    assert (ts + [t])[..|ts|] == ts;
  }

  lemma StepFitsWins(c: WriteConfig, ts: Turns, s: State, a: Action)
    requires TurnsFit(c, ts, s.worker) && WinsFit(ts, s)
    ensures WinsFit(Observed(ts, Observe(c, s, a)), Apply(c, s, a))
  {
    hide AttemptNumber, Complete, LastText, Unacknowledged, Wins, Won, Allowed, Record;
    if !a.Work? {
      OthersLeave(c, ts, s, a);
    } else if Observe(c, s, a) == Some(Reported) {
      TurnEnds(ts.done, ts.current.value);
    }
  }

  lemma StepFitsLosses(c: WriteConfig, ts: Turns, s: State, a: Action)
    requires TurnsFit(c, ts, s.worker) && LossesFit(ts, s)
    ensures LossesFit(Observed(ts, Observe(c, s, a)), Apply(c, s, a))
  {
    hide AttemptNumber, Complete, LastText, Unacknowledged, Wins, Won, Allowed, Record;
    if !a.Work? {
      OthersLeave(c, ts, s, a);
    } else if Observe(c, s, a) == Some(Reported) {
      TurnEnds(ts.done, ts.current.value);
    }
  }

  lemma StepFitsRetries(c: WriteConfig, ts: Turns, s: State, a: Action)
    requires c.Valid() && TurnsFit(c, ts, s.worker) && RetriesFit(c, ts, s)
    ensures RetriesFit(c, Observed(ts, Observe(c, s, a)), Apply(c, s, a))
  {
    if !a.Work? {
      OthersLeave(c, ts, s, a);
    } else if s.worker.Attempt? {
      AttemptFitsRetries(c, ts, s, a.o);
    } else if s.worker.Failed? {
      FailureFitsRetries(c, ts, s, a.o);
    } else {
      OtherWorkFitsRetries(c, ts, s, a.o);
    }
  }

  lemma AttemptFitsRetries(c: WriteConfig, ts: Turns, s: State, o: Outcome)
    requires c.Valid() && WorkerFits(c, ts.current, s.worker) && RetriesFit(c, ts, s) && s.worker.Attempt?
    ensures RetriesFit(c, Observed(ts, Observe(c, s, Work(o))), WorkerStep(c, s, o))
  {
    hide AttemptNumber, LastText, Unacknowledged, Retried, Record;
    AttemptNumbers(|ts.current.value|);
  }

  lemma FailureFitsRetries(c: WriteConfig, ts: Turns, s: State, o: Outcome)
    requires c.Valid() && WorkerFits(c, ts.current, s.worker) && RetriesFit(c, ts, s) && s.worker.Failed?
    ensures RetriesFit(c, Observed(ts, Observe(c, s, Work(o))), WorkerStep(c, s, o))
  {
    hide AttemptNumber, LastText, Unacknowledged, Retried, Record;
    AttemptNumbers(|ts.current.value| - 1);
  }

  lemma OtherWorkFitsRetries(c: WriteConfig, ts: Turns, s: State, o: Outcome)
    requires WorkerFits(c, ts.current, s.worker) && RetriesFit(c, ts, s) && !s.worker.Attempt? && !s.worker.Failed?
    ensures RetriesFit(c, Observed(ts, Observe(c, s, Work(o))), WorkerStep(c, s, o))
  {
    hide AttemptNumber, LastText, Unacknowledged, Complete, Won, Retried, Record;
    if Observe(c, s, Work(o)) == Some(Reported) { TurnEnds(ts.done, ts.current.value); }
  }

  lemma TurnsFitWorker(c: WriteConfig, ts: Turns, w: Worker)
    requires TurnsFit(c, ts, w)
    ensures WorkerFits(c, ts.current, w)
  {
  }

  lemma StepFits(c: WriteConfig, log: seq<Event>, s: State, a: Action)
    requires c.Valid() && Fits(c, log, s)
    ensures Fits(c, Noted(log, Observe(c, s, a)), Apply(c, s, a))
  {
    hide FlagFits, CodeFits, TextFits, TurnsFit, WinsFit, LossesFit, RetriesFit, WorkerFits, TurnsOf, LastStatus,
         ErrorText, Observe, Apply, Noted;
    LogGoesOn(log, Observe(c, s, a));
    StepFitsFlag(c, log, s, a);
    StepFitsCode(c, LastStatus(log), s, a);
    assert WorkerFits(c, TurnsOf(log).current, s.worker) by { TurnsFitWorker(c, TurnsOf(log), s.worker); }
    StepFitsText(c, ErrorText(log), TurnsOf(log), s, a);
    StepFitsTurns(c, TurnsOf(log), s, a);
    StepFitsWins(c, TurnsOf(log), s, a);
    StepFitsLosses(c, TurnsOf(log), s, a);
    StepFitsRetries(c, TurnsOf(log), s, a);
  }

  lemma {:induction false} RunFits(c: WriteConfig, log: seq<Event>, s: State, run: seq<Action>)
    requires c.Valid() && Fits(c, log, s)
    ensures Fits(c, Log(c, s, run, log), After(c, s, run))
    decreases |run|
  {
    hide Fits;
    if run != [] {
      StepFits(c, log, s, run[0]);
      RunFits(c, Noted(log, Observe(c, s, run[0])), Apply(c, s, run[0]), run[1..]);
    }
  }

  lemma InitialFits(c: WriteConfig, s: State)
    requires Initial(s)
    ensures Fits(c, [], s)
  {
  }

  /** The worker is between two batches, or has exited. */
  predicate AtRest(w: Worker) { w.LoopHead? || w.Collect? || w.Exited? }

  /**
   * After every run from the start, the flag is set if and only if a reader fault happened or an attempt was answered
   * by a failed transfer or by 400, 401 or 404; the error code is the status of the last refusal; and the error text
   * is what the last batch left, unless somebody cleared it since.
   */
  lemma AnswersDecide(c: WriteConfig, s0: State, run: seq<Action>)
    requires c.Valid() && Initial(s0) && Valid(c, s0, run)
    ensures var s, log := After(c, s0, run), Log(c, s0, run, []);
      && (s.fundamental <==>
           Faulted in log ||
           (exists o ::
              Answered(o) in log &&
              (o.Unreachable? || (o.Refused? && (o.status == 400 || o.status == 401 || o.status == 404)))))
      && s.errorCode == LastStatus(log) && s.asyncError == ErrorText(log)
  {
    InitialFits(c, s0);
    RunFits(c, [], s0, run);
    var s, log := After(c, s0, run), Log(c, s0, run, []);
    if i :| 0 <= i < |log| && Raises(log[i]) {
      assert log[i] in log;
      if log[i].Answered? { assert Answered(log[i].o) in log; }
    }
  }

  /**
   * Every batch was sent until its first acknowledged attempt, or as often as allowed; between batches the counters
   * count the acknowledged ones, the others, and all attempts but the first one of each batch.
   */
  lemma TurnsAreCounted(c: WriteConfig, s0: State, run: seq<Action>)
    requires c.Valid() && Initial(s0) && Valid(c, s0, run) && AtRest(After(c, s0, run).worker)
    ensures var k, ts := After(c, s0, run).counters, TurnsOf(Log(c, s0, run, []));
      && ts.current.None? && (forall i :: 0 <= i < |ts.done| ==> Complete(c, ts.done[i]))
      && k.batchesWritten == Wins(ts.done) && k.batchWriteFailures == |ts.done| - Wins(ts.done)
      && (c.maxRetries != SIZE_MAX - 1 ==> k.retryAttempts == Retried(ts.done))
  {
    InitialFits(c, s0);
    RunFits(c, [], s0, run);
  }

  // ---------------------------------------------------------------- snapshots

  /** Retries of a batch that fails. */
  function RetriesPerFailure(c: WriteConfig): nat {
    if MaxAttempts(c.maxRetries) == 0 then 0 else MaxAttempts(c.maxRetries) - 1
  }

  /** The retries of so many batches that fail. */
  function RetriesOfFailures(c: WriteConfig, failures: nat): nat {
    if failures == 0 then 0 else RetriesOfFailures(c, failures - 1) + RetriesPerFailure(c)
  }

  lemma {:induction false} RetriesAreProduct(c: WriteConfig, failures: nat)
    ensures RetriesOfFailures(c, failures) == RetriesPerFailure(c) * failures
  {
    if failures > 0 { RetriesAreProduct(c, failures - 1); }
  }

  lemma {:induction false} FailuresAreRetried(c: WriteConfig, ts: seq<seq<Outcome>>)
    requires forall i :: 0 <= i < |ts| ==> Complete(c, ts[i])
    ensures Wins(ts) <= |ts| && RetriesOfFailures(c, |ts| - Wins(ts)) <= Retried(ts)
  {
    if ts != [] { FailuresAreRetried(c, ts[..|ts| - 1]); }
  }

  lemma RetriesFollow(c: WriteConfig, log: seq<Event>, s: State)
    requires c.maxRetries != SIZE_MAX - 1 && Fits(c, log, s)
    ensures RetriesOfFailures(c, s.counters.batchWriteFailures) <= s.counters.retryAttempts
  {
    hide FlagFits, CodeFits, TextFits, TurnsOf;
    FailuresAreRetried(c, TurnsOf(log).done);
  }

  lemma {:induction false} SegmentsFit(c: WriteConfig, log: seq<Event>, s: State, g: seq<seq<Action>>, i: nat)
    requires c.Valid() && Fits(c, log, s) && i <= |g|
    ensures exists more :: Fits(c, more, StateAt(c, s, g, i))
  {
    hide Fits;
    if i == 0 {
      assert Fits(c, log, StateAt(c, s, g, 0));
    } else {
      SegmentsFit(c, log, s, g, i - 1);
      var t := StateAt(c, s, g, i - 1);
      var more :| Fits(c, more, t);
      RunFits(c, more, t, g[i - 1]);
      assert Fits(c, Log(c, t, g[i - 1], more), StateAt(c, s, g, i));
    }
  }

  /** A snapshot never shows fewer retries than its failed batches had. */
  lemma SnapshotShowsRetries(c: WriteConfig, s0: State, run: seq<Action>, g: seq<seq<Action>>)
    requires c.Valid() && c.maxRetries != SIZE_MAX - 1 && Initial(s0) && Valid(c, s0, run)
    requires |g| == 8 && ValidSegments(c, After(c, s0, run), g)
    ensures var stats := Snapshot(c, After(c, s0, run), g);
      RetriesPerFailure(c) * stats.batchWriteFailures <= stats.retryAttempts
  {
    hide Fits;
    InitialFits(c, s0);
    RunFits(c, [], s0, run);
    var s := After(c, s0, run);
    SegmentsFit(c, Log(c, s0, run, []), s, g, 5);
    var log :| Fits(c, log, StateAt(c, s, g, 5));
    RetriesFollow(c, log, StateAt(c, s, g, 5));
    CountersGrow(c, StateAt(c, s, g, 5), g[5]);
    var failures := StateAt(c, s, g, 5).counters.batchWriteFailures;
    RetriesAreProduct(c, failures);
  }
}
