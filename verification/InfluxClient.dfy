/** The write client itself, as the code of one thread without interference. */
module InfluxClientModel {
  import opened InfluxTypes
  import opened RetryPolicy
  import opened ClientMachine
  import LP = LineProtocol
  import Escaping
  import Tags

  function KeyValues(tags: seq<TagInformation>): (r: seq<(string, string)>)
    ensures |r| == |tags| && forall i :: 0 <= i < |r| ==> r[i] == (tags[i].key, tags[i].value)
  {
    if tags == [] then [] else [(tags[0].key, tags[0].value)] + KeyValues(tags[1..])
  }

  /** The line that a point is written as. */
  ghost function PointLine(c: WriteConfig, p: Point): LP.Line {
    LP.Line(c.measurement, KeyValues(Tags.Merge(p.tags, c.extraTags)), p.influxFieldName, p.fieldValue,
            p.timestampNanoseconds)
  }

  ghost function PointLines(c: WriteConfig, batch: seq<Point>): (r: seq<LP.Line>)
    ensures |r| == |batch| && forall i :: 0 <= i < |r| ==> r[i] == PointLine(c, batch[i])
  {
    if batch == [] then [] else [PointLine(c, batch[0])] + PointLines(c, batch[1..])
  }

  ghost function Payload(c: WriteConfig, batch: seq<Point>): string {
    LP.Join(LP.LineTexts(PointLines(c, batch)))
  }

  /** What the server can read back from the body of one request is the batch, point by point. */
  lemma PayloadDeterminesBatch(c: WriteConfig, batch: seq<Point>)
    requires batch != []
    requires forall i :: 0 <= i < |batch| ==>
               var l := PointLine(c, batch[i]);
               LP.OneLine(l) && LP.BareValue(l.value) && LP.Readable(l)
    ensures var texts := LP.Split(Payload(c, batch));
      |texts| == |batch| &&
      forall i :: 0 <= i < |batch| ==> LP.ReadLine(texts[i]) == Some(LP.Normal(PointLine(c, batch[i])))
  {
    LP.PayloadRoundTrip(PointLines(c, batch));
  }

  /** The parts of a line: those of the configuration and of the point, and nothing else. */
  lemma LineHoldsPoint(c: WriteConfig, batch: seq<Point>, i: nat)
    requires i < |batch|
    requires forall k :: 0 <= k < |batch| ==>
               var l := PointLine(c, batch[k]);
               LP.OneLine(l) && LP.BareValue(l.value) && LP.Readable(l)
    ensures i < |LP.Split(Payload(c, batch))| && LP.ReadLine(LP.Split(Payload(c, batch))[i]).Some?
    ensures var l, p := LP.ReadLine(LP.Split(Payload(c, batch))[i]).value, batch[i];
      && l.measurement == c.measurement && l.field == p.influxFieldName && l.timestamp == p.timestampNanoseconds
      && l.value.isString == p.fieldValue.isString
      && l.value.value == (if l.value.isString then LP.WithoutBlanks(p.fieldValue.value) else p.fieldValue.value)
      && var tags := Tags.Merge(p.tags, c.extraTags);
        |l.tags| == |tags| && forall k :: 0 <= k < |tags| ==> l.tags[k] == (tags[k].key, tags[k].value)
  {
    hide Payload, LP.Split, LP.ReadLine, LP.OneLine, LP.BareValue, LP.Readable;
    PayloadDeterminesBatch(c, batch);
  }

  /** The outcome of the request with the given number and body: everything the network does. */
  type Server = (nat, string) -> Outcome

  /** What a caller without a place for the error text makes of an answer: a refusal is no more than a failure. */
  function Seen(o: Outcome, wantsError: bool): Outcome { if o.Refused? && !wantsError then NotSent("") else o }

  /** None of the `count` requests from number `first` on is acknowledged. */
  ghost predicate AllFail(server: Server, payload: string, first: nat, count: nat) {
    count == 0 || (AllFail(server, payload, first, count - 1) && !server(first + count - 1, payload).Acknowledged?)
  }

  /** A run with the states that it visits. */
  datatype Trace = Trace(states: seq<State>, actions: seq<Action>)

  ghost predicate IsTrace(c: WriteConfig, tr: Trace) {
    && |tr.states| == |tr.actions| + 1
    && forall i :: 0 <= i < |tr.actions| ==>
         Enabled(c, tr.states[i], tr.actions[i]) && tr.states[i + 1] == Apply(c, tr.states[i], tr.actions[i])
  }

  /** The trace leads from s to t. */
  ghost predicate Reaches(c: WriteConfig, s: State, tr: Trace, t: State) {
    IsTrace(c, tr) && tr.states[0] == s && tr.states[|tr.actions|] == t
  }

  /** A trace is a run of the machine, so all its theorems apply. */
  lemma {:induction false} TraceIsRun(c: WriteConfig, s: State, tr: Trace, t: State)
    requires Reaches(c, s, tr, t)
    ensures Valid(c, s, tr.actions) && After(c, s, tr.actions) == t
    decreases |tr.actions|
  {
    if tr.actions != [] {
      assert Enabled(c, tr.states[0], tr.actions[0]);
      TraceIsRun(c, tr.states[1], Trace(tr.states[1..], tr.actions[1..]), t);
    }
  }

  function Idle(s: State): Trace { Trace([s], []) }

  // Ghost bookkeeping of the methods below: a step, or a whole trace, is appended.
  ghost method Extend(c: WriteConfig, s: State, tr: Trace, t: State, a: Action, u: State) returns (tr': Trace)
    requires Reaches(c, s, tr, t) && Enabled(c, t, a) && u == Apply(c, t, a)
    ensures Reaches(c, s, tr', u)
  {
    tr' := Trace(tr.states + [u], tr.actions + [a]);
  }

  ghost method Chain(c: WriteConfig, s: State, tr1: Trace, t: State, tr2: Trace, u: State) returns (tr: Trace)
    requires Reaches(c, s, tr1, t) && Reaches(c, t, tr2, u)
    ensures Reaches(c, s, tr, u)
  {
    tr := Trace(tr1.states + tr2.states[1..], tr1.actions + tr2.actions);
    var n := |tr1.actions|;
    forall i | 0 <= i < |tr.actions|
      ensures Enabled(c, tr.states[i], tr.actions[i]) && tr.states[i + 1] == Apply(c, tr.states[i], tr.actions[i])
    {
      if i >= n {
        assert tr.states[i] == tr2.states[i - n] && tr.actions[i] == tr2.actions[i - n];
      }
    }
  }

  ghost method RejectTrace(c: WriteConfig, s: State) returns (tr: Trace)
    requires s.producer.Free? && |s.queue| >= c.maxQueuePoints
    ensures Reaches(c, s, tr,
                    s.(history := s.history.(rejected := s.history.rejected + 1),
                       counters := s.counters.(pointsDropped := s.counters.pointsDropped + 1,
                                               queuedPointsDropped := s.counters.queuedPointsDropped + 1)))
  {
    var s1 := Apply(c, s, Reject);
    var s2 := Apply(c, s1, ProducerCounts);
    tr := Extend(c, s, Idle(s), s, Reject, s1);
    tr := Extend(c, s, tr, s1, ProducerCounts, s2);
    tr := Extend(c, s, tr, s2, ProducerCounts, Apply(c, s2, ProducerCounts));
  }

  /**
   * Each method is proved to be a run of the step machine of ClientMachine, whose theorems cover all interleavings.
   */
  class InfluxClient {
    const config: WriteConfig
    const server: Server

    var writeQueue: seq<Point>
    var stopWriteWorker: bool
    var queuedPointsDropped: nat
    var pointsWritten: nat
    var pointsDropped: nat
    var batchesWritten: nat
    var batchWriteFailures: nat
    var retryAttempts: nat
    var errorCode: nat
    var fundamentalErrorOccurred: bool
    var lastAsyncWriteError: string

    var requests: nat  // HTTP requests made so far; the clock of the server
    ghost var worker: Worker
    ghost var history: History

    ghost function View(): State
      reads this
    {
      State(writeQueue, stopWriteWorker, fundamentalErrorOccurred, lastAsyncWriteError, errorCode,
            Counters(queuedPointsDropped, pointsWritten, pointsDropped, batchesWritten, batchWriteFailures,
                     retryAttempts),
            worker, Free, history)
    }

    constructor (config: WriteConfig, server: Server)
      ensures this.config == config && this.server == server
      ensures Initial(View()) && requests == 0
    {
      this.config, this.server := config, server;
      writeQueue, stopWriteWorker, lastAsyncWriteError := [], false, "";
      queuedPointsDropped, pointsWritten, pointsDropped := 0, 0, 0;
      batchesWritten, batchWriteFailures, retryAttempts := 0, 0, 0;
      errorCode, fundamentalErrorOccurred := 0, false;
      requests, worker, history := 0, LoopHead, History([], [], [], [], [], 0);
    }

    method BuildLineProtocol(p: Point) returns (line: string)
      ensures line == LP.LineText(PointLine(config, p))
    {
      ghost var l := PointLine(config, p);
      var measurement := LP.EscapeLineProtocolIdentifier(config.measurement);
      var merged := Tags.MergeTags(p.tags, config.extraTags);
      var tagText := "";
      for i := 0 to |merged|
        invariant tagText + LP.TagsText(KeyValues(merged)[i..]) == LP.TagsText(KeyValues(merged))
      {
        var key := LP.EscapeLineProtocolIdentifier(merged[i].key);
        var value := LP.EscapeLineProtocolIdentifier(merged[i].value);
        ghost var more := LP.TagsText(KeyValues(merged)[i + 1..]);
        assert KeyValues(merged)[i..][1..] == KeyValues(merged)[i + 1..];
        Escaping.Assoc(value, more, "");
        Escaping.Assoc("=", value, more);
        Escaping.Assoc(key, "=" + value, more);
        Escaping.Assoc(",", key + ("=" + value), more);
        Escaping.Assoc(tagText, "," + (key + ("=" + value)), more);
        tagText := tagText + ("," + (key + ("=" + value)));
      }
      assert KeyValues(merged)[|merged|..] == [];
      assert tagText + "" == tagText;
      var field := LP.EscapeLineProtocolIdentifier(p.influxFieldName);
      var value := p.fieldValue.value;
      if p.fieldValue.isString {
        value := LP.EscapeLineProtocolStringValue(value);
        value := "\"" + (value + "\"");
      }
      line := measurement + (tagText + (" " + (field + ("=" + (value + LP.TimestampText(p.timestampNanoseconds))))));
    }

    method BuildPayload(batch: seq<Point>) returns (payload: string)
      requires batch != []
      ensures payload == Payload(config, batch)
    {
      payload := "";
      ghost var texts := LP.LineTexts(PointLines(config, batch));
      for i := 0 to |batch|
        invariant i < |batch| ==> payload + LP.Join(texts[i..]) == LP.Join(texts)
        invariant i == |batch| ==> payload == LP.Join(texts)
      {
        var line := BuildLineProtocol(batch[i]);
        assert texts[i..][0] == line && texts[i..][1..] == texts[i + 1..];
        Escaping.Assoc(payload, line, "\n");
        Escaping.Assoc(payload + line, "\n", LP.Join(texts[i + 1..]));
        Escaping.Assoc(payload, line + "\n", LP.Join(texts[i + 1..]));
        payload := payload + line;
        if i + 1 < |batch| { payload := payload + "\n"; }
      }
    }

    // ------------------------------------------------------------ atomic sections of the worker

    method LoadFundamentalError() returns (isSet: bool)
      requires worker.LoopHead?
      modifies `worker
      ensures View() == WorkerStep(config, old(View()), Acknowledged)
      ensures isSet == fundamentalErrorOccurred && worker == if isSet then Exited else Collect
    {
      isSet := fundamentalErrorOccurred;
      worker := if isSet then Exited else Collect;
    }

    /** Takes a batch from the front of the queue, unless the client is stopped and the queue is empty. */
    method TakeBatch() returns (batch: seq<Point>)
      requires config.Valid() && worker.Collect? && (stopWriteWorker || writeQueue != [])
      modifies `writeQueue, `worker
      ensures View() == WorkerStep(config, old(View()), Acknowledged)
      ensures worker == if batch == [] then Exited else Attempt(batch, 1, "")
      ensures batch + writeQueue == old(writeQueue)
      ensures |batch| == Min(|old(writeQueue)|, config.maxBatchPoints)
    {
      batch := [];
      if writeQueue == [] && stopWriteWorker {
        worker := Exited;
        return;
      }
      var batchSize := Min(|writeQueue|, config.maxBatchPoints);
      for i := 0 to batchSize
        invariant batch == old(writeQueue)[..i] && writeQueue == old(writeQueue)[i..]
      {
        batch := batch + [writeQueue[0]];
        writeQueue := writeQueue[1..];
      }
      worker := Attempt(batch, 1, "");
    }

    /** sendWritePayload: one HTTP request.  A refusal leaves its traces only if the caller wants the error text. */
    method SendWritePayload(payload: string, wantsError: bool) returns (o: Outcome)
      requires worker.Attempt? && worker.number <= MaxAttempts(config.maxRetries)
      modifies `requests, `errorCode, `fundamentalErrorOccurred, `worker, `history
      ensures o == Seen(server(old(requests), payload), wantsError) && requests == old(requests) + 1
      ensures View() == WorkerStep(config, old(View()), o)
      ensures fundamentalErrorOccurred <==>
                old(fundamentalErrorOccurred) || o.Unreachable? ||
                (o.Refused? && (o.status == 400 || o.status == 401 || o.status == 404))
      ensures errorCode == if o.Refused? then o.status else old(errorCode)
      ensures !wantsError ==> !o.Refused?
    {
      o := Seen(server(requests, payload), wantsError);
      requests := requests + 1;
      match o {
        case Acknowledged =>
          history := Record(history, worker.batch, Written);
          worker := CountBatch(|worker.batch|);
        case Refused(status, text) =>
          errorCode := status;
          if status == 401 || status == 404 || status == 400 { fundamentalErrorOccurred := true; }
          worker := Failed(worker.batch, worker.number, text);
        case Unreachable(text) =>
          fundamentalErrorOccurred := true;
          worker := Failed(worker.batch, worker.number, text);
        case NotSent(text) =>
          worker := Failed(worker.batch, worker.number, text);
      }
    }

    /** Counts and waits for the next retry, if there is one. */
    method PrepareRetry(attempt: nat, maxAttempts: nat) returns (wait: seq<int>)
      requires worker.Failed? && worker.number == attempt && maxAttempts == MaxAttempts(config.maxRetries)
      modifies `retryAttempts, `worker
      ensures View() == WorkerStep(config, old(View()), Acknowledged)
      ensures wait == if attempt < maxAttempts then [WaitMs(config.retryBackoffMs, attempt)] else []
    {
      wait := [];
      if attempt < maxAttempts {
        retryAttempts := retryAttempts + 1;
        wait := [WaitMs(config.retryBackoffMs, attempt)];
      }
      worker := Attempt(worker.batch, Successor(attempt), worker.error);
    }

    method AddBatchWritten()
      requires worker.CountBatch?
      modifies `batchesWritten, `worker
      ensures View() == WorkerStep(config, old(View()), Acknowledged)
    {
      batchesWritten, worker := batchesWritten + 1, CountWritten(worker.n);
    }

    method AddPointsWritten(n: nat)
      requires worker == CountWritten(n)
      modifies `pointsWritten, `worker
      ensures View() == WorkerStep(config, old(View()), Acknowledged)
    {
      pointsWritten, worker := pointsWritten + n, ClearError;
    }

    method ClearAsyncWriteError()
      requires worker.ClearError?
      modifies `lastAsyncWriteError, `worker
      ensures View() == WorkerStep(config, old(View()), Acknowledged)
    {
      lastAsyncWriteError, worker := "", LoopHead;
    }

    method AddBatchFailure()
      requires worker.CountFailure?
      modifies `batchWriteFailures, `worker
      ensures View() == WorkerStep(config, old(View()), Acknowledged)
    {
      batchWriteFailures, worker := batchWriteFailures + 1, SetError(worker.batch, worker.error);
    }

    method SetLastAsyncWriteError(writeError: string)
      requires worker.SetError? && worker.error == writeError
      modifies `lastAsyncWriteError, `worker
      ensures View() == WorkerStep(config, old(View()), Acknowledged)
    {
      lastAsyncWriteError := if writeError == "" then "Async write failed" else writeError;
      worker := Requeue(worker.batch);
    }

    /** Puts the batch back to the front of the queue in its old order, if the client is not stopped and
        there is room for all of it. */
    method RequeueBatch(batch: seq<Point>) returns (requeued: bool)
      requires worker == Requeue(batch)
      modifies `writeQueue, `worker, `history
      ensures View() == WorkerStep(config, old(View()), Acknowledged)
      ensures requeued == (!stopWriteWorker && |old(writeQueue)| + |batch| <= config.maxQueuePoints)
    {
      requeued := false;
      if !stopWriteWorker && |writeQueue| + |batch| <= config.maxQueuePoints {
        for i := |batch| downto 0
          invariant writeQueue == batch[i..] + old(writeQueue)
          modifies `writeQueue
        {
          writeQueue := [batch[i]] + writeQueue;
        }
        assert batch[0..] == batch;
        requeued, worker := true, LoopHead;
      } else {
        worker, history := CountDropped(|batch|), Record(history, batch, Lost);
      }
    }

    method AddPointsDropped(n: nat)
      requires worker == CountDropped(n)
      modifies `pointsDropped, `worker
      ensures View() == WorkerStep(config, old(View()), Acknowledged)
    {
      pointsDropped, worker := pointsDropped + n, CountQueuedDropped(n);
    }

    method AddQueuedPointsDropped(n: nat)
      requires worker == CountQueuedDropped(n)
      modifies `queuedPointsDropped, `worker
      ensures View() == WorkerStep(config, old(View()), Acknowledged)
    {
      queuedPointsDropped, worker := queuedPointsDropped + n, LoopHead;
    }

    // ------------------------------------------------------------ the worker

    /** Before attempt number `attempt`: all earlier ones failed. */
    ghost predicate Sending(
        s0: State, payload: string, first: nat, attempt: nat, error: string, waits: seq<int>, run: Trace)
      requires 1 <= attempt
      reads this
    {
      && requests == first + attempt - 1 && AllFail(server, payload, first, attempt - 1)
      && waits == Waits(config.retryBackoffMs, Retries(attempt, MaxAttempts(config.maxRetries)))
      && retryAttempts == s0.counters.retryAttempts + |waits|
      && worker == Attempt(InFlight(s0.worker), attempt, error)
      && Reaches(config, s0, run, View())
    }

    /** Attempt number `attempt` succeeded. */
    ghost predicate Delivered(
        s0: State, payload: string, first: nat, attempt: nat, waits: seq<int>, run: Trace)
      requires 1 <= attempt
      reads this
    {
      && requests == first + attempt && SentUntil(true, payload, first, requests)
      && waits == Waits(config.retryBackoffMs, attempt - 1)
      && retryAttempts == s0.counters.retryAttempts + |waits|
      && worker == CountBatch(|InFlight(s0.worker)|)
      && Reaches(config, s0, run, View())
    }

    /** Attempt number `attempt` failed like the earlier ones. */
    ghost predicate AllFailed(
        s0: State, payload: string, first: nat, attempt: nat, error: string, waits: seq<int>, run: Trace)
      requires 1 <= attempt
      reads this
    {
      && requests == first + attempt && AllFail(server, payload, first, attempt)
      && waits == Waits(config.retryBackoffMs, attempt - 1)
      && retryAttempts == s0.counters.retryAttempts + |waits|
      && worker == Failed(InFlight(s0.worker), attempt, error)
      && Reaches(config, s0, run, View())
    }

    /** One turn of the retry loop. */
    method AttemptOnce(
        payload: string, wantsError: bool, attempt: nat, maxAttempts: nat, waits: seq<int>,
        ghost s0: State, ghost first: nat, ghost error: string, ghost before: Trace)
      returns (o: Outcome, waits': seq<int>, ghost run: Trace)
      requires 1 <= attempt <= maxAttempts == MaxAttempts(config.maxRetries) < SIZE_MAX
      requires Sending(s0, payload, first, attempt, error, waits, before)
      modifies `requests, `errorCode, `fundamentalErrorOccurred, `retryAttempts, `worker, `history
      ensures if o.Acknowledged? then Delivered(s0, payload, first, attempt, waits', run)
              else Sending(s0, payload, first, attempt + 1, o.text, waits', run)
      ensures !wantsError ==> errorCode == old(errorCode)
    {
      o, run := SendOne(payload, wantsError, attempt, waits, s0, first, error, before);
      waits' := waits;
      if !o.Acknowledged? {
        waits', run := RetryOne(payload, attempt, maxAttempts, waits, s0, first, o.text, run);
      }
    }

    method SendOne(
        payload: string, wantsError: bool, ghost attempt: nat, ghost waits: seq<int>,
        ghost s0: State, ghost first: nat, ghost error: string, ghost before: Trace)
      returns (o: Outcome, ghost run: Trace)
      requires 1 <= attempt <= MaxAttempts(config.maxRetries)
      requires Sending(s0, payload, first, attempt, error, waits, before)
      modifies `requests, `errorCode, `fundamentalErrorOccurred, `worker, `history
      ensures if o.Acknowledged? then Delivered(s0, payload, first, attempt, waits, run)
              else AllFailed(s0, payload, first, attempt, o.text, waits, run)
      ensures !wantsError ==> errorCode == old(errorCode)
    {
      ghost var t := View();
      o := SendWritePayload(payload, wantsError);
      run := Extend(config, s0, before, t, Work(o), View());
    }

    method RetryOne(
        ghost payload: string, attempt: nat, maxAttempts: nat, waits: seq<int>,
        ghost s0: State, ghost first: nat, ghost error: string, ghost before: Trace)
      returns (waits': seq<int>, ghost run: Trace)
      requires 1 <= attempt <= maxAttempts == MaxAttempts(config.maxRetries) < SIZE_MAX
      requires AllFailed(s0, payload, first, attempt, error, waits, before)
      modifies `retryAttempts, `worker
      ensures Sending(s0, payload, first, attempt + 1, error, waits', run)
    {
      ghost var t := View();
      var wait := PrepareRetry(attempt, maxAttempts);
      waits' := waits + wait;
      run := Extend(config, s0, before, t, Work(Acknowledged), View());
    }

    method GiveUp(ghost s0: State, ghost before: Trace) returns (ghost run: Trace)
      requires worker.Attempt? && worker.number > MaxAttempts(config.maxRetries)
      requires Reaches(config, s0, before, View())
      modifies `worker
      ensures worker == CountFailure(old(worker.batch), old(worker.error))
      ensures Reaches(config, s0, run, View())
    {
      ghost var t := View();
      worker := CountFailure(worker.batch, worker.error);
      run := Extend(config, s0, before, t, Work(Acknowledged), View());
      t := View();
    }

    /** Sends until the server acknowledges or the attempts are used up; `waits` lists the sleeps in between. */
    method AttemptSendBatch(payload: string, wantsError: bool)
      returns (ok: bool, error: string, waits: seq<int>, ghost run: Trace)
      requires config.Valid() && config.maxRetries != SIZE_MAX - 1
      requires worker.Attempt? && worker.number == 1 && worker.error == ""
      modifies `requests, `errorCode, `fundamentalErrorOccurred, `retryAttempts, `worker, `history
      ensures Reaches(config, old(View()), run, View())
      ensures worker == if ok then CountBatch(|old(worker.batch)|) else CountFailure(old(worker.batch), error)
      ensures SentUntil(ok, payload, old(requests), requests)
      ensures requests - old(requests) <= MaxAttempts(config.maxRetries)
      ensures |waits| == retryAttempts - old(retryAttempts) == Max(0, requests - old(requests) - 1)
      ensures waits == Waits(config.retryBackoffMs, |waits|)
      ensures !wantsError ==> errorCode == old(errorCode)
    {
      ghost var attempt;
      ok, error, waits, attempt, run := RetryLoop(payload, wantsError);
      if !ok { run := GiveUp(old(View()), run); }
    }

    /** The loop of attemptSendBatch; `attempt` is the number of the attempt that succeeded, or one more than
        the number of attempts allowed. */
    method RetryLoop(payload: string, wantsError: bool)
      returns (ok: bool, error: string, waits: seq<int>, ghost attempt: nat, ghost run: Trace)
      requires config.Valid() && config.maxRetries != SIZE_MAX - 1
      requires worker.Attempt? && worker.number == 1 && worker.error == ""
      modifies `requests, `errorCode, `fundamentalErrorOccurred, `retryAttempts, `worker, `history
      ensures 1 <= attempt
      ensures ok ==> attempt <= MaxAttempts(config.maxRetries)
                     && Delivered(old(View()), payload, old(requests), attempt, waits, run)
      ensures !ok ==> attempt == MaxAttempts(config.maxRetries) + 1
                      && Sending(old(View()), payload, old(requests), attempt, error, waits, run)
      ensures !wantsError ==> errorCode == old(errorCode)
    {
      var maxAttempts := MaxAttempts(config.maxRetries);
      ghost var s0, first := View(), requests;
      var number: nat := 1;
      ok, error, waits, run := false, "", [], Idle(s0);
      while number <= maxAttempts
        invariant 1 <= number <= maxAttempts + 1
        invariant Sending(s0, payload, first, number, error, waits, run)
        invariant !wantsError ==> errorCode == old(errorCode)
      {
        var o;
        o, waits, run := AttemptOnce(payload, wantsError, number, maxAttempts, waits, s0, first, error, run);
        if o.Acknowledged? {
          ok, attempt := true, number;
          return;
        }
        error, number := o.text, number + 1;
      }
      attempt := number;
    }

    /** Up to the batch that the worker now owns; an empty one means that the worker has exited. */
    method BeginTurn() returns (batch: seq<Point>, ghost run: Trace)
      requires config.Valid() && worker.LoopHead? && (stopWriteWorker || writeQueue != [])
      modifies `writeQueue, `worker
      ensures Reaches(config, old(View()), run, View())
      ensures worker == (if batch == [] then Exited else Attempt(batch, 1, ""))
      ensures batch + writeQueue == old(writeQueue)
      ensures batch == [] ==> fundamentalErrorOccurred || writeQueue == []
    {
      ghost var s0, t := View(), View();
      var fundamental := LoadFundamentalError();
      run := Extend(config, s0, Idle(s0), s0, Work(Acknowledged), View());
      t := View();
      if fundamental { return [], run; }
      batch := TakeBatch();
      run := Extend(config, s0, run, t, Work(Acknowledged), View());
      t := View();
    }

    /** One turn of the worker loop, entered when its wait for points or for the stop flag would end. */
    method WriteWorkerIteration() returns (more: bool, ghost run: Trace)
      requires config.Valid() && config.maxRetries != SIZE_MAX - 1
      requires worker.LoopHead? && (stopWriteWorker || writeQueue != [])
      modifies this
      ensures Reaches(config, old(View()), run, View())
      ensures worker == if more then LoopHead else Exited
      ensures stopWriteWorker == old(stopWriteWorker)
      ensures !more ==> fundamentalErrorOccurred || writeQueue == []
      ensures more && stopWriteWorker ==> |writeQueue| < |old(writeQueue)|
    {
      ghost var s0, t := View(), View();
      ghost var turn;
      var batch;
      batch, run := BeginTurn();
      if batch == [] { return false, run; }
      t := View();
      var ok;
      ok, turn := FinishTurn(batch);
      run := Chain(config, s0, run, t, turn, View());
      t := View();
      more := true;
    }

    /** Sends the batch and settles it, or puts it back. */
    method FinishTurn(batch: seq<Point>) returns (ok: bool, ghost run: Trace)
      requires config.Valid() && config.maxRetries != SIZE_MAX - 1
      requires batch != [] && worker == Attempt(batch, 1, "")
      modifies this
      ensures Reaches(config, old(View()), run, View()) && worker.LoopHead?
      ensures stopWriteWorker == old(stopWriteWorker)
      ensures stopWriteWorker ==> writeQueue == old(writeQueue)
      ensures SentUntil(ok, Payload(config, batch), old(requests), requests)
    {
      hide Reaches, SentUntil, Payload;
      ghost var s0, t := View(), View();
      ghost var turn;
      var writeError;
      ok, writeError, run := SendBatch(batch);
      t := View();
      turn := Settle(ok, batch, writeError);
      run := Chain(config, s0, run, t, turn, View());
      t := View();
    }

    /** Builds the body and sends it. */
    method SendBatch(batch: seq<Point>) returns (ok: bool, writeError: string, ghost run: Trace)
      requires config.Valid() && config.maxRetries != SIZE_MAX - 1
      requires batch != [] && worker == Attempt(batch, 1, "")
      modifies `requests, `errorCode, `fundamentalErrorOccurred, `retryAttempts, `worker, `history
      ensures Reaches(config, old(View()), run, View())
      ensures worker == if ok then CountBatch(|batch|) else CountFailure(batch, writeError)
      ensures SentUntil(ok, Payload(config, batch), old(requests), requests)
    {
      hide Reaches, SentUntil, Payload;
      var payload := BuildPayload(batch);
      var waits;
      ok, writeError, waits, run := AttemptSendBatch(payload, true);
    }

    /** What follows the attempts. */
    method Settle(ok: bool, batch: seq<Point>, writeError: string) returns (ghost run: Trace)
      requires worker == if ok then CountBatch(|batch|) else CountFailure(batch, writeError)
      modifies `batchesWritten, `pointsWritten, `batchWriteFailures, `lastAsyncWriteError, `writeQueue,
               `pointsDropped, `queuedPointsDropped, `worker, `history
      ensures Reaches(config, old(View()), run, View()) && worker.LoopHead?
      ensures stopWriteWorker ==> writeQueue == old(writeQueue)
    {
      hide Reaches;
      if ok { run := HandleSuccess(batch); } else { run := HandleFailure(batch, writeError); }
    }

    method HandleSuccess(batch: seq<Point>) returns (ghost run: Trace)
      requires worker == CountBatch(|batch|)
      modifies `batchesWritten, `pointsWritten, `lastAsyncWriteError, `worker
      ensures Reaches(config, old(View()), run, View()) && worker.LoopHead?
    {
      ghost var s0, t := View(), View();
      AddBatchWritten();
      run := Extend(config, s0, Idle(s0), s0, Work(Acknowledged), View());
      t := View();
      AddPointsWritten(|batch|);
      run := Extend(config, s0, run, t, Work(Acknowledged), View());
      t := View();
      ClearAsyncWriteError();
      run := Extend(config, s0, run, t, Work(Acknowledged), View());
      t := View();
    }

    /** The batch could not be written: it goes back to the front of the queue, or is dropped. */
    method HandleFailure(batch: seq<Point>, writeError: string) returns (ghost run: Trace)
      requires worker == CountFailure(batch, writeError)
      modifies `batchWriteFailures, `lastAsyncWriteError, `writeQueue, `pointsDropped, `queuedPointsDropped,
               `worker, `history
      ensures Reaches(config, old(View()), run, View()) && worker.LoopHead?
      ensures stopWriteWorker ==> writeQueue == old(writeQueue)
    {
      ghost var s0, t := View(), View();
      AddBatchFailure();
      run := Extend(config, s0, Idle(s0), s0, Work(Acknowledged), View());
      t := View();
      SetLastAsyncWriteError(writeError);
      run := Extend(config, s0, run, t, Work(Acknowledged), View());
      t := View();
      ghost var turn := RequeueOrDrop(batch);
      run := Chain(config, s0, run, t, turn, View());
      t := View();
    }

    method RequeueOrDrop(batch: seq<Point>) returns (ghost run: Trace)
      requires worker == Requeue(batch)
      modifies `writeQueue, `pointsDropped, `queuedPointsDropped, `worker, `history
      ensures Reaches(config, old(View()), run, View()) && worker.LoopHead?
      ensures stopWriteWorker ==> writeQueue == old(writeQueue)
    {
      ghost var s0, t := View(), View();
      var requeued := RequeueBatch(batch);
      run := Extend(config, s0, Idle(s0), s0, Work(Acknowledged), View());
      t := View();
      if !requeued {
        AddPointsDropped(|batch|);
        run := Extend(config, s0, run, t, Work(Acknowledged), View());
        t := View();
        AddQueuedPointsDropped(|batch|);
        run := Extend(config, s0, run, t, Work(Acknowledged), View());
        t := View();
      }
    }

    /** The destructor in batching mode: set the stop flag and let the worker drain the queue. */
    method Destroy() returns (ghost run: Trace)
      requires config.Valid() && config.maxRetries != SIZE_MAX - 1
      requires worker.LoopHead? && Inv(config, View())
      modifies this
      ensures Reaches(config, old(View()), run, View())
      ensures worker.Exited? && stopWriteWorker
      ensures fundamentalErrorOccurred ||
              (writeQueue == [] && pointsWritten + pointsDropped == |history.accepted| + history.rejected)
    {
      ghost var s0, t := View(), View();
      stopWriteWorker := true;
      run := Extend(config, s0, Idle(s0), s0, Stop, View());
      var more := true;
      while more
        invariant Reaches(config, s0, run, View())
        invariant stopWriteWorker && worker == if more then LoopHead else Exited
        invariant !more ==> fundamentalErrorOccurred || writeQueue == []
        decreases more, |writeQueue|
      {
        ghost var turn;
        t := View();
        more, turn := WriteWorkerIteration();
        run := Chain(config, s0, run, t, turn, View());
        t := View();
      }
      TraceIsRun(config, s0, run, View());
      RunKeepsInv(config, s0, run.actions);
      InvAccounts(config, View());
    }

    /** Queues the point, or refuses it; without batching it is sent at once. */
    method WritePoint(p: Point) returns (accepted: bool, error: string, ghost run: Trace)
      requires config.Valid() && config.enabled
      modifies this
      ensures Reaches(config, old(View()), run, View())
      ensures var failFast := config.failFastOnAsyncError && old(lastAsyncWriteError) != "";
        var full := |old(writeQueue)| >= config.maxQueuePoints;
        && accepted == (!failFast && !full)
        && writeQueue == (if accepted then old(writeQueue) + [p] else old(writeQueue))
        && error == (if failFast then old(lastAsyncWriteError) else if full then "Write queue is full" else "")
        && pointsDropped - old(pointsDropped) == queuedPointsDropped - old(queuedPointsDropped)
           == (if full && !failFast then 1 else 0)
    {
      ghost var s0 := View();
      run := Idle(s0);
      if config.failFastOnAsyncError && lastAsyncWriteError != "" {
        return false, lastAsyncWriteError, run;
      }
      if |writeQueue| >= config.maxQueuePoints {
        history := history.(rejected := history.rejected + 1);
        pointsDropped := pointsDropped + 1;
        queuedPointsDropped := queuedPointsDropped + 1;
        run := RejectTrace(config, s0);
        return false, "Write queue is full", run;
      }
      writeQueue := writeQueue + [p];
      history := history.(accepted := history.accepted + [p]);
      run := Extend(config, s0, run, s0, Push(p), View());
      return true, "", run;
    }

    /** Without batching a point is sent by the caller's own thread and never queued. */
    method WritePointNow(p: Point, wantsError: bool) returns (ok: bool, error: string)
      requires config.Valid() && !config.enabled && config.maxRetries != SIZE_MAX - 1
      modifies this
      ensures writeQueue == old(writeQueue) && queuedPointsDropped == old(queuedPointsDropped)
      ensures pointsWritten - old(pointsWritten) == batchesWritten - old(batchesWritten) == (if ok then 1 else 0)
      ensures pointsDropped - old(pointsDropped) == batchWriteFailures - old(batchWriteFailures)
              == (if ok then 0 else 1)
      ensures SentUntil(ok, LP.LineText(PointLine(config, p)), old(requests), requests)
      ensures !wantsError ==> error == "" && errorCode == old(errorCode)
    {
      var line := BuildLineProtocol(p);
      ok, error := SendNow(p, line, wantsError);
      if ok {
        pointsWritten, batchesWritten := pointsWritten + 1, batchesWritten + 1;
      } else {
        batchWriteFailures, pointsDropped := batchWriteFailures + 1, pointsDropped + 1;
      }
    }

    method SendNow(ghost p: Point, line: string, wantsError: bool) returns (ok: bool, error: string)
      requires config.Valid() && config.maxRetries != SIZE_MAX - 1
      modifies `requests, `errorCode, `fundamentalErrorOccurred, `retryAttempts, `worker, `history
      ensures SentUntil(ok, line, old(requests), requests)
      ensures !wantsError ==> error == "" && errorCode == old(errorCode)
    {
      worker := Attempt([p], 1, "");
      var waits;
      ghost var run;
      ok, error, waits, run := AttemptSendBatch(line, wantsError);
      if !wantsError { error := ""; }
      worker := LoopHead;
    }

    /** The requests from..until were all for this body; they ended with an acknowledgement, or every
        attempt that the configuration allows failed. */
    ghost predicate SentUntil(ok: bool, body: string, from: nat, until: nat) {
      if ok then from < until && server(until - 1, body).Acknowledged? && AllFail(server, body, from, until - 1 - from)
      else until == from + MaxAttempts(config.maxRetries) && AllFail(server, body, from, until - from)
    }
  }

  /** Retries made before attempt number `attempt` starts. */
  function Retries(attempt: nat, maxAttempts: nat): nat {
    if attempt <= 1 then 0
    else if attempt <= maxAttempts then attempt - 1
    else if maxAttempts == 0 then 0
    else maxAttempts - 1
  }
}
