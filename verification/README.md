# ChimeraTK ControlSystemAdapter for OPC UA: a verified model

This project models four parts of the adapter and proves what they promise:

* **The asynchronous Influx write client.** `ClientMachine` is a step machine in which any number of producers, one
  worker, readers and the stopping thread interleave; a step is one critical section, one atomic operation or one
  HTTP attempt, and the server answers as it likes. Its theorems hold for every interleaving. `InfluxClient` holds
  the class with the fields of the source; each of its methods is proved to be a run of that machine. `RetryPolicy`
  is about the retry loop and its sleeps, `ClientAnswers` about what the answers of the server make of the flag, the
  error code, the error text and the counters.
* **The texts and numbers around it.** `LineProtocol` and `Tags` for what is written, `FluxQuery` for what is asked,
  `Csv` for what comes back, `Timestamps` and `Calendar` for RFC 3339 time stamps, `HistoryRead` for time
  conversions, read windows, continuation points and pages, `RangeQuery` for the query of a window.
* **The namespace compiler.** `NodeGraph` links references, `NodeOrder` sorts the nodes, `NamespacePrinter` prints
  the calls, `NamespaceProgram` proves that executing them rebuilds the graph, `Bootstrap` that reference types come
  first, and `NamespaceOrder` puts linking, sorting and printing together.
* **The address space.** `FolderIndex` and `FolderPaths` for the folder index and its node ids, `FolderCopy` for the
  recursive copy and `FolderCopyNames` for when it is faithful, `Historizing` for the two lists that say which node
  gets which history.

`InfluxTypes`, `Decimal` and `Escaping` are shared. `dafny verify dfyconfig.toml` checks everything.

Some of the results show where the code does something a reader may not expect:

* `maxRetries` of SIZE_MAX sends nothing, and of SIZE_MAX - 1 never gives up (`RetryPolicy.LoopBoundedIff`), so that
  shutdown can hang (`ClientMachine.ShutdownHangs`).
* A line whose measurement, tag key, tag value or field name ends in a backslash cannot be read back
  (`LineProtocol.LineRoundTrip`).
* An extra tag called host, application, port or nodeId with another value hides the points of a node from its own
  history reads (`Tags.WrittenPointIsSelectedIff`).
* A history read that starts at or after the saturation point of the conversion is rejected; its end would be the
  successor of the largest int64 (`HistoryRead.WindowAcceptedIff`). Reading backwards is right exactly if no record
  arrives before the last request (`HistoryRead.GrowingReverseIff`); otherwise it may repeat records.
* A parent that refers to its child by an inverse reference only gets an additional edge to the child
  (`NamespaceProgram.FaithfulIff`, `NamespaceOrder.SortedInverseParentReference`), and a node can come before its type:
  weights decide, not types (`NodeOrder.LevelsDecide`, `NodeOrder.TypesDecide`,
  `NamespaceOrder.LinkedTypeAfterInstance`).  A child is then bootstrapped if its parent is heavier
  (`NamespaceOrder.HeavierParentIsLater`).
* The generated code may add a reference before it creates the type of that reference, although a comment says that
  the types exist; only from the end of the first pass on they do (`Bootstrap.PassNamesLaterType`,
  `Bootstrap.TypesComeFirst`).
* Only one folder can be created below a node with a numeric id (`FolderIndex.NumericBaseCollides`).
* createFolder answers null for a folder that exists.  A recursive copy is faithful exactly if no two siblings below
  the source have the same name and the target has none of the names of the source (`FolderCopyNames.NamesDecide`);
  otherwise what is below such a folder gets no place on the server (`FolderCopyNames.TwinsLoseOne`).
* A node whose first history setup is not configured gets no history, even if a later one is
  (`Historizing.AssignmentMeans`).

## Model

| member | source | states |
|---|---|---|
| ClientMachine.RefinesFifo | src/history_backend/InfluxClient.cpp:561-679 | every step of producers, worker, readers or stopping thread is a step of one abstract FIFO of accepted points: take and requeue leave it unchanged, push appends, acknowledgement and drop remove exactly the prefix that they settle; the queue stays within maxQueuePoints and a batch within 1..maxBatchPoints |
| ClientMachine.StepKeepsInv | src/history_backend/InfluxClient.cpp:561-679 | the whole invariant (conservation, bounds, every counter exact up to the increments still to come, attempt bound) is inductive over every enabled step |
| ClientMachine.RunKeepsInv | src/history_backend/InfluxClient.cpp:561-679 | the invariant holds after every run of any interleaving |
| ClientMachine.Conservation | src/history_backend/InfluxClient.cpp:561-632 | after every run from the start, settled ++ in flight ++ queued is the sequence of accepted points; accepted = written + lost + in flight + queued; at rest the public counters add up to accepted plus rejected minus queued |
| ClientMachine.WrittenInOrder | src/history_backend/InfluxClient.cpp:576-606 | the acknowledged points are a subsequence of the accepted ones with strictly increasing positions: no reordering, no duplicate |
| ClientMachine.FundamentalErrorStopsTheWorker | src/history_backend/InfluxClient.cpp:319-327 | the flag never goes back to false, and from then on at most one batch leaves the queue, and none unless the worker had already looked at the flag |
| ClientMachine.AfterExit | src/history_backend/InfluxClient.cpp:562-580 | once the worker has exited nothing is settled any more, and accepted = written + lost + still queued whatever producers go on doing |
| ClientMachine.StoppedWorkerProgresses | src/history_backend/InfluxClient.cpp:565-579 | with the stop flag set and no producer holding the lock, the worker is never blocked, and each of its steps lowers a rank whose main part is the queue length |
| ClientMachine.ShutdownDrains | src/history_backend/InfluxClient.cpp:227-239 | after any run from the start, the stop flag, and any steps but those of producers, whatever the server answers and readers do: the worker has made at most Rank steps since the flag, can go on unless it has exited, and has exited once it made them; then a fundamental error occurred, or the queue is empty and each accepted point is counted exactly once as written or dropped |
| ClientMachine.StoppingRun | src/history_backend/InfluxClient.cpp:227-239 | every run of a started client up to the stop flag leads to a state in which the invariant holds and the worker, if it has exited, saw a fundamental error or left an empty queue |
| ClientMachine.ShutdownHangs | src/history_backend/InfluxClient.cpp:543-558 | the one exception: with maxRetries == SIZE_MAX - 1 the attempt number wraps, and after any number of answers none of which acknowledges, whatever they are, the worker is still sending the same batch |
| ClientMachine.AttemptsAreNumbered | src/history_backend/InfluxClient.cpp:544-558 | as long as the retry policy sends again, n failed attempts of a batch lead to the attempt with the number AttemptNumber(n), the size_t counter that the policy is about |
| ClientMachine.SnapshotConsistent | src/history_backend/InfluxClient.cpp:497-512 | a snapshot read value by value, with arbitrary runs between the reads, satisfies queuedPointsDropped <= pointsDropped and pointsWritten <= maxBatchPoints * batchesWritten |
| ClientMachine.SnapshotBetween | src/history_backend/InfluxClient.cpp:497-512 | each of the nine values of a snapshot lies between its own value at the beginning and at the end of the reads, whatever runs in between; the queue length is that at the beginning, the flag that at the end |
| ClientAnswers.AnswersDecide | src/history_backend/InfluxClient.cpp:292-331 | after every run from the start: the flag is set if and only if a reader fault happened or some attempt was answered by a failed transfer or by status 400, 401 or 404; the error code is the status of the last refusal; the error text is empty after an acknowledged batch or a clearing, and the text of the last failed attempt after a failed batch |
| ClientAnswers.TurnsAreCounted | src/history_backend/InfluxClient.cpp:542-630 | every batch was sent until its first acknowledged attempt, or exactly maxRetries + 1 times with none; between batches batchesWritten counts the former, batchWriteFailures the latter, and retryAttempts all attempts but the first one of each batch |
| ClientAnswers.SnapshotShowsRetries | src/history_backend/InfluxClient.cpp:497-512 | a snapshot of any client shows at least maxRetries retries for every failed batch that it shows |
| ClientMachine.HavingAt | src/history_backend/InfluxClient.cpp:602-630 | the written and the lost points are those at the recorded positions of the settled sequence |
| RetryPolicy.SendsExactlyRetriesPlusOne | src/history_backend/InfluxClient.cpp:543-558 | for every size_t maxRetries n below SIZE_MAX - 1 a batch that always fails is sent exactly n + 1 times; SIZE_MAX sends nothing, SIZE_MAX - 1 never stops |
| RetryPolicy.LoopBoundedIff | src/history_backend/InfluxClient.cpp:543-544 | the retry loop is bounded if and only if maxRetries is not SIZE_MAX - 1, and sends at all if and only if it is not SIZE_MAX |
| RetryPolicy.TotalWait | src/history_backend/InfluxClient.cpp:549-555 | r retries sleep base * (2^r - 1) ms for r <= 7 and base * (127 + 64 * (r - 7)) ms beyond |
| RetryPolicy.WaitFitsIntIff | src/history_backend/InfluxClient.cpp:551-553 | no single wait overflows int if and only if the longest one, base * 2^min(r - 1, 6), fits |
| InfluxClientModel.InfluxClient.constructor | src/history_backend/InfluxClient.cpp:219-225 | a new client is an initial state of the machine |
| InfluxClientModel.InfluxClient.BuildLineProtocol | src/history_backend/InfluxClient.cpp:241-290 | the printed line is the line text of the measurement, merged tags, field, value and time stamp of the point, for which ReadLine is proved to be the inverse |
| InfluxClientModel.InfluxClient.BuildPayload | src/history_backend/InfluxClient.cpp:590-598 | the body of a request is the join of the lines of the batch |
| InfluxClientModel.PayloadDeterminesBatch | src/history_backend/InfluxClient.cpp:590-598 | splitting the body of a batch at its newlines and reading each line gives back measurement, merged tags, field, value and time stamp of every point, in order |
| InfluxClientModel.LineHoldsPoint | src/history_backend/InfluxClient.cpp:241-290 | line i of a body, read back, holds the measurement of the configuration, and of point i its field name, its value (a string without blanks at its ends), its time stamp and its merged tags |
| InfluxClientModel.InfluxClient.TakeBatch | src/history_backend/InfluxClient.cpp:565-588 | batch ++ queue is the old queue, the batch has as many points as maxBatchPoints and the queue allow and is empty only on exit, and the new state is the machine step |
| InfluxClientModel.InfluxClient.SendWritePayload | src/history_backend/InfluxClient.cpp:292-331 | one request; the flag is set by a failed transfer and by a refusal with 400, 401 or 404, and by nothing else, the error code by any refusal; all is as in the machine step for that answer, which is a mere failure for a refusal if the caller has no place for the error text |
| InfluxClientModel.InfluxClient.PrepareRetry | src/history_backend/InfluxClient.cpp:548-555 | counts and sleeps only if another attempt follows; the attempt number steps on size_t |
| InfluxClientModel.InfluxClient.RetryLoop | src/history_backend/InfluxClient.cpp:542-559 | ends after the first acknowledged attempt or after all allowed ones failed, as a run of the machine |
| InfluxClientModel.InfluxClient.AttemptSendBatch | src/history_backend/InfluxClient.cpp:542-559 | sends the same body until it is acknowledged or maxRetries + 1 attempts failed; retryAttempts grows by sends - 1, with exactly the sleeps of the retry policy |
| InfluxClientModel.InfluxClient.RequeueBatch | src/history_backend/InfluxClient.cpp:613-622 | puts the whole batch back to the front in its old order exactly if the client is not stopped and there is room for all of it; otherwise it is lost |
| InfluxClientModel.InfluxClient.HandleSuccess | src/history_backend/InfluxClient.cpp:602-606 | the updates after an acknowledged batch are a run of the machine |
| InfluxClientModel.InfluxClient.HandleFailure | src/history_backend/InfluxClient.cpp:609-630 | the updates after a failed batch are a run of the machine, and when stopped leave the queue alone |
| InfluxClientModel.InfluxClient.FinishTurn | src/history_backend/InfluxClient.cpp:590-630 | the body sent is that of the batch taken, until acknowledged or out of attempts; the turn is a run of the machine |
| InfluxClientModel.InfluxClient.WriteWorkerIteration | src/history_backend/InfluxClient.cpp:562-631 | one turn of the loop is a run of the machine; it ends the worker only on a fundamental error or with an empty queue, and when stopped it shortens the queue |
| InfluxClientModel.InfluxClient.Destroy | src/history_backend/InfluxClient.cpp:227-239 | the destructor returns; without a fundamental error the queue is empty and written + dropped = accepted + rejected |
| InfluxClientModel.InfluxClient.WritePoint | src/history_backend/InfluxClient.cpp:654-678 | accepts exactly if the queue has room and no asynchronous error makes it fail fast; appends the point or leaves the queue, with the error text and the two drop counters of each case |
| InfluxClientModel.InfluxClient.WritePointNow | src/history_backend/InfluxClient.cpp:636-648 | without batching a point is sent at once: one of pointsWritten/batchesWritten or batchWriteFailures/pointsDropped grows by one, nothing is queued; without a place for the error text the error code stays as it is |
| InfluxClientModel.TraceIsRun | src/history_backend/InfluxClient.cpp:561-632 | the traces of the methods are runs of the machine, so that its theorems hold for them |
| LineProtocol.EscapeLineProtocolIdentifier | src/history_backend/InfluxClient.cpp:61-71 | the loop computes the escaping whose inverse is ReadIdentifier |
| LineProtocol.ReadIdentifierIff | src/history_backend/InfluxClient.cpp:61-71 | an escaped identifier in front of a delimiter is read back if and only if it does not end in a backslash |
| LineProtocol.Trim | src/history_backend/InfluxClient.cpp:128-134 | both searches together cut leading and trailing whitespace |
| LineProtocol.WithoutBlanksCuts | src/history_backend/InfluxClient.cpp:128-134 | what is left of a value is the part between its outermost non-blank characters |
| LineProtocol.EscapeLineProtocolStringValue | src/history_backend/InfluxClient.cpp:74-97 | escaping and then trimming equals removing leading and trailing space, tab, VT and FF and then escaping: line breaks at the ends survive |
| Escaping.ReadStringEscaped | src/history_backend/InfluxClient.cpp:34-97 | a quoted value of any characters is read back exactly, up to its closing quote and no further, both with the escaping of the line protocol and with that of JSON and Flux |
| LineProtocol.ReadTagsText | src/history_backend/InfluxClient.cpp:270-273 | the printed tags are read back in order if no key or value ends in a backslash, and not otherwise |
| LineProtocol.LineRoundTrip | src/history_backend/InfluxClient.cpp:241-290 | a printed line determines measurement, tags, field, value and time stamp if and only if no identifier in it ends in a backslash |
| LineProtocol.SplitJoin | src/history_backend/InfluxClient.cpp:591-598 | lines without newlines are recovered from the joined body |
| LineProtocol.PayloadRoundTrip | src/history_backend/InfluxClient.cpp:590-598 | splitting a body and reading each line gives the batch back in order |
| Decimal.ParsePrintInt | src/history_backend/InfluxClient.cpp:285-287 | a printed time stamp or port is read back, for every integer |
| Tags.MergeTags | src/history_backend/InfluxClient.cpp:246-268 | the nested searches and updates compute the merge that MergeIsLastWins characterises |
| Tags.MergeIsLastWins | src/history_backend/InfluxClient.cpp:246-268 | merging is a map in which the last applicable extra tag wins; base tags keep their order and place, and keys stay unique |
| Tags.AppliesToNodeIff | src/history_backend/InfluxClient.cpp:247-258 | an extra tag applies to the points of a node if and only if it has no source name or its source name is part of the node id |
| Tags.AppliesWithoutNode | src/history_backend/InfluxClient.cpp:254-257 | to points without a node id only extra tags without a source name apply |
| Tags.FiltersName | src/history_backend/InfluxHistoryBackend.cpp:365-369 | the query for a node selects a point if and only if it carries the node id, the host, the application and the port |
| Tags.WrittenPointIsSelectedIff | src/history_backend/InfluxHistoryBackend.cpp:260-270 | a point written for a node passes every tag filter of the query for that node if and only if no applicable extra tag gives nodeId, host, application or port another value |
| Tags.HostTagHidesPoints | src/history_backend/InfluxHistoryBackend.cpp:365-369 | such an extra tag: one named host hides the points from their own history reads |
| FluxQuery.EscapeJson | src/history_backend/InfluxClient.cpp:34-59 | the loop computes the escaping whose inverse is ReadString |
| FluxQuery.BuildFluxReadQuery | src/history_backend/InfluxClient.cpp:177-193 | the query is the text of its pieces: fixed text and literals in the order bucket, range, measurement, field, tags |
| FluxQuery.ScanRendered | src/history_backend/InfluxClient.cpp:177-193 | reading any text of such pieces gives exactly the values of its literals, and the text around them does not depend on the values |
| FluxQuery.QueryDeterminesFilters | src/history_backend/InfluxClient.cpp:177-193 | a query between two time literals, read back, holds exactly bucket, both bounds, measurement, field and each tag key and value in order; what stands around them is the range and one equality filter each for measurement, field and every tag |
| RangeQuery.TimeExpressionIsLiteral | src/history_backend/InfluxClient.cpp:435-436 | the time stamp that the client inserts without escaping it is its own escaping, so that it is a literal like the others |
| RangeQuery.ReadRangeUnixNanoseconds | src/history_backend/InfluxClient.cpp:424-439 | nothing is asked for an empty range; otherwise the query is the one between the literals of the two printed bounds |
| RangeQuery.QueryDeterminesRange | src/history_backend/InfluxClient.cpp:424-439 | for every range of int64, the bounds read back from the query parse to exactly its bounds, next to bucket, measurement, field and filters |
| RangeQuery.RequestDeterminesRange | src/history_backend/InfluxHistoryBackend.cpp:371-397 | for every history request whose lower bound is not saturated, the query asks for exactly its window |
| RangeQuery.EpochOfUaTime | src/history_backend/InfluxHistoryBackend.cpp:64-83 | UA time stamps count units of 100 ns from 1601-01-01 of the calendar that the time stamps of Influx use |
| Csv.ParseCsvLine | src/history_backend/InfluxClient.cpp:99-126 | the character loop with its look-ahead splits a line as CellsFrom does |
| Csv.RoundTrip | src/history_backend/InfluxClient.cpp:99-126 | for every non-empty list of arbitrary cells, each enclosed in quotes or not as section 2 of RFC 4180 allows, reading the written line gives the cells |
| Csv.CellCount | src/history_backend/InfluxClient.cpp:99-126 | on any line at all, the number of cells is one plus the number of commas that follow an even number of double quotes |
| Csv.CellsHold | src/history_backend/InfluxClient.cpp:99-126 | on any line at all, the cells hold exactly the characters that are no double quotes and no commas outside quotes, and one double quote for each pair of them that ends and resumes an enclosed part |
| Timestamps.FormatRfc3339FromNanoseconds | src/history_backend/InfluxClient.cpp:195-217 | prints the instant, or the epoch for negative values; RoundTrip and PrintingIsMonotone are about this text |
| Timestamps.ParseTimestampToNanoseconds | src/history_backend/InfluxClient.cpp:143-175 | reads any string as Parse does, including the cases in which it answers 0 or in which std::stoll throws |
| Timestamps.RoundTrip | src/history_backend/InfluxClient.cpp:143-217 | for every int64 n >= 0, parsing the printed time stamp (section 5.6 of RFC 3339) gives n, so that nothing overflows |
| Timestamps.ParseWithFraction | src/history_backend/InfluxClient.cpp:151-162 | a time stamp with any number of fraction digits: the first nine count, missing ones are zeros |
| Timestamps.ParseWithoutFraction | src/history_backend/InfluxClient.cpp:151-154 | without a point, or without a Z, whatever else follows the clock time, the value is the whole second |
| Timestamps.WholeSecond | src/history_backend/InfluxClient.cpp:151-174 | the form of a whole second without a point means the same as with any number of zeros in the fraction |
| Timestamps.HeadIff | src/history_backend/InfluxClient.cpp:144-169 | the results about fractions hold for exactly those heads that are a date (months 1-12, days 1-31) and a clock time (seconds up to 60) not before the epoch |
| Timestamps.ParseIsEpoch | src/history_backend/InfluxClient.cpp:147-172 | a text that does not start with a date and a clock time gives 0, and so does one before the epoch |
| Timestamps.StollReads | src/history_backend/InfluxClient.cpp:162 | a fraction is read as blanks, sign and leading digits, and throws without a digit |
| Timestamps.DropTrailingZeros | src/history_backend/InfluxClient.cpp:151-162 | dropping trailing zeros of the fraction, even all of its digits, does not change the value |
| Timestamps.PrintingIsMonotone | src/history_backend/InfluxClient.cpp:195-217 | later instants print as lexicographically greater strings, over all of int64 from 0 on |
| Calendar.CivilRoundTrip | src/history_backend/InfluxClient.cpp:205-211 | gmtime by search over years and months yields a date of the calendar, and the closed form of timegm takes it back to the same day |
| Calendar.DateRoundTrip | src/history_backend/InfluxClient.cpp:164-169 | every date of the calendar from 1970 on is taken back to itself the other way round |
| Calendar.DayOverflows | src/history_backend/InfluxClient.cpp:164-169 | a day beyond the end of its month is one of the next month, as timegm has it |
| Calendar.CivilMonotone | src/history_backend/InfluxClient.cpp:205-211 | later days are later dates |
| HistoryRead.ConversionsFit | src/history_backend/InfluxHistoryBackend.cpp:64-83 | no result and no intermediate result of the two conversions leaves int64 |
| HistoryRead.ConversionsMonotone | src/history_backend/InfluxHistoryBackend.cpp:64-83 | both conversions are monotone on int64 |
| HistoryRead.RoundTripClamps | src/history_backend/InfluxHistoryBackend.cpp:64-83 | there and back is clamping to [epoch, epoch + maxInt64 / 100] |
| HistoryRead.RoundTripRounds | src/history_backend/InfluxHistoryBackend.cpp:64-83 | the other way round rounds down to 100 ns, except that the last unit saturates |
| HistoryRead.WindowAcceptedIff | src/history_backend/InfluxHistoryBackend.cpp:371-397 | for all bounds, set or not, and all readings of the clock, the derived window passes the range check if and only if its lower bound lies before the saturation point |
| HistoryRead.WindowCovers | src/history_backend/InfluxHistoryBackend.cpp:373-393 | every instant between two bounds, whichever comes first, lies in the window, and the window is no larger |
| HistoryRead.WindowIs | src/history_backend/InfluxHistoryBackend.cpp:371-393 | whichever bounds are set, with the epoch and the present for unset ones: the window holds exactly the time stamps from the lower to the upper bound, as far as the conversion can tell them apart, and has their nanoseconds as its ends |
| HistoryRead.EmptyWindowIs | src/history_backend/InfluxHistoryBackend.cpp:391-393 | where that would be nothing, it goes on to the present and holds at least the lower bound |
| HistoryRead.SwappedWindow | src/history_backend/InfluxHistoryBackend.cpp:371-393 | swapping two different bounds gives the same window and the opposite direction |
| HistoryRead.ContinuationPointRoundTrip | src/history_backend/InfluxHistoryBackend.cpp:29-62 | every size_t offset comes back from its continuation point |
| HistoryRead.ContinuationPointAccepted | src/history_backend/InfluxHistoryBackend.cpp:29-49 | a non-empty byte string is accepted if and only if it is the continuation point of some offset |
| HistoryRead.GetHistoryData | src/history_backend/InfluxHistoryBackend.cpp:339-468 | the whole read: release, invalid continuation point, failed or rejected query, or the page of the ordered records |
| HistoryRead.FillPage | src/history_backend/InfluxHistoryBackend.cpp:408-467 | the fill loop yields the page: values and both time stamps of the records from the offset on, at most as many as both limits allow, and a continuation point exactly if some are left |
| HistoryRead.PageCarries | src/history_backend/InfluxHistoryBackend.cpp:434-454 | value i of a page is that of record skip + i, and both its time stamps are the record time rounded down to 100 ns |
| HistoryRead.PagesConcatenate | src/history_backend/InfluxHistoryBackend.cpp:404-467 | following continuation points to the end terminates and yields every record once and in order, whatever the two limits are |
| HistoryRead.SwappedBoundsReverse | src/history_backend/InfluxHistoryBackend.cpp:371-406 | with swapped bounds the pages concatenate to the reversed list (section 6.4.3 of OPC 10000-11) |
| HistoryRead.GrowingListIsReadOnce | src/history_backend/InfluxHistoryBackend.cpp:408-467 | also while records are appended between requests nothing is skipped or repeated, and the client is done after at most as many requests as there are records in the end |
| HistoryRead.GrowingReverseIff | src/history_backend/InfluxHistoryBackend.cpp:404-467 | reading backwards while records are appended gives the records there were at first, in reverse, if and only if none is appended before the last of the requests that reading those takes |
| HistoryRead.SteadyReadIff | src/history_backend/InfluxHistoryBackend.cpp:408-467 | the same wherever new records go in the list: the rest of the first list is read if and only if the list stays as it is for as many requests as reading it takes |
| HistoryRead.GrowingReverseRepeats | src/history_backend/InfluxHistoryBackend.cpp:404-412 | such a case: a record appended between two backward requests makes the second page repeat the first |
| NodeGraph.Namespace.AddForward | tools/pyUANamespace/ua_node_types.py:302-307 | appends one new reference to one node |
| NodeGraph.Namespace.InvertReferences | tools/pyUANamespace/ua_namespace.py:384-393 | afterwards every inverse reference has its forward mirror at the other end, no edge was added or lost, and the references of each node start with its old ones |
| NodeGraph.InvertOneEnriches | tools/pyUANamespace/ua_namespace.py:387-393 | mirroring one reference adds no edge and no inverse reference and keeps those mirrored before |
| NamespacePrinter.NodePrinter.GetFirstParentNode | tools/pyUANamespace/ua_node_types.py:357-385 | the first reference to the node held by the first node that an inverse reference names |
| NamespaceProgram.ParentHolds | tools/pyUANamespace/ua_node_types.py:357-385 | that reference is held by the parent and points to the node |
| NamespaceProgram.FirstInverseDecides | tools/pyUANamespace/ua_node_types.py:357-385 | a node of a linked graph has a parent if and only if it has an inverse reference, and the first one decides: the node it names, by the first of the references which that one holds to the node |
| NamespacePrinter.NodePrinter.CreateNode | tools/pyUANamespace/ua_node_types.py:680-703 | creates below the parent if that is printed, taking the parent reference and all equal inverse ones off the list, and bootstraps otherwise |
| NamespacePrinter.NodePrinter.PrintOpen62541CCode | tools/pyUANamespace/ua_node_types.py:658-745 | the calls printed for a node and what it takes off the two lists, for any state of the lists |
| NamespaceProgram.PrintNodeMembers | tools/pyUANamespace/ua_node_types.py:658-745 | exactly three groups of references leave the list: those settled by creation, own ones to printed nodes, and those of printed nodes that waited for this one |
| NamespaceProgram.PrintNodeCalls | tools/pyUANamespace/ua_node_types.py:674-740 | the calls printed for a node: its creation, below its parent exactly if that is printed, and one call for each reference on the list between the node and a printed one, but for the parent reference and those back along it |
| NamespaceProgram.ExecPrintNode | tools/pyUANamespace/ua_node_types.py:658-745 | executing the calls of one node succeeds, creates that node, and adds exactly the edges of these groups and the parent edge |
| NamespaceProgram.SettledIsAdded | tools/pyUANamespace/ua_node_types.py:684-692 | a reference that is dropped because the server adds it loses no edge, not even when the parent knows its child by an inverse reference only |
| NamespaceProgram.PrintNodeKeepsInv | tools/pyUANamespace/ua_node_types.py:658-745 | every prefix of the program runs; nodes on the server are those off the list, and each edge to print is there or still covered by the list |
| NamespaceProgram.ProgramRebuilds | tools/pyUANamespace/ua_namespace.py:633-722 | for every linked graph, set of ignored nodes and order, execution creates every other node exactly once, never adds an edge without its ends, leaves only self-references over, and yields exactly the edges to print and the parent edges |
| NamespaceProgram.ParentEdgesAre | tools/pyUANamespace/ua_node_types.py:677-692 | which edges come with creation: those of the nodes whose parent is ignored or earlier in the order |
| NamespaceProgram.FaithfulIff | tools/pyUANamespace/ua_namespace.py:633-722 | the program makes up no edge and misses only edges starting at ignored nodes if and only if each of those parent edges is an edge of the input |
| NamespaceProgram.ForwardParentsAreFaithful | tools/pyUANamespace/ua_namespace.py:633-722 | so it is faithful where parents refer to their children by forward references |
| NamespaceProgram.InverseParentReference | tools/pyUANamespace/ua_node_types.py:368-385 | and it is not for a parent with only an inverse reference to its child: an edge in the wrong direction appears |
| NamespaceProgram.CollectRefsUsed | tools/pyUANamespace/ua_namespace.py:691-708 | the loop collects exactly the types of namespace 0 that some reference has, as RefsUsed does |
| NamespaceProgram.RefsUsedAreUsed | tools/pyUANamespace/ua_namespace.py:698-710 | a node is collected if and only if it is of namespace 0 and the type of some reference |
| NamespaceProgram.RefsUsedInOrder | tools/pyUANamespace/ua_namespace.py:698-710 | each is collected once, in the order of the first references that have it |
| Bootstrap.TypesComeFirst | tools/pyUANamespace/ua_namespace.py:694-722 | for any linked graph and order, the program starts with a pass that creates exactly the reference types of namespace 0 in use, and every call behind that pass names a type that is on the server already, or one of another namespace |
| Bootstrap.TypesBeforeOthers | tools/pyUANamespace/ua_namespace.py:694-722 | so every such type is created before every node that is none |
| Bootstrap.EdgesSoFar | tools/pyUANamespace/ua_namespace.py:712-722 | after any part of the program the edges on the server are those to print whose two ends are there, and those from parents, whether their types are there or not |
| Bootstrap.PassNamesLaterType | tools/pyUANamespace/ua_node_types.py:704-722 | so the comment that the types exist holds behind the pass only: in it, a reference can be added before its type is created |
| NamespaceProgram.PrintNamespace | tools/pyUANamespace/ua_namespace.py:629-748 | for the order that the graph has, the emitted calls are those of ProgramRebuilds for reference types first and then all nodes; the pass over leftover references adds none |
| NamespaceOrder.PrintOpen62541Header | tools/pyUANamespace/ua_namespace.py:616-748 | the whole: the nodes are sorted by the in-place algorithm, and the emitted calls are those of ProgramRebuilds for that order, of which FaithfulIff says what they build; they start with the reference types in use, as TypesComeFirst says |
| NamespaceOrder.ReorderedIsLinked | tools/pyUANamespace/ua_namespace.py:599-614 | sorting keeps the nodes and leaves the graph linked |
| NamespaceOrder.SortingCreatesBelowParents | tools/pyUANamespace/ua_namespace.py:621-624 | what sorting is for: where own types do not get lighter along ordinary forward references and parents refer to their children by such references, every node but the reference types in use is created below its parent if and only if it has one, so that nothing else is bootstrapped |
| NamespaceOrder.HeavierParentIsLater | tools/pyUANamespace/ua_namespace.py:621-624 | and what it misses: a parent whose own types weigh more than those of its child and all references to the child is printed later, and the child is bootstrapped |
| NamespaceOrder.EndToEnd | tools/pyUANamespace/ua_namespace.py:384-748 | from the graph as it was read, through linking, sorting and printing, to the server: the program runs, creates every node, and builds the edges of the graph as read, apart from those starting at ignored nodes, if and only if the edges from parents are among them |
| NamespaceOrder.CompileNamespace | tools/pyUANamespace/ua_namespace.py:384-748 | the imperative chain of the three passes does that, with the reference types in use first, and leaves the namespace linked |
| NamespaceOrder.SortedInverseParentReference | tools/pyUANamespace/ua_node_types.py:368-385 | also in the sorted order, a parent with only an inverse reference to its child gets an edge in the wrong direction |
| NodeOrder.CountReferences | tools/pyUANamespace/ua_namespace.py:583-597 | all matrix entries change by what the references of one node count, and no others |
| NodeOrder.GetMinWeightNode | tools/pyUANamespace/ua_namespace.py:534-552 | the first of the lightest rows that are left, found although the start value of the minimum is negative |
| NodeOrder.ReorderNodesMinDependencies | tools/pyUANamespace/ua_namespace.py:554-614 | the in-place algorithm emits at each position the first of the lightest nodes left |
| NodeOrder.GreedyIsPermutation | tools/pyUANamespace/ua_namespace.py:599-614 | the result is a permutation of the nodes |
| NodeOrder.WeightMeans | tools/pyUANamespace/ua_namespace.py:583-610 | the weight of a node that is left is that of its own types plus the number of ordinary forward references to it from nodes that are left |
| NodeOrder.ReferencedAfterReferencing | tools/pyUANamespace/ua_namespace.py:583-614 | in any namespace in which no node refers to itself through others and own types do not get lighter along ordinary forward references, every node comes after all nodes that refer to it by one |
| NodeOrder.BelowComesFirst | tools/pyUANamespace/ua_namespace.py:583-614 | whatever the references are: for every limit, the nodes that can be taken one after the other while each is lighter than the limit all come before all others |
| NodeOrder.LevelsDecide | tools/pyUANamespace/ua_namespace.py:583-614 | so of any two nodes that are not below the same limits, one comes first if and only if it is below a limit that the other is not below |
| NodeOrder.TypesDecideAbove | tools/pyUANamespace/ua_namespace.py:583-614 | two nodes above a limit to which only nodes below it refer stand in the order of what their own types weigh; the old order decides between equal weights |
| NodeOrder.LighterTypesFirst | tools/pyUANamespace/ua_namespace.py:588-614 | where no node refers to itself through others and own types do not get lighter along ordinary forward references: of two nodes whose own types weigh differently, the lighter one comes first |
| NodeOrder.TypesDecide | tools/pyUANamespace/ua_namespace.py:588-614 | under the same premise, with only nodes of lighter types referring to either node: one comes first if and only if its own type definitions and inverse subtype references weigh less, or the same and it came first before |
| NodeOrder.FewDecide | tools/pyUANamespace/ua_namespace.py:588-614 | whatever refers to what, of two nodes whose own types weigh differently and to each of which fewer than 100 ordinary forward references lead, the lighter one comes first |
| NodeOrder.RespectsIff | tools/pyUANamespace/ua_namespace.py:588-614 | where fewer than 100 ordinary forward references lead to each node, every node comes after all nodes that refer to it if and only if no node refers to itself through others and own types do not get lighter along the references |
| NodeOrder.LightComesFirst | tools/pyUANamespace/ua_namespace.py:588-614 | in general a node comes first whose own types and all references to it together weigh less than the types of the other |
| NodeOrder.TypeAfterInstance | tools/pyUANamespace/ua_namespace.py:588-608 | so types are not sorted before what has them: in whatever order the algorithm gives these rows, a type that is a subtype of two others comes after its instance |
| NamespaceOrder.LinkedTypeAfterInstance | tools/pyUANamespace/ua_namespace.py:588-608 | the rows are those of a linked namespace of an instance, its type, two supertypes and the two reference types |
| FolderIndex.UaAdapter.ExistFolder | src/ua_adapter.cpp:1773-1780 | the first entry with that name and parent, or null |
| FolderIndex.UaAdapter.ExistFolderPath | src/ua_adapter.cpp:1762-1771 | the node found by walking the path, or null as soon as one name is missing |
| FolderIndex.UaAdapter.CreateUAFolder | src/ua_adapter.cpp:1631-1666 | null if the derived id is taken, otherwise that id, which is then taken |
| FolderIndex.UaAdapter.CreateFolder | src/ua_adapter.cpp:1827-1841 | one new entry, or none and null if the base is null or the folder exists |
| FolderIndex.UaAdapter.CreateFolderPath | src/ua_adapter.cpp:1782-1825 | the search for the existing part and the creation loop amount to CreatePath |
| FolderIndex.CreateFolderPathCreates | src/ua_adapter.cpp:1782-1825 | the result is non-null if and only if no other node has an id to be created; it is then what existFolderPath finds, with exactly one new entry for each name after the longest existing prefix and all old entries in place, and repeating it changes nothing |
| FolderIndex.ExtendsKeepsPaths | src/ua_adapter.cpp:1762-1780 | every path found before is found as the same node afterwards |
| FolderIndex.CreatePathKeepsSound | src/ua_adapter.cpp:1782-1841 | also a failed creation leaves an index in which a null entry means that its id is taken |
| FolderIndex.NumericBaseCollides | src/ua_adapter.cpp:1655-1657 | below a node with a numeric id only one folder can be created, as the name is not part of the id |
| FolderIndex.NumericBasesDiffer | src/ua_adapter.cpp:1655-1657 | below different numeric ids the derived ids differ |
| FolderIndex.FirstEntryIsFound | src/ua_adapter.cpp:1773-1780 | of several entries for a folder, the first one is found |
| FolderPaths.PathIdInjective | src/ua_adapter.cpp:1647-1654 | different paths of names without slashes get different node ids |
| FolderPaths.EmptyBaseIsRoot | src/ua_adapter.cpp:1647-1654 | below the empty string id, from which nothing is cut off, folders get the ids of the empty root |
| FolderPaths.PathIdsCollideIff | src/ua_adapter.cpp:1647-1654 | two paths of any names share a node id if and only if cutting the names at their slashes gives the same list |
| FolderPaths.SlashesCollide | src/ua_adapter.cpp:1647-1654 | such as two paths of one and of two names |
| FolderPaths.FindPathIsMembership | src/ua_adapter.cpp:1762-1780 | below one root, lookup is membership in a set of paths |
| FolderPaths.AnyCallsRefinePathSet | src/ua_adapter.cpp:1782-1841 | from the empty index, any sequence of calls with names without slashes succeeds every time, and the index then holds exactly the prefixes of the paths asked for |
| FolderPaths.CreatePathRefinesPathSet | src/ua_adapter.cpp:1782-1841 | below one root and with names without slashes creation always succeeds, and the index stays the picture of a prefix-closed set of paths to which the prefixes of the new path were added |
| FolderCopy.AddressSpace.AddFolder | src/ua_adapter.cpp:1827-1841 | createFolder of the folder index; a folder that it creates is shown as a new empty one at the end of the target |
| FolderCopy.CreateFolderRefusedIff | src/ua_adapter.cpp:1631-1666 | no folder is created if and only if there is no target or the id derived from target and name is in use, which it is when the folder exists |
| FolderCopy.AddressSpace.DeepCopyHierarchicalLayer | src/ua_adapter.cpp:895-965 | the recursion terminates for an acyclic source that does not contain the target, leaves the source as it is, and computes CopyLayer |
| FolderCopy.CopyLayerIsCopyIff | src/ua_adapter.cpp:895-965 | into any folder, whatever it holds, a layer is copied faithfully (all variables with their process variables, a copy of every folder in order, no methods, what was there kept) if and only if the ids of all folders of the copy are pairwise different and none is in use; in any case nothing else on the server changes |
| FolderCopyNames.NamesDecide | src/ua_adapter.cpp:895-965 | below one root and with names without slashes: if and only if siblings have different names at every folder below the source, and the target has no folder of a name that the source layer has |
| FolderCopyNames.FreshTargetIff | src/ua_adapter.cpp:895-965 | into a folder without folders: if and only if siblings have different names at every folder below the source |
| FolderCopy.SameNameIsLost | src/ua_adapter.cpp:955-959 | two folders of one name below a layer: the layer is never copied faithfully |
| FolderCopyNames.TwinsLoseOne | src/ua_adapter.cpp:1191-1207 | such a source among the folders of the adapter, as references to a folder of another place make it: the second folder is not created, and its variable has no place on the server |
| FolderCopy.ReportsMethodIff | src/ua_adapter.cpp:922-925 | the result is true if and only if some chain of folders leads to a method, wherever the copy goes |
| FolderCopy.CopyBinds | src/ua_adapter.cpp:926-930 | every variable below the source is bound to its process variable exactly once and in order, wherever the copy goes |
| FolderCopy.CopyToNowhere | src/ua_adapter.cpp:955-959 | where createFolder returned null, the rest of the copy changes neither the folders nor the index |
| Historizing.HistorizingLists.GetChildVariables | src/node_historizing.cpp:18-39 | appends what one reference leads to: the variables of a nested folder first, then its own node |
| Historizing.HistorizingLists.AddVariableHistorizing | src/node_historizing.cpp:63-91 | appends the configured variables that exist, in order |
| Historizing.HistorizingLists.AddFolderHistorizing | src/node_historizing.cpp:41-61 | appends all variables below the configured folders that exist, each with the setup of its folder, as HistoryFollowsConfiguration spells out |
| Historizing.BelowHasChain | src/node_historizing.cpp:18-39 | everything appended for a folder is a variable at the end of a chain of folders that starts there |
| Historizing.ChainIsBelow | src/node_historizing.cpp:18-39 | and every such variable is appended |
| Historizing.HistorizingLists.CheckHistorizingNodes | src/node_historizing.cpp:131-159 | the loop that restarts after erasing terminates; it keeps exactly the first entry of each node, in order, in both lists |
| Historizing.HistorizingLists.RemoveNodesWithIncompleteHistorizingSetup | src/node_historizing.cpp:161-190 | the loop that restarts where it erased terminates and keeps exactly the entries whose setup is configured |
| Historizing.HistorizingLists.AddHistorizingNodes | src/node_historizing.cpp:192-200 | the two lists stay parallel, name no node twice, and hold exactly what the configuration says: an existing node with a setting of its own has the setup of the first one, any other variable that of the first existing folder from which a chain of folders leads to it, provided that this setup is configured; and no other node is listed |
| Historizing.KeepFirstMeans | src/node_historizing.cpp:131-159 | an entry is kept if and only if it is the first one listed for its node |
| Historizing.AssignmentMeans | src/node_historizing.cpp:131-200 | no node occurs twice, every setup is configured, and a node is historized if and only if the first setup listed for it is configured, and then with that one |
| Historizing.HistoryFollowsConfiguration | src/node_historizing.cpp:41-200 | the same about the specification of the lists: an entry is in them if and only if its node and setup are what the configuration says and the setup is configured |

## Left out

- ClientMachine.Conservation: the counters are unbounded; the atomics of the source wrap at 2^64.
- ClientMachine.StoppedWorkerProgresses: assumes a scheduler that lets the worker run; waiting times and the flush interval are not modelled, a wait ends when its condition allows it.
- ClientMachine: an acknowledgement is what the client sees; a failed attempt may have reached the server as well. The error code and the flag, which the source stores one after the other for a refused request, change in one step.
- InfluxClientModel.InfluxClient.RetryLoop: excludes maxRetries == SIZE_MAX - 1, for which the loop of the source need not end; ClientMachine.ShutdownHangs is about that value.
- InfluxClientModel.InfluxClient.AttemptSendBatch: excludes maxRetries == SIZE_MAX - 1, as RetryLoop does.
- InfluxClientModel.InfluxClient.FinishTurn: excludes maxRetries == SIZE_MAX - 1, as RetryLoop does.
- InfluxClientModel.InfluxClient.WriteWorkerIteration: excludes maxRetries == SIZE_MAX - 1, as RetryLoop does.
- InfluxClientModel.InfluxClient.Destroy: excludes maxRetries == SIZE_MAX - 1, for which it need not return.
- InfluxClientModel.InfluxClient.WritePointNow: excludes maxRetries == SIZE_MAX - 1, as RetryLoop does; several callers without batching may interleave in the source, the method covers one of them.
- InfluxClientModel.InfluxClient.WritePoint: the check for an asynchronous error and the push are two critical sections of the source; the method covers them without interference, the machine any interleaving of its pushes.
- CURL, HTTP, TLS, URL encoding and the database: a request has one of four outcomes, chosen freely.
- LineProtocol.LineRoundTrip: the reading is that of the escaping convention itself; other readers of the line protocol may treat a backslash differently. How numbers and booleans are printed is not modelled: their text is any text without blanks that does not start with a quote.
- Tags.WrittenPointIsSelectedIff: for the tag name nodeId, which is what the adapter configures; the index tag of arrays is left out, as only single values get to the client (`src/history_backend/InfluxHistoryBackend.cpp:196-204`), other than README.md:47-51 of the repository says.
- Timestamps.ParseTimestampToNanoseconds: std::get_time is modelled with fields of full width; that it also takes shorter fields and leading blanks is left out, and so is the overflow of int64 for years after 2262, for which the model's result is the exact number.
- Timestamps.FormatRfc3339FromNanoseconds: years after 9999, which no int64 reaches.
- Csv.RoundTrip: lines are trimmed and split before they get to the parser, and the records are assembled from the cells afterwards; both are left out.
- HistoryRead.GetHistoryData: values stay text (strtod and variants are left out), null arguments and failing allocations are left out, and the database's answer for the window is a parameter.
- HistoryRead.FillPage: values stay text, as in GetHistoryData.
- HistoryRead.WindowOf: the signed overflow of the saturated start is modelled as wrapping around.
- FluxQuery.QueryDeterminesFilters: the reading of literals is that of the escaping itself; Flux syntax beyond literals is not modelled.
- NodeGraph.Resolved: resolving aliases and node ids to nodes is left out, as are the hidden references of nodes to those that refer to them, which printing never looks at.
- NamespacePrinter.NodePrinter.PrintOpen62541CCode: method arguments, which take nodes off the list on the side, undefined node classes, attributes, values and the type definition that the server adds by itself are left out; references are compared as objects, as Python 3 does (the comparison method of the class, which ignores the holder, is for Python 2 only).
- NamespaceProgram.ProgramRebuilds: references of a node to itself are not claimed; the source never prints them, because the node is still on the list of unprinted ones.
- NodeOrder.TypesDecideAbove: of two nodes that are below the same limits and to which nodes on their own level refer, nothing is stated but that the order is greedy.
- NamespaceOrder.PrintOpen62541Header: takes the reference types that count as type definitions and subtype references as given; finding the subtypes of HasTypeDefinition and HasSubtype calls a method that does not exist if there are any.
- FolderIndex.UaAdapter.CreateUAFolder: ids of fewer than three characters make the source throw; they are excluded by Usable. Whether a parent node still exists is not checked, and all ids are of one namespace index.
- FolderCopy.CopyLayerIsCopyIff: that the node of a variable may exist already, descriptions, and failing reads of names are left out.
- FolderCopy.AddressSpace.DeepCopyHierarchicalLayer: a cyclic source, on which the recursion of the source does not end, is excluded.
- Historizing.HistorizingLists.AddHistorizingNodes: what is done with the finished lists (back ends, access levels, polling) is left out; cyclic folders are excluded.
- Configuration parsing, discovery, certificates, access control, logging, health nodes, map file generation and the PyQt tools: nothing there depends on the properties above.
