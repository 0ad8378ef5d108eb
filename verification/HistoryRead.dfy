/** Raw history reads: the time window, the continuation point and the pages. */
module HistoryRead {
  import opened InfluxTypes

  // ---------------------------------------------------------------- time

  /** 1970-01-01 in units of 100 ns since 1601-01-01. */
  const UNIX_EPOCH: int := 116444736000000000

  const MAX_DELTA: int := INT64_MAX / 100

  function UaDateTimeToUnixNanoseconds(value: int): int {
    if value <= UNIX_EPOCH then 0
    else if value - UNIX_EPOCH >= MAX_DELTA then INT64_MAX
    else (value - UNIX_EPOCH) * 100
  }

  function UnixNanosecondsToUaDateTime(value: int): int {
    if value <= 0 then UNIX_EPOCH else UNIX_EPOCH + value / 100
  }

  ghost predicate IsInt64(v: int) { INT64_MIN <= v <= INT64_MAX }

  /** No result and no intermediate result leaves the range of an int64. */
  lemma ConversionsFit(value: int, nanos: int)
    requires IsInt64(value) && IsInt64(nanos)
    ensures 0 <= UaDateTimeToUnixNanoseconds(value) <= INT64_MAX
    ensures value > UNIX_EPOCH ==> IsInt64(value - UNIX_EPOCH)
    ensures UNIX_EPOCH <= UnixNanosecondsToUaDateTime(nanos) <= UNIX_EPOCH + MAX_DELTA <= INT64_MAX
  {
  }

  lemma ConversionsMonotone(a: int, b: int)
    requires IsInt64(a) && IsInt64(b) && a <= b
    ensures UaDateTimeToUnixNanoseconds(a) <= UaDateTimeToUnixNanoseconds(b)
    ensures UnixNanosecondsToUaDateTime(a) <= UnixNanosecondsToUaDateTime(b)
  {
  }

  function Clamp(v: int, low: int, high: int): int { Max(low, Min(v, high)) }

  /** There and back is clamping to the representable years. */
  lemma RoundTripClamps(value: int)
    ensures UnixNanosecondsToUaDateTime(UaDateTimeToUnixNanoseconds(value)) ==
            Clamp(value, UNIX_EPOCH, UNIX_EPOCH + MAX_DELTA)
  {
  }

  /** The other way round rounds down to 100 ns, except in the last, incomplete unit, which saturates. */
  lemma RoundTripRounds(nanos: int)
    requires IsInt64(nanos)
    ensures UaDateTimeToUnixNanoseconds(UnixNanosecondsToUaDateTime(nanos)) ==
            if nanos / 100 >= MAX_DELTA then INT64_MAX else Max(0, nanos - nanos % 100)
  {
  }

  // ---------------------------------------------------------------- window

  /** An unset bound of a request: LLONG_MIN. */
  const UNSET: int := INT64_MIN

  predicate Reverse(start: int, end: int) { end != UNSET && start != UNSET && end < start }

  /** The addition of the source on int64. */
  function NextInt64(v: int): int { if v == INT64_MAX then INT64_MIN else v + 1 }

  datatype Window = Window(start: int, end: int)

  /** `now` and `later` are two readings of the clock, the second one taken only if it is needed. */
  function WindowOf(start: int, end: int, now: int, later: int): Window {
    var s := if start == UNSET then 0
             else UaDateTimeToUnixNanoseconds(if Reverse(start, end) then end else start);
    var e := if end == UNSET then UaDateTimeToUnixNanoseconds(now)
             else UaDateTimeToUnixNanoseconds(if Reverse(start, end) then start else end);
    Window(s, if e <= s then Max(NextInt64(s), UaDateTimeToUnixNanoseconds(later)) else e)
  }

  /** The bound that the window starts at. */
  function Lower(start: int, end: int): int { if Reverse(start, end) then end else start }

  /** The range check of the client rejects the window exactly when its start is saturated. */
  lemma WindowAcceptedIff(start: int, end: int, now: int, later: int)
    requires IsInt64(start) && IsInt64(end) && IsInt64(now) && IsInt64(later)
    ensures var w := WindowOf(start, end, now, later);
      && 0 <= w.start && (w.start < w.end <==> Lower(start, end) < UNIX_EPOCH + MAX_DELTA)
  {
  }

  /** Nothing requested is cut off: every time stamp between two bounds, the later one excluded, is in the window. */
  lemma WindowCovers(start: int, end: int, now: int, later: int, t: int)
    requires IsInt64(start) && IsInt64(end) && IsInt64(now) && IsInt64(later)
    requires start != UNSET && end != UNSET && UNIX_EPOCH <= Min(start, end) <= t < Max(start, end)
    requires Max(start, end) <= UNIX_EPOCH + MAX_DELTA
    ensures var w := WindowOf(start, end, now, later);
      w.start <= UaDateTimeToUnixNanoseconds(t) < w.end &&
      w == Window(UaDateTimeToUnixNanoseconds(Min(start, end)), UaDateTimeToUnixNanoseconds(Max(start, end)))
  {
  }

  /** What the bounds of a request stand for: an unset one is the epoch or the present. */
  ghost predicate Stands(start: int, end: int, now: int, low: int, high: int) {
    && low == (if start == UNSET then UNIX_EPOCH else if end == UNSET then start else Min(start, end))
    && high == (if end == UNSET then now else if start == UNSET then end else Max(start, end))
  }

  /** The first time stamp that the conversion does not tell from later ones. */
  const SATURATED: int := UNIX_EPOCH + MAX_DELTA

  /**
   * Whichever bounds are set, the window holds exactly the time stamps from the lower one to the upper one, as far as
   * those after the epoch can be told apart.
   */
  lemma WindowIs(start: int, end: int, now: int, later: int, low: int, high: int, t: int)
    requires IsInt64(start) && IsInt64(end) && IsInt64(now) && IsInt64(later) && IsInt64(t)
    requires Stands(start, end, now, low, high)
    requires low < Min(high, SATURATED) && UNIX_EPOCH < high && UNIX_EPOCH <= t
    ensures var w := WindowOf(start, end, now, later);
      && (w.start <= UaDateTimeToUnixNanoseconds(t) < w.end <==> low <= t < Min(high, SATURATED))
      && w.start == 100 * (Max(low, UNIX_EPOCH) - UNIX_EPOCH)
      && w.end == (if high < SATURATED then 100 * (high - UNIX_EPOCH) else INT64_MAX)
  {
  }

  /**
   * Where that would be nothing, the window goes on to the present, and is never empty: it holds at least its lower
   * bound.
   */
  lemma EmptyWindowIs(start: int, end: int, now: int, later: int, low: int, high: int, t: int)
    requires IsInt64(start) && IsInt64(end) && IsInt64(now) && IsInt64(later) && IsInt64(t)
    requires Stands(start, end, now, low, high)
    requires low < SATURATED && (high <= low || high <= UNIX_EPOCH) && UNIX_EPOCH <= t
    ensures var w, first := WindowOf(start, end, now, later), Max(low, UNIX_EPOCH);
      && (w.start <= UaDateTimeToUnixNanoseconds(t) < w.end <==> first <= t < Max(first + 1, Min(later, SATURATED)))
      && w.start == 100 * (first - UNIX_EPOCH)
      && w.end == Max(w.start + 1, UaDateTimeToUnixNanoseconds(later))
  {
  }

  /** Swapping two bounds leaves the window as it is, and one of the two requests reads backwards. */
  lemma SwappedWindow(start: int, end: int, now: int, later: int)
    requires start != UNSET && end != UNSET && start != end
    ensures WindowOf(end, start, now, later) == WindowOf(start, end, now, later)
    ensures Reverse(end, start) == !Reverse(start, end)
  {
  }

  // ---------------------------------------------------------------- continuation point

  newtype byte = b: int | 0 <= b < 256

  /** A byte string without data may still claim a length. */
  datatype ByteString = NoData(length: nat) | Bytes(data: seq<byte>)
  {
    function Length(): nat { if NoData? then length else |data| }
  }

  datatype Status = Good | BadContinuationPointInvalid | BadInternalError

  /** The lowest n bytes of an offset, the least significant one first. */
  function Encode(offset: nat, n: nat): (s: seq<byte>)
    ensures |s| == n
  {
    if n == 0 then [] else [(offset % 256) as byte] + Encode(offset / 256, n - 1)
  }

  function Decode(s: seq<byte>): nat { if s == [] then 0 else s[0] as nat + 256 * Decode(s[1..]) }

  function Pow256(n: nat): (p: nat)
    ensures p >= 1
  {
    if n == 0 then 1 else 256 * Pow256(n - 1)
  }

  lemma {:induction false} DecodeEncode(offset: nat, n: nat)
    requires offset < Pow256(n)
    ensures Decode(Encode(offset, n)) == offset
  {
    if n > 0 {
      DecodeEncode(offset / 256, n - 1);
      assert Encode(offset, n)[1..] == Encode(offset / 256, n - 1);
    }
  }

  lemma {:induction false} EncodeDecode(s: seq<byte>)
    ensures Decode(s) < Pow256(|s|) && Encode(Decode(s), |s|) == s
  {
    if s != [] {
      EncodeDecode(s[1..]);
      assert Decode(s) / 256 == Decode(s[1..]) && Decode(s) % 256 == s[0] as nat;
      assert [s[0]] + s[1..] == s;
    }
  }

  /** sizeof(size_t) */
  const WORD: nat := 8

  function ContinuationPoint(offset: nat): ByteString { Bytes(Encode(offset, WORD)) }

  function ParseContinuationPoint(cp: Option<ByteString>): (Status, nat) {
    if cp.None? || cp.value.Length() == 0 then (Good, 0)
    else if cp.value.NoData? || |cp.value.data| != WORD then (BadContinuationPointInvalid, 0)
    else (Good, Decode(cp.value.data))
  }

  /** The codec is a bijection between offsets and strings of eight bytes. */
  lemma ContinuationPointRoundTrip(offset: nat)
    requires offset <= SIZE_MAX
    ensures ParseContinuationPoint(Some(ContinuationPoint(offset))) == (Good, offset)
  {
    SizeOfWord();
    DecodeEncode(offset, WORD);
  }

  lemma SizeOfWord()
    ensures Pow256(WORD) == SIZE_MAX + 1
  {
    assert Pow256(8) == 0x1_0000_0000_0000_0000;
  }

  lemma ContinuationPointAccepted(cp: ByteString)
    requires cp.Length() != 0
    ensures ParseContinuationPoint(Some(cp)).0 == Good <==> exists n: nat :: n <= SIZE_MAX && cp == ContinuationPoint(n)
  {
    SizeOfWord();
    if cp.Bytes? && |cp.data| == WORD {
      EncodeDecode(cp.data);
      assert cp == ContinuationPoint(Decode(cp.data));
    }
  }

  // ---------------------------------------------------------------- pages

  datatype Record = Record(value: string, timestampNanoseconds: int)

  datatype DataValue = DataValue(value: string, sourceTimestamp: int, serverTimestamp: int)

  function ToDataValue(r: Record): DataValue {
    var t := UnixNanosecondsToUaDateTime(r.timestampNanoseconds);
    DataValue(r.value, t, t)
  }

  function DataValues(records: seq<Record>): (values: seq<DataValue>)
    ensures |values| == |records| && forall i :: 0 <= i < |values| ==> values[i] == ToDataValue(records[i])
  {
    if records == [] then [] else [ToDataValue(records[0])] + DataValues(records[1..])
  }

  function Reversed(s: seq<Record>): (r: seq<Record>)
    ensures |r| == |s| && forall i :: 0 <= i < |s| ==> r[i] == s[|s| - 1 - i]
  {
    if s == [] then [] else Reversed(s[1..]) + [s[0]]
  }

  /** A request; the two limits are off when they are zero. */
  datatype Request = Request(
    start: int,
    end: int,
    maxSizePerResponse: nat,
    numValuesPerNode: nat,
    releaseContinuationPoints: bool,
    continuationPoint: Option<ByteString>,
    wantsContinuation: bool)

  datatype Reply = Reply(status: Status, values: seq<DataValue>, continuation: ByteString)

  const NONE: ByteString := Bytes([])

  function Limit(remaining: nat, numValuesPerNode: nat, maxSizePerResponse: nat): (n: nat)
    ensures n <= remaining && (remaining > 0 ==> n > 0)
    ensures numValuesPerNode > 0 ==> n <= numValuesPerNode
    ensures maxSizePerResponse > 0 ==> n <= maxSizePerResponse
    ensures n == remaining || n == numValuesPerNode || n == maxSizePerResponse
  {
    var n := if numValuesPerNode > 0 then Min(remaining, numValuesPerNode) else remaining;
    if maxSizePerResponse > 0 then Min(n, maxSizePerResponse) else n
  }

  /** The page of a list that starts at an offset. */
  function Page(list: seq<Record>, skip: nat, q: Request): Reply {
    if skip >= |list| then Reply(Good, [], NONE)
    else
      var next := skip + Limit(|list| - skip, q.numValuesPerNode, q.maxSizePerResponse);
      Reply(Good, DataValues(list[skip..next]),
            if next < |list| && q.wantsContinuation then ContinuationPoint(next) else NONE)
  }

  /** The records in the order of the request. */
  function Ordered(records: seq<Record>, q: Request): seq<Record> {
    if Reverse(q.start, q.end) then Reversed(records) else records
  }

  /** `answer` is what the database returns for the window, None where the query fails. */
  method GetHistoryData(q: Request, now: int, later: int, answer: Option<seq<Record>>) returns (reply: Reply)
    ensures q.releaseContinuationPoints ==> reply == Reply(Good, [], NONE)
    ensures !q.releaseContinuationPoints ==>
      var (status, skip) := ParseContinuationPoint(q.continuationPoint);
      var w := WindowOf(q.start, q.end, now, later);
      reply == if status != Good then Reply(status, [], NONE)
               else if answer.None? || w.end <= w.start then Reply(BadInternalError, [], NONE)
               else Page(Ordered(answer.value, q), skip, q)
  {
    if q.releaseContinuationPoints { return Reply(Good, [], NONE); }
    var (status, skip) := ParseContinuationPoint(q.continuationPoint);
    if status != Good { return Reply(status, [], NONE); }
    var reverse := q.end != UNSET && q.start != UNSET && q.end < q.start;
    var startNanoseconds, endNanoseconds := 0, UaDateTimeToUnixNanoseconds(now);
    if q.start == UNSET && q.end == UNSET {
    } else if q.start == UNSET {
      endNanoseconds := UaDateTimeToUnixNanoseconds(q.end);
    } else if q.end == UNSET {
      startNanoseconds := UaDateTimeToUnixNanoseconds(q.start);
    } else {
      startNanoseconds := UaDateTimeToUnixNanoseconds(if reverse then q.end else q.start);
      endNanoseconds := UaDateTimeToUnixNanoseconds(if reverse then q.start else q.end);
    }
    if endNanoseconds <= startNanoseconds {
      endNanoseconds := Max(NextInt64(startNanoseconds), UaDateTimeToUnixNanoseconds(later));
    }
    assert WindowOf(q.start, q.end, now, later) == Window(startNanoseconds, endNanoseconds);
    if answer.None? || endNanoseconds <= startNanoseconds { return Reply(BadInternalError, [], NONE); }
    var records := answer.value;
    if reverse { records := Reversed(records); }
    reply := FillPage(records, skip, q);
  }

  method FillPage(records: seq<Record>, skip: nat, q: Request) returns (reply: Reply)
    ensures reply == Page(records, skip, q)
  {
    hide Encode, DataValues;
    if skip >= |records| { return Reply(Good, [], NONE); }
    var limit := |records| - skip;
    if q.numValuesPerNode > 0 { limit := Min(limit, q.numValuesPerNode); }
    if q.maxSizePerResponse > 0 { limit := Min(limit, q.maxSizePerResponse); }
    var values: seq<DataValue> := [];
    for i := 0 to limit
      invariant |values| == i
      invariant forall j :: 0 <= j < i ==> values[j] == ToDataValue(records[skip + j])
    {
      values := values + [ToDataValue(records[skip + i])];
    }
    var nextOffset := skip + limit;
    assert values == DataValues(records[skip..nextOffset]);
    var continuation := NONE;
    if nextOffset < |records| && q.wantsContinuation { continuation := ContinuationPoint(nextOffset); }
    reply := Reply(Good, values, continuation);
  }

  // ---------------------------------------------------------------- following the pages

  function Offset(cp: ByteString): nat { ParseContinuationPoint(Some(cp)).1 }

  /** Pages carry the records' values, and their times as both time stamps, rounded down to 100 ns. */
  lemma PageCarries(list: seq<Record>, skip: nat, q: Request, i: nat)
    requires i < |Page(list, skip, q).values|
    ensures skip + i < |list|
    ensures var r, v := list[skip + i], Page(list, skip, q).values[i];
      && v.value == r.value && v.sourceTimestamp == v.serverTimestamp
      && (0 <= r.timestampNanoseconds <= INT64_MAX ==>
            var n := UaDateTimeToUnixNanoseconds(v.sourceTimestamp);
            if r.timestampNanoseconds / 100 >= MAX_DELTA then n == INT64_MAX
            else n <= r.timestampNanoseconds < n + 100 && n % 100 == 0)
      && (r.timestampNanoseconds < 0 ==> v.sourceTimestamp == UNIX_EPOCH)
  {
    hide DataValues, Encode;
  }

  lemma NextPage(list: seq<Record>, cp: ByteString, q: Request)
    requires |list| <= SIZE_MAX && ParseContinuationPoint(Some(cp)).0 == Good
    ensures var page := Page(list, Offset(cp), q);
      page.continuation != NONE ==>
        && ParseContinuationPoint(Some(page.continuation)).0 == Good
        && Offset(page.continuation) == Offset(cp) + |page.values|
        && |page.values| > 0 && Offset(page.continuation) < |list|
  {
    var skip := Offset(cp);
    if skip < |list| {
      ContinuationPointRoundTrip(skip + Limit(|list| - skip, q.numValuesPerNode, q.maxSizePerResponse));
    }
  }

  /** What a client collects that asks again with every continuation point it is given. */
  function Follow(list: seq<Record>, cp: ByteString, q: Request): seq<DataValue>
    requires |list| <= SIZE_MAX && ParseContinuationPoint(Some(cp)).0 == Good
    decreases Max(0, |list| - Offset(cp))
  {
    NextPage(list, cp, q);
    var page := Page(list, Offset(cp), q);
    if page.continuation == NONE then page.values else page.values + Follow(list, page.continuation, q)
  }

  lemma DataValuesConcat(a: seq<Record>, b: seq<Record>)
    ensures DataValues(a + b) == DataValues(a) + DataValues(b)
  {
  }

  lemma {:induction false} FollowFrom(list: seq<Record>, cp: ByteString, q: Request)
    requires |list| <= SIZE_MAX && ParseContinuationPoint(Some(cp)).0 == Good && q.wantsContinuation
    requires Offset(cp) <= |list|
    ensures Follow(list, cp, q) == DataValues(list[Offset(cp)..])
    decreases Max(0, |list| - Offset(cp))
  {
    hide ParseContinuationPoint, Offset, Page, DataValues;
    var skip := Offset(cp);
    var page := Page(list, skip, q);
    NextPage(list, cp, q);
    PageOfPrefix(list, list, skip, q);
    var next := skip + |page.values|;
    if page.continuation != NONE {
      FollowFrom(list, page.continuation, q);
      DataValuesConcat(list[skip..next], list[next..]);
      assert list[skip..next] + list[next..] == list[skip..];
    } else {
      assert list[skip..next] == list[skip..];
    }
  }

  /** Every record once and in order, whatever the limits; with swapped bounds, in the opposite order. */
  lemma PagesConcatenate(records: seq<Record>, q: Request)
    requires |records| <= SIZE_MAX && q.wantsContinuation
    ensures Follow(Ordered(records, q), NONE, q) == DataValues(Ordered(records, q))
  {
    var list := Ordered(records, q);
    FollowFrom(list, NONE, q);
    assert list[0..] == list;
  }

  lemma SwappedBoundsReverse(records: seq<Record>, q: Request)
    requires |records| <= SIZE_MAX && q.wantsContinuation
    requires q.start != UNSET && q.end != UNSET && q.start < q.end
    ensures var r := q.(start := q.end, end := q.start);
      var forward, backward := Follow(Ordered(records, q), NONE, q), Follow(Ordered(records, r), NONE, r);
      && forward == DataValues(records)
      && |backward| == |forward| && forall i :: 0 <= i < |forward| ==> backward[i] == forward[|forward| - 1 - i]
  {
    hide Follow, DataValues, Reversed;
    PagesConcatenate(records, q);
    PagesConcatenate(records, q.(start := q.end, end := q.start));
  }

  // ---------------------------------------------------------------- while the list grows

  ghost predicate IsPrefix(a: seq<Record>, b: seq<Record>) { |a| <= |b| && b[..|a|] == a }

  /** Every list extends the one before at its end. */
  ghost predicate Growing(lists: seq<seq<Record>>, final: seq<Record>) {
    lists == [] || (IsPrefix(lists[0], if |lists| > 1 then lists[1] else final) && Growing(lists[1..], final))
  }

  /**
   * As Follow, but each page is taken from the next list.  Once the client is done, also the length that
   * the list had at its last request.
   */
  function FollowGrowing(lists: seq<seq<Record>>, cp: ByteString, q: Request): (seq<DataValue>, Option<nat>) {
    if lists == [] then ([], None)
    else
      var page := Page(lists[0], Offset(cp), q);
      if page.continuation == NONE then (page.values, Some(|lists[0]|))
      else
        var (values, done) := FollowGrowing(lists[1..], page.continuation, q);
        (page.values + values, done)
  }

  lemma {:induction false} GrowingReachesFinal(lists: seq<seq<Record>>, final: seq<Record>)
    requires lists != [] && Growing(lists, final)
    ensures IsPrefix(lists[0], final)
  {
    if |lists| > 1 {
      GrowingReachesFinal(lists[1..], final);
      assert IsPrefix(lists[0], lists[1]) && IsPrefix(lists[1], final);
      assert final[..|lists[0]|] == final[..|lists[1]|][..|lists[0]|];
    }
  }

  /**
   * Reading forward while records are appended: nothing is skipped or repeated, and the client is done
   * at the latest after as many requests as there are records in the end.
   */
  lemma {:induction false} GrowingListIsReadOnce(
      lists: seq<seq<Record>>, final: seq<Record>, cp: ByteString, q: Request)
    requires |final| <= SIZE_MAX && Growing(lists, final) && q.wantsContinuation
    requires ParseContinuationPoint(Some(cp)).0 == Good
    requires Offset(cp) <= if lists == [] then |final| else |lists[0]|
    ensures var skip := Offset(cp); var (values, done) := FollowGrowing(lists, cp, q);
      && skip + |values| <= |final| && values == DataValues(final[skip..skip + |values|])
      && (done.Some? ==> done.value == skip + |values|)
      && (|lists| > |final| - skip ==> done.Some?)
    decreases |lists|
  {
    hide ParseContinuationPoint, Offset, Page, DataValues, IsPrefix, Growing;
    var skip := Offset(cp);
    if lists == [] { return; }
    LaterLists(lists, final);
    var page := Page(lists[0], skip, q);
    NextPage(lists[0], cp, q);
    PageOfPrefix(lists[0], final, skip, q);
    if page.continuation == NONE { return; }
    GrowingListIsReadOnce(lists[1..], final, page.continuation, q);
    var next := skip + |page.values|;
    var last := next + |FollowGrowing(lists[1..], page.continuation, q).0|;
    DataValuesConcat(final[skip..next], final[next..last]);
    assert final[skip..next] + final[next..last] == final[skip..last];
  }

  lemma LaterLists(lists: seq<seq<Record>>, final: seq<Record>)
    requires lists != [] && Growing(lists, final)
    ensures IsPrefix(lists[0], final) && |lists[0]| <= |final|
    ensures Growing(lists[1..], final)
    ensures |lists[0]| <= if lists[1..] == [] then |final| else |lists[1..][0]|
  {
    GrowingReachesFinal(lists, final);
  }

  lemma PageOfPrefix(list: seq<Record>, final: seq<Record>, skip: nat, q: Request)
    requires IsPrefix(list, final) && skip <= |list|
    ensures var page := Page(list, skip, q);
      && skip + |page.values| <= |list| && page.values == DataValues(final[skip..skip + |page.values|])
      && (page.continuation == NONE && q.wantsContinuation ==> skip + |page.values| == |list|)
  {
    var page := Page(list, skip, q);
    var next := skip + |page.values|;
    assert list[skip..next] == final[..|list|][skip..next] == final[skip..next];
  }

  /** The requests that reading a list takes that does not change. */
  function Requests(list: seq<Record>, cp: ByteString, q: Request): (n: nat)
    requires |list| <= SIZE_MAX && ParseContinuationPoint(Some(cp)).0 == Good
    ensures n > 0
    decreases Max(0, |list| - Offset(cp))
  {
    NextPage(list, cp, q);
    var page := Page(list, Offset(cp), q);
    if page.continuation == NONE then 1 else 1 + Requests(list, page.continuation, q)
  }

  /** No list is shorter than the one before, and one of the same length is the same. */
  ghost predicate Steady(lists: seq<seq<Record>>) {
    |lists| < 2 ||
    (|lists[0]| <= |lists[1]| <= SIZE_MAX && (|lists[0]| == |lists[1]| ==> lists[0] == lists[1]) && Steady(lists[1..]))
  }

  ghost predicate AllAre(lists: seq<seq<Record>>, n: nat, list: seq<Record>) {
    n <= |lists| && forall i :: 0 <= i < n ==> lists[i] == list
  }

  /** What was read, once it is done, has the length of the last list, which is not shorter than the first. */
  lemma {:induction false} LengthRead(lists: seq<seq<Record>>, cp: ByteString, q: Request)
    requires lists != [] && |lists[0]| <= SIZE_MAX && Steady(lists) && q.wantsContinuation
    requires ParseContinuationPoint(Some(cp)).0 == Good && Offset(cp) <= |lists[0]|
    ensures var (values, done) := FollowGrowing(lists, cp, q);
      done.Some? ==> done.value == Offset(cp) + |values| && |lists[0]| <= done.value
    decreases |lists|
  {
    hide ParseContinuationPoint, Offset, Page;
    var page := Page(lists[0], Offset(cp), q);
    NextPage(lists[0], cp, q);
    PageLength(lists[0], Offset(cp), q);
    if page.continuation != NONE && |lists| > 1 { LengthRead(lists[1..], page.continuation, q); }
  }

  lemma PageLength(list: seq<Record>, skip: nat, q: Request)
    requires skip <= |list|
    ensures var page := Page(list, skip, q);
      && skip + |page.values| <= |list| && page.values == DataValues(list[skip..skip + |page.values|])
      && (page.continuation == NONE && q.wantsContinuation ==> skip + |page.values| == |list|)
  {
    assert list[..|list|] == list;
    PageOfPrefix(list, list, skip, q);
  }

  /**
   * While the lists may grow, wherever new records go, the client reads the rest of the first list if and only if
   * the list stays as it is for as many requests as reading it takes.
   */
  lemma {:induction false} SteadyReadIff(lists: seq<seq<Record>>, cp: ByteString, q: Request)
    requires lists != [] && |lists[0]| <= SIZE_MAX && Steady(lists) && q.wantsContinuation
    requires ParseContinuationPoint(Some(cp)).0 == Good && Offset(cp) <= |lists[0]|
    ensures var (values, done) := FollowGrowing(lists, cp, q);
      done.Some? && values == DataValues(lists[0][Offset(cp)..]) <==> AllAre(lists, Requests(lists[0], cp, q), lists[0])
    decreases |lists|
  {
    hide ParseContinuationPoint, Offset, Page, DataValues;
    var list, skip := lists[0], Offset(cp);
    var page := Page(list, skip, q);
    NextPage(list, cp, q);
    PageLength(list, skip, q);
    var next := skip + |page.values|;
    if page.continuation == NONE {
      assert list[skip..next] == list[skip..];
    } else if |lists| > 1 {
      var later := lists[1..];
      LengthRead(later, page.continuation, q);
      SteadyReadIff(later, page.continuation, q);
      ReadContinues(list, skip, next, FollowGrowing(later, page.continuation, q).0);
      AllContinue(lists, Requests(list, cp, q));
    }
  }

  lemma ReadContinues(list: seq<Record>, skip: nat, next: nat, values: seq<DataValue>)
    requires skip <= next <= |list|
    ensures DataValues(list[skip..next]) + values == DataValues(list[skip..]) <==> values == DataValues(list[next..])
    ensures values == DataValues(list[next..]) ==> |values| == |list| - next
  {
    hide DataValues;
    DataValuesConcat(list[skip..next], list[next..]);
    assert list[skip..next] + list[next..] == list[skip..];
    var a, b := DataValues(list[skip..next]), DataValues(list[next..]);
    if a + values == a + b { assert (a + values)[|a|..] == values && (a + b)[|a|..] == b; }
  }

  lemma AllContinue(lists: seq<seq<Record>>, n: nat)
    requires |lists| > 1 && n > 1
    ensures AllAre(lists, n, lists[0]) <==> lists[1] == lists[0] && AllAre(lists[1..], n - 1, lists[0])
  {
    if lists[1] == lists[0] && AllAre(lists[1..], n - 1, lists[0]) {
      forall i | 0 <= i < n ensures lists[i] == lists[0] {
        if i > 0 { assert lists[1..][i - 1] == lists[i]; }
      }
    }
  }

  /** What a backward read sees of the lists. */
  function Reversals(lists: seq<seq<Record>>): (r: seq<seq<Record>>)
    ensures |r| == |lists| && forall i :: 0 <= i < |r| ==> r[i] == Reversed(lists[i])
  {
    if lists == [] then [] else [Reversed(lists[0])] + Reversals(lists[1..])
  }

  lemma {:induction false} GrowingIsSteady(lists: seq<seq<Record>>, final: seq<Record>)
    requires Growing(lists, final) && |final| <= SIZE_MAX
    ensures Steady(Reversals(lists))
  {
    hide Reversed;
    if |lists| > 1 {
      GrowingIsSteady(lists[1..], final);
      GrowingReachesFinal(lists[1..], final);
      assert IsPrefix(lists[0], lists[1]);
      assert |lists[0]| == |lists[1]| ==> lists[0] == lists[1];
      assert Reversals(lists)[1..] == Reversals(lists[1..]);
    }
  }

  lemma ReversalsAllAre(lists: seq<seq<Record>>, n: nat)
    requires lists != []
    ensures AllAre(Reversals(lists), n, Reversed(lists[0])) <==> AllAre(lists, n, lists[0])
  {
    if AllAre(Reversals(lists), n, Reversed(lists[0])) {
      forall i | 0 <= i < n ensures lists[i] == lists[0] {
        assert Reversals(lists)[i] == Reversed(lists[0]);
        ReversedInjective(lists[i], lists[0]);
      }
    }
  }

  lemma ReversedInjective(a: seq<Record>, b: seq<Record>)
    requires Reversed(a) == Reversed(b)
    ensures a == b
  {
    forall i | 0 <= i < |a| ensures a[i] == b[i] {
      assert Reversed(a)[|a| - 1 - i] == a[i] && Reversed(b)[|b| - 1 - i] == b[i];
    }
  }

  /**
   * Reading backwards while records are appended is right if and only if none is appended before the last of the
   * requests that reading the first list takes.
   */
  lemma GrowingReverseIff(lists: seq<seq<Record>>, final: seq<Record>, q: Request)
    requires lists != [] && Growing(lists, final) && |final| <= SIZE_MAX && q.wantsContinuation
    ensures |Reversed(lists[0])| <= SIZE_MAX
    ensures var first := Reversed(lists[0]);
      var (values, done) := FollowGrowing(Reversals(lists), NONE, q);
      done.Some? && values == DataValues(first) <==> AllAre(lists, Requests(first, NONE, q), lists[0])
  {
    hide Reversed, DataValues, FollowGrowing, Steady, Growing;
    LaterLists(lists, final);
    GrowingIsSteady(lists, final);
    var first := Reversed(lists[0]);
    SteadyReadIff(Reversals(lists), NONE, q);
    assert first[0..] == first;
    ReversalsAllAre(lists, Requests(first, NONE, q));
  }

  /** Backwards that fails: a record appended between two requests makes the second page repeat the first. */
  lemma GrowingReverseRepeats(a: Record, b: Record, c: Record, q: Request)
    requires Reverse(q.start, q.end) && q.wantsContinuation && q.numValuesPerNode == 1
    ensures FollowGrowing([Ordered([a, b], q), Ordered([a, b, c], q)], NONE, q).0 ==
            [ToDataValue(b), ToDataValue(b)]
  {
    hide Encode, Decode, Reverse, DataValues;
    var first, second := Ordered([a, b], q), Ordered([a, b, c], q);
    assert first == [b, a] && second == [c, b, a];
    ContinuationPointRoundTrip(1);
    var cp := ContinuationPoint(1);
    assert Page(first, 0, q) == Reply(Good, [ToDataValue(b)], cp);
    assert Page(second, 1, q).values == [ToDataValue(b)];
    assert [first, second][1..] == [second];
    assert FollowGrowing([second], cp, q).0 == [ToDataValue(b)];
  }
}
