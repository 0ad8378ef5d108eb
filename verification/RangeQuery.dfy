/** The query for a time range: from the bounds of the window to the text, and back. */
module RangeQuery {
  import opened InfluxTypes
  import opened Decimal
  import opened Calendar
  import opened Escaping
  import opened Timestamps
  import Q = FluxQuery
  import H = HistoryRead

  /** No character of the text needs escaping. */
  ghost predicate Plain(s: string) { forall i :: 0 <= i < |s| ==> !NeedsEscape(s[i], true) }

  lemma {:induction false} PlainIsUnchanged(s: string)
    requires Plain(s)
    ensures EscapeString(s, true) == s
  {
    if s != "" {
      PlainIsUnchanged(s[1..]);
      assert [s[0]] + s[1..] == s;
    }
  }

  lemma PlainConcat(a: string, b: string)
    requires Plain(a) && Plain(b)
    ensures Plain(a + b)
  {
  }

  lemma DigitsArePlain(s: string)
    requires AllDigits(s)
    ensures Plain(s)
  {
    forall i | 0 <= i < |s| ensures !NeedsEscape(s[i], true) { assert IsDigit(s[i]); }
  }

  lemma FieldIsPlain(n: nat, w: nat, rest: string)
    requires Plain(rest)
    ensures Plain(Fixed(n, w) + rest)
  {
    FixedDigits(n, w);
    DigitsArePlain(Fixed(n, w));
    PlainConcat(Fixed(n, w), rest);
  }

  lemma DateIsPlain(d: Date)
    requires 0 <= d.year && 0 <= d.month && 0 <= d.day
    ensures Plain(DateText(d))
  {
    hide Fixed, Plain;
    assert Plain("-") by { SeparatorsArePlain(); }
    assert Fixed(d.day, 2) + "" == Fixed(d.day, 2);
    EmptyIsPlain();
    FieldIsPlain(d.day, 2, "");
    PlainConcat("-", Fixed(d.day, 2));
    FieldIsPlain(d.month, 2, "-" + Fixed(d.day, 2));
    PlainConcat("-", Fixed(d.month, 2) + ("-" + Fixed(d.day, 2)));
    FieldIsPlain(d.year, 4, "-" + (Fixed(d.month, 2) + ("-" + Fixed(d.day, 2))));
  }

  lemma ClockIsPlain(second: nat)
    ensures Plain(ClockText(second))
  {
    hide Fixed, Plain;
    var h, m, s := second / 3600, second / 60 % 60, second % 60;
    assert Plain(":") by { SeparatorsArePlain(); }
    assert Fixed(s, 2) + "" == Fixed(s, 2);
    EmptyIsPlain();
    FieldIsPlain(s, 2, "");
    PlainConcat(":", Fixed(s, 2));
    FieldIsPlain(m, 2, ":" + Fixed(s, 2));
    PlainConcat(":", Fixed(m, 2) + (":" + Fixed(s, 2)));
    FieldIsPlain(h, 2, ":" + (Fixed(m, 2) + (":" + Fixed(s, 2))));
  }

  lemma EmptyIsPlain()
    ensures Plain("")
  {
  }

  lemma SeparatorsArePlain()
    ensures Plain("-") && Plain(":") && Plain("T") && Plain(".") && Plain("Z")
  {
  }

  /** A printed time stamp stands in a literal as it is. */
  lemma TimestampIsPlain(nanos: nat)
    ensures Plain(Rfc3339(nanos))
  {
    hide Fixed, Plain, DateText, ClockText, CivilFromDays;
    var seconds := nanos / 1_000_000_000;
    CivilRoundTrip(seconds / 86400);
    SeparatorsArePlain();
    DateIsPlain(CivilFromDays(seconds / 86400));
    ClockIsPlain(seconds % 86400);
    PlainConcat("T", ClockText(seconds % 86400));
    PlainConcat(DateText(CivilFromDays(seconds / 86400)), "T" + ClockText(seconds % 86400));
    FieldIsPlain(nanos % 1_000_000_000, 9, "Z");
    PlainConcat(".", Fixed(nanos % 1_000_000_000, 9) + "Z");
    PlainConcat(SecondText(seconds), "." + (Fixed(nanos % 1_000_000_000, 9) + "Z"));
  }

  /** What the client inserts for a point in time. */
  function TimeExpression(nanos: nat): string { "time(v: \"" + (Rfc3339(nanos) + "\")") }

  lemma TimeExpressionIsLiteral(nanos: nat)
    ensures TimeExpression(nanos) == Q.Render(Q.TimePieces(Rfc3339(nanos)))
  {
    hide Rfc3339;
    var t := Rfc3339(nanos);
    TimestampIsPlain(nanos);
    PlainIsUnchanged(t);
    RenderEnclosed("time(v: ", t, ")");
    assert "time(v: " + (("\"" + (t + "\"")) + ")") == "time(v: \"" + (t + "\")");
  }

  lemma RenderEnclosed(before: string, value: string, after: string)
    ensures Q.Render(Q.Enclosed(before, value, after)) ==
            before + (("\"" + (EscapeString(value, true) + "\"")) + after)
  {
    hide EscapeString;
    var p := Q.Enclosed(before, value, after);
    assert p[1..] == [Q.Literal(value), Q.Text(after)] && p[1..][1..] == [Q.Text(after)];
    assert p[1..][1..][1..] == [];
    assert Q.Render(p[1..][1..]) == after + "" == after;
    assert Q.Render(p[1..]) == Q.PieceText(p[1]) + Q.Render(p[1..][1..]);
    assert Q.Render(p) == before + Q.Render(p[1..]);
  }

  /** The query for a range; None where the range check of the client rejects it. */
  method ReadRangeUnixNanoseconds(bucket: string, measurement: string, start: int, stop: int, fieldName: string,
      tags: seq<TagInformation>) returns (query: Option<string>)
    ensures stop <= start ==> query == None
    ensures start < stop ==>
      var a, b := Q.TimePieces(Rfc3339(Max(0, start))), Q.TimePieces(Rfc3339(Max(0, stop)));
      query == Some(Q.Render(Q.QueryPieces(bucket, measurement, a, b, fieldName, tags)))
  {
    hide Rfc3339, Q.TimePieces, Q.Render, Q.QueryPieces;
    if stop <= start { return None; }
    var startText := FormatRfc3339FromNanoseconds(start);
    var stopText := FormatRfc3339FromNanoseconds(stop);
    TimeExpressionIsLiteral(Max(0, start));
    TimeExpressionIsLiteral(Max(0, stop));
    ghost var a, b := Q.TimePieces(Rfc3339(Max(0, start))), Q.TimePieces(Rfc3339(Max(0, stop)));
    var flux := Q.BuildFluxReadQuery(bucket, measurement, "time(v: \"" + (startText + "\")"),
      "time(v: \"" + (stopText + "\")"), fieldName, tags, a, b);
    query := Some(flux);
  }

  /**
   * The query for a range of int64, read back: its second and third literals parse to exactly the two bounds, and
   * the others are the bucket, the measurement, the field and the filters.
   */
  lemma QueryDeterminesRange(bucket: string, measurement: string, start: nat, stop: nat, fieldName: string,
      tags: seq<TagInformation>)
    requires start <= 0x7FFF_FFFF_FFFF_FFFF && stop <= 0x7FFF_FFFF_FFFF_FFFF
    ensures var a, b := Q.TimePieces(Rfc3339(start)), Q.TimePieces(Rfc3339(stop));
      var found := Q.ScanText(Q.Render(Q.QueryPieces(bucket, measurement, a, b, fieldName, tags))).literals;
      && |found| >= 4 && found[0] == bucket && found[3] == measurement
      && Parse(found[1]) == Some(start) && Parse(found[2]) == Some(stop)
      && found[4..] == (if fieldName == "" then [] else [fieldName]) + Q.TagLiterals(tags)
  {
    hide Rfc3339, Parse, Q.ScanText, Q.Render, Q.QueryPieces, Q.TimePieces, Q.Emptied, Q.TagLiterals;
    Q.QueryDeterminesFilters(bucket, measurement, Rfc3339(start), Rfc3339(stop), fieldName, tags);
    RoundTrip(start);
    RoundTrip(stop);
    var head := [bucket, Rfc3339(start), Rfc3339(stop), measurement];
    var field := if fieldName == "" then [] else [fieldName];
    assert (head + field + Q.TagLiterals(tags))[4..] == field + Q.TagLiterals(tags);
  }

  /** The epoch of UA time stamps is 1601-01-01; they count units of 100 ns. */
  lemma EpochOfUaTime()
    ensures H.UNIX_EPOCH == -DaysFromCivil(Date(1601, 1, 1)) * 86400 * 10_000_000
  {
  }

  /** From a history request: unless its lower bound is saturated, the query asks for exactly its window. */
  lemma RequestDeterminesRange(bucket: string, measurement: string, start: int, end: int, now: int, later: int,
      fieldName: string, tags: seq<TagInformation>)
    requires H.IsInt64(start) && H.IsInt64(end) && H.IsInt64(now) && H.IsInt64(later)
    requires H.Lower(start, end) < H.UNIX_EPOCH + H.MAX_DELTA
    ensures var w := H.WindowOf(start, end, now, later);
      && 0 <= w.start < w.end <= INT64_MAX
      && var a, b := Q.TimePieces(Rfc3339(w.start)), Q.TimePieces(Rfc3339(w.end));
        var found := Q.ScanText(Q.Render(Q.QueryPieces(bucket, measurement, a, b, fieldName, tags))).literals;
        |found| >= 4 && Parse(found[1]) == Some(w.start) && Parse(found[2]) == Some(w.end)
  {
    hide Rfc3339, Parse, Q.ScanText, Q.Render, Q.QueryPieces, Q.TimePieces;
    H.WindowAcceptedIff(start, end, now, later);
    WindowFits(start, end, now, later);
    var w := H.WindowOf(start, end, now, later);
    QueryDeterminesRange(bucket, measurement, w.start, w.end, fieldName, tags);
  }

  lemma WindowFits(start: int, end: int, now: int, later: int)
    requires H.IsInt64(start) && H.IsInt64(end) && H.IsInt64(now) && H.IsInt64(later)
    requires H.Lower(start, end) < H.UNIX_EPOCH + H.MAX_DELTA
    ensures H.WindowOf(start, end, now, later).end <= INT64_MAX
  {
  }
}
