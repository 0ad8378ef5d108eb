/** The text of a read query: what its string literals hold and what stands around them. */
module FluxQuery {
  import opened InfluxTypes
  import opened Escaping

  method EscapeJson(input: string) returns (out: string)
    ensures out == EscapeString(input, true)
  {
    out := "";
    for i := 0 to |input|
      invariant out + EscapeString(input[i..], true) == EscapeString(input, true)
    {
      ghost var before := out;
      match input[i] {
        case '\\' => out := out + ['\\', '\\'];
        case '"' => out := out + ['\\', '"'];
        case '\n' => out := out + ['\\', 'n'];
        case '\r' => out := out + ['\\', 'r'];
        case '\t' => out := out + ['\\', 't'];
        case _ => out := out + [input[i]];
      }
      assert out == before + EscapeChar(input[i], true);
      assert input[i..][1..] == input[i + 1..];
      Assoc(before, EscapeChar(input[i], true), EscapeString(input[i + 1..], true));
    }
    assert out + "" == out;
  }

  // ---------------------------------------------------------------- reading

  /** The literals of a text, and the text with all literals emptied. */
  datatype Scan = Scan(literals: seq<string>, shape: string)

  function ScanText(s: string): Scan
    decreases |s|
  {
    if s == "" then Scan([], "")
    else if s[0] == '"' then
      var r := ReadString(s[1..], true);
      if r.None? then Scan([], "\"") else WithLiteral(r.value.0, ScanText(r.value.1))
    else WithText([s[0]], ScanText(s[1..]))
  }

  function WithLiteral(v: string, rest: Scan): Scan { Scan([v] + rest.literals, "\"\"" + rest.shape) }

  function WithText(s: string, rest: Scan): Scan { Scan(rest.literals, s + rest.shape) }

  // ---------------------------------------------------------------- the query

  datatype Piece = Text(text: string) | Literal(value: string)

  function PieceText(p: Piece): string {
    match p
    case Text(t) => t
    case Literal(v) => "\"" + (EscapeString(v, true) + "\"")
  }

  function Render(pieces: seq<Piece>): string {
    if pieces == [] then "" else PieceText(pieces[0]) + Render(pieces[1..])
  }

  function LiteralsOf(pieces: seq<Piece>): seq<string> {
    if pieces == [] then []
    else if pieces[0].Literal? then [pieces[0].value] + LiteralsOf(pieces[1..])
    else LiteralsOf(pieces[1..])
  }

  function Emptied(pieces: seq<Piece>): seq<Piece> {
    if pieces == [] then []
    else [if pieces[0].Literal? then Literal("") else pieces[0]] + Emptied(pieces[1..])
  }

  ghost predicate QuoteFree(pieces: seq<Piece>) {
    forall i :: 0 <= i < |pieces| && pieces[i].Text? ==> '"' !in pieces[i].text
  }

  lemma {:induction false} ScanPlain(t: string, rest: string)
    requires '"' !in t
    ensures ScanText(t + rest) == WithText(t, ScanText(rest))
  {
    if t == "" {
      assert t + rest == rest && t + ScanText(rest).shape == ScanText(rest).shape;
    } else {
      assert t[0] in t;
      ScanPlain(t[1..], rest);
      assert (t + rest)[1..] == t[1..] + rest;
      assert [t[0]] + t[1..] == t;
      Assoc([t[0]], t[1..], ScanText(rest).shape);
    }
  }

  lemma ScanLiteral(v: string, rest: string)
    ensures ScanText(("\"" + (EscapeString(v, true) + "\"")) + rest) == WithLiteral(v, ScanText(rest))
  {
    var s := EscapeString(v, true) + ("\"" + rest);
    ReadStringEscaped(v, rest, true);
    assert ("\"" + (EscapeString(v, true) + "\"")) + rest == "\"" + s;
    assert ("\"" + s)[1..] == s;
  }

  /** Every literal holds its value, and no value changes the text around the literals. */
  lemma {:induction false} ScanRendered(pieces: seq<Piece>)
    requires QuoteFree(pieces)
    ensures ScanText(Render(pieces)) == Scan(LiteralsOf(pieces), Render(Emptied(pieces)))
  {
    if pieces != [] {
      ScanRendered(pieces[1..]);
      var rest := Render(pieces[1..]);
      if pieces[0].Text? {
        ScanPlain(pieces[0].text, rest);
      } else {
        ScanLiteral(pieces[0].value, rest);
        assert EscapeString("", true) + "\"" == "\"";
        assert PieceText(Literal("")) == "\"\"";
      }
    }
  }

  function TagPieces(tags: seq<TagInformation>): seq<Piece> {
    if tags == [] then [] else TagPieces(tags[..|tags| - 1]) + TagFilter(tags[|tags| - 1])
  }

  function TagFilter(t: TagInformation): seq<Piece> {
    [Text(" |> filter(fn: (r) => r["), Literal(t.key), Text("] == "), Literal(t.value), Text(")")]
  }

  function Enclosed(before: string, value: string, after: string): seq<Piece> {
    [Text(before), Literal(value), Text(after)]
  }

  function RangePieces(bucket: string, measurement: string, start: seq<Piece>, stop: seq<Piece>): seq<Piece> {
    Enclosed("from(bucket: ", bucket, ")") + [Text(" |> range(start: ")] + start + [Text(", stop: ")] + stop +
    [Text(")")] + Enclosed(" |> filter(fn: (r) => r._measurement == ", measurement, ")")
  }

  function FieldPieces(fieldKey: string): seq<Piece> {
    if fieldKey == "" then [] else Enclosed(" |> filter(fn: (r) => r._field == ", fieldKey, ")")
  }

  function QueryPieces(bucket: string, measurement: string, start: seq<Piece>, stop: seq<Piece>, fieldKey: string,
      tags: seq<TagInformation>): seq<Piece> {
    RangePieces(bucket, measurement, start, stop) + FieldPieces(fieldKey) + TagPieces(tags)
  }

  lemma {:induction false} RenderConcat(a: seq<Piece>, b: seq<Piece>)
    ensures Render(a + b) == Render(a) + Render(b)
  {
    hide PieceText;
    if a == [] {
      assert a + b == b;
    } else {
      RenderConcat(a[1..], b);
      assert (a + b)[1..] == a[1..] + b;
      Assoc(PieceText(a[0]), Render(a[1..]), Render(b));
    }
  }

  lemma RenderAppend(a: seq<Piece>, p: Piece)
    ensures Render(a + [p]) == Render(a) + PieceText(p)
  {
    RenderConcat(a, [p]);
    assert PieceText(p) + "" == PieceText(p);
  }

  /** Appends pieces to a text, one after the other. */
  method Append(flux: string, ghost before: seq<Piece>, text: string, value: string)
      returns (longer: string, ghost pieces: seq<Piece>)
    requires flux == Render(before)
    ensures pieces == before + [Text(text), Literal(value)] && longer == Render(pieces)
  {
    var escaped := EscapeJson(value);
    longer := flux + text;
    RenderAppend(before, Text(text));
    longer := longer + ("\"" + (escaped + "\""));
    pieces := before + [Text(text)] + [Literal(value)];
    RenderAppend(before + [Text(text)], Literal(value));
    assert pieces == before + [Text(text), Literal(value)];
  }

  /** The range expressions are inserted as they are. */
  method BuildFluxReadQuery(bucket: string, measurement: string, startExpression: string, stopExpression: string,
      fieldKey: string, tags: seq<TagInformation>, ghost start: seq<Piece>, ghost stop: seq<Piece>)
      returns (flux: string)
    requires startExpression == Render(start) && stopExpression == Render(stop)
    ensures flux == Render(QueryPieces(bucket, measurement, start, stop, fieldKey, tags))
  {
    hide Render, PieceText, TagPieces, RangePieces, Enclosed;
    ghost var pieces;
    flux, pieces := RangeQuery(bucket, measurement, startExpression, stopExpression, start, stop);
    if fieldKey != "" {
      flux, pieces := AppendEnclosed(flux, pieces, " |> filter(fn: (r) => r._field == ", fieldKey, ")");
    }
    ghost var head := RangePieces(bucket, measurement, start, stop) + FieldPieces(fieldKey);
    assert pieces == head;
    flux, pieces := AppendTags(flux, pieces, tags);
  }

  method RangeQuery(bucket: string, measurement: string, startExpression: string, stopExpression: string,
      ghost start: seq<Piece>, ghost stop: seq<Piece>)
      returns (flux: string, ghost pieces: seq<Piece>)
    requires startExpression == Render(start) && stopExpression == Render(stop)
    ensures pieces == RangePieces(bucket, measurement, start, stop) && flux == Render(pieces)
  {
    hide Render, PieceText, Enclosed;
    RenderEmpty();
    flux, pieces := AppendEnclosed("", [], "from(bucket: ", bucket, ")");
    flux, pieces := AppendText(flux, pieces, " |> range(start: ");
    RenderConcat(pieces, start);
    flux, pieces := flux + startExpression, pieces + start;
    flux, pieces := AppendText(flux, pieces, ", stop: ");
    RenderConcat(pieces, stop);
    flux, pieces := flux + stopExpression, pieces + stop;
    flux, pieces := AppendText(flux, pieces, ")");
    flux, pieces := AppendEnclosed(flux, pieces, " |> filter(fn: (r) => r._measurement == ", measurement, ")");
  }

  /** Appends a value in quotes, with text on both sides. */
  method AppendEnclosed(flux: string, ghost before: seq<Piece>, text: string, value: string, after: string)
      returns (longer: string, ghost pieces: seq<Piece>)
    requires flux == Render(before)
    ensures pieces == before + Enclosed(text, value, after) && longer == Render(pieces)
  {
    hide Render, PieceText;
    longer, pieces := Append(flux, before, text, value);
    longer, pieces := AppendText(longer, pieces, after);
  }

  method AppendTags(before: string, ghost head: seq<Piece>, tags: seq<TagInformation>)
      returns (flux: string, ghost pieces: seq<Piece>)
    requires before == Render(head)
    ensures pieces == head + TagPieces(tags) && flux == Render(pieces)
  {
    hide Render, PieceText;
    flux, pieces := before, head;
    for i := 0 to |tags|
      invariant pieces == head + TagPieces(tags[..i]) && flux == Render(pieces)
    {
      flux, pieces := Append(flux, pieces, " |> filter(fn: (r) => r[", tags[i].key);
      flux, pieces := Append(flux, pieces, "] == ", tags[i].value);
      flux, pieces := AppendText(flux, pieces, ")");
      assert tags[..i + 1][..i] == tags[..i];
    }
    assert tags[..|tags|] == tags;
  }

  lemma RenderEmpty()
    ensures Render([]) == ""
  {
  }

  method AppendText(flux: string, ghost before: seq<Piece>, text: string)
      returns (longer: string, ghost pieces: seq<Piece>)
    requires flux == Render(before)
    ensures pieces == before + [Text(text)] && longer == Render(pieces)
  {
    longer, pieces := flux + text, before + [Text(text)];
    RenderAppend(before, Text(text));
  }

  // ---------------------------------------------------------------- what the query says

  /** What the client passes for a point in time. */
  function TimePieces(timestamp: string): seq<Piece> { Enclosed("time(v: ", timestamp, ")") }

  function TagLiterals(tags: seq<TagInformation>): seq<string> {
    if tags == [] then []
    else TagLiterals(tags[..|tags| - 1]) + [tags[|tags| - 1].key, tags[|tags| - 1].value]
  }

  lemma {:induction false} LiteralsConcat(a: seq<Piece>, b: seq<Piece>)
    ensures LiteralsOf(a + b) == LiteralsOf(a) + LiteralsOf(b)
  {
    if a == [] {
      assert a + b == b;
    } else {
      LiteralsConcat(a[1..], b);
      assert (a + b)[1..] == a[1..] + b;
    }
  }

  lemma {:induction false} TagPiecesLiterals(tags: seq<TagInformation>)
    ensures LiteralsOf(TagPieces(tags)) == TagLiterals(tags) && QuoteFree(TagPieces(tags))
  {
    hide LiteralsOf, QuoteFree, TagFilter;
    if tags == [] {
      NothingHasNone();
    } else {
      var front, t := tags[..|tags| - 1], tags[|tags| - 1];
      TagPiecesLiterals(front);
      OneTagLiterals(t);
      LiteralsConcat(TagPieces(front), TagFilter(t));
      ConcatQuoteFree(TagPieces(front), TagFilter(t));
    }
  }

  lemma Between(before: string, value: string, after: string)
    ensures LiteralsOf(Enclosed(before, value, after)) == [value]
    ensures '"' !in before && '"' !in after ==> QuoteFree(Enclosed(before, value, after))
  {
    var p := Enclosed(before, value, after);
    assert p == [Text(before), Literal(value), Text(after)];
    assert p[0] == Text(before) && LiteralsOf(p) == LiteralsOf(p[1..]);
    assert p[1..] == [Literal(value), Text(after)] && p[1..][1..] == [Text(after)];
    assert p[1..][1..][1..] == [];
    assert LiteralsOf(p[1..][1..]) == LiteralsOf(p[1..][1..][1..]) == [];
    assert LiteralsOf(p[1..]) == [value] + LiteralsOf(p[1..][1..]);
  }

  lemma OneTagLiterals(t: TagInformation)
    ensures LiteralsOf(TagFilter(t)) == [t.key, t.value] && QuoteFree(TagFilter(t))
  {
    var p := TagFilter(t);
    Between("] == ", t.value, ")");
    assert p[1..] == [p[1], p[2], p[3], p[4]] && p[1..][1..] == Enclosed("] == ", t.value, ")");
    assert LiteralsOf(p[1..]) == [t.key] + LiteralsOf(p[1..][1..]);
  }

  lemma RangeLiterals(bucket: string, measurement: string, start: string, stop: string)
    ensures var r := RangePieces(bucket, measurement, TimePieces(start), TimePieces(stop));
      LiteralsOf(r) == [bucket, start, stop, measurement] && QuoteFree(r)
  {
    hide LiteralsOf, QuoteFree, Enclosed;
    var a := Enclosed("from(bucket: ", bucket, ")");
    var d := Enclosed(" |> filter(fn: (r) => r._measurement == ", measurement, ")");
    var b: seq<Piece> := [Text(" |> range(start: ")];
    Between("from(bucket: ", bucket, ")");
    Between(" |> filter(fn: (r) => r._measurement == ", measurement, ")");
    Between("time(v: ", start, ")");
    Between("time(v: ", stop, ")");
    JoinLiterals(a, b, TimePieces(start), TimePieces(stop), d);
    JoinQuoteFree(a, b, TimePieces(start), TimePieces(stop), d);
  }

  lemma JoinQuoteFree(a: seq<Piece>, b: seq<Piece>, start: seq<Piece>, stop: seq<Piece>, d: seq<Piece>)
    requires QuoteFree(a) && QuoteFree(start) && QuoteFree(stop) && QuoteFree(d)
    requires b == [Text(" |> range(start: ")]
    ensures QuoteFree(a + b + start + [Text(", stop: ")] + stop + [Text(")")] + d)
  {
    hide QuoteFree;
    assert QuoteFree(b) && QuoteFree([Text(", stop: ")]) && QuoteFree([Text(")")]) by { TextsAreQuoteFree(b); }
    ConcatQuoteFree(a, b);
    ConcatQuoteFree(a + b, start);
    ConcatQuoteFree(a + b + start, [Text(", stop: ")]);
    ConcatQuoteFree(a + b + start + [Text(", stop: ")], stop);
    ConcatQuoteFree(a + b + start + [Text(", stop: ")] + stop, [Text(")")]);
    ConcatQuoteFree(a + b + start + [Text(", stop: ")] + stop + [Text(")")], d);
  }

  lemma ConcatQuoteFree(a: seq<Piece>, b: seq<Piece>)
    requires QuoteFree(a) && QuoteFree(b)
    ensures QuoteFree(a + b)
  {
  }

  lemma TextsAreQuoteFree(b: seq<Piece>)
    requires b == [Text(" |> range(start: ")]
    ensures QuoteFree(b) && QuoteFree([Text(", stop: ")]) && QuoteFree([Text(")")])
  {
  }

  lemma JoinLiterals(a: seq<Piece>, b: seq<Piece>, start: seq<Piece>, stop: seq<Piece>, d: seq<Piece>)
    requires |b| == 1 && b[0].Text?
    ensures LiteralsOf(a + b + start + [Text(", stop: ")] + stop + [Text(")")] + d) ==
            LiteralsOf(a) + LiteralsOf(start) + LiteralsOf(stop) + LiteralsOf(d)
  {
    hide LiteralsOf;
    assert LiteralsOf(b) == LiteralsOf([Text(", stop: ")]) == LiteralsOf([Text(")")]) == [] by { TextHasNone(b); }
    LiteralsConcat(a, b);
    LiteralsConcat(a + b, start);
    LiteralsConcat(a + b + start, [Text(", stop: ")]);
    LiteralsConcat(a + b + start + [Text(", stop: ")], stop);
    LiteralsConcat(a + b + start + [Text(", stop: ")] + stop, [Text(")")]);
    LiteralsConcat(a + b + start + [Text(", stop: ")] + stop + [Text(")")], d);
  }

  lemma TextHasNone(b: seq<Piece>)
    requires |b| == 1 && b[0].Text?
    ensures LiteralsOf(b) == LiteralsOf([Text(", stop: ")]) == LiteralsOf([Text(")")]) == []
  {
  }

  lemma NothingHasNone()
    ensures LiteralsOf([]) == [] && QuoteFree([])
  {
  }

  lemma FieldLiterals(fieldKey: string)
    ensures LiteralsOf(FieldPieces(fieldKey)) == (if fieldKey == "" then [] else [fieldKey])
    ensures QuoteFree(FieldPieces(fieldKey))
  {
    hide LiteralsOf, Enclosed, QuoteFree;
    Between(" |> filter(fn: (r) => r._field == ", fieldKey, ")");
    NothingHasNone();
  }

  lemma {:induction false} EmptiedConcat(a: seq<Piece>, b: seq<Piece>)
    ensures Emptied(a + b) == Emptied(a) + Emptied(b)
  {
    if a == [] {
      assert a + b == b;
    } else {
      EmptiedConcat(a[1..], b);
      assert (a + b)[1..] == a[1..] + b;
    }
  }

  /** The text of pieces with nothing in their literals. */
  ghost function ShapeOf(pieces: seq<Piece>): string { Render(Emptied(pieces)) }

  lemma ShapeConcat(a: seq<Piece>, b: seq<Piece>)
    ensures ShapeOf(a + b) == ShapeOf(a) + ShapeOf(b)
  {
    EmptiedConcat(a, b);
    RenderConcat(Emptied(a), Emptied(b));
  }

  lemma ShapeOfOne(p: Piece)
    ensures ShapeOf([p]) == if p.Literal? then "\"\"" else p.text
  {
    var q := if p.Literal? then Literal("") else p;
    assert [p][1..] == [] && Emptied([p]) == [q] && [q][1..] == [];
    assert EscapeString("", true) + "\"" == "\"";
    assert Render([q]) == PieceText(q) + "" == PieceText(q);
  }

  lemma ShapeOfEnclosed(before: string, value: string, after: string)
    ensures ShapeOf(Enclosed(before, value, after)) == before + "\"\"" + after
  {
    hide ShapeOf;
    ShapeOfOne(Text(before));
    ShapeOfOne(Literal(value));
    ShapeOfOne(Text(after));
    ShapeConcat([Text(before)], [Literal(value)]);
    ShapeConcat([Text(before)] + [Literal(value)], [Text(after)]);
    assert Enclosed(before, value, after) == [Text(before)] + [Literal(value)] + [Text(after)];
  }

  /** The query without its values: what it selects from, and how it filters. */
  function QueryShape(hasField: bool, tags: nat): string {
    "from(bucket: \"\") |> range(start: time(v: \"\"), stop: time(v: \"\"))" +
    " |> filter(fn: (r) => r._measurement == \"\")" +
    (if hasField then " |> filter(fn: (r) => r._field == \"\")" else "") + TagsShape(tags)
  }

  function TagsShape(tags: nat): string {
    if tags == 0 then "" else TagsShape(tags - 1) + " |> filter(fn: (r) => r[\"\"] == \"\")"
  }

  lemma TagFilterShape(t: TagInformation)
    ensures ShapeOf(TagFilter(t)) == " |> filter(fn: (r) => r[\"\"] == \"\")"
  {
    hide ShapeOf;
    var head: seq<Piece> := [Text(" |> filter(fn: (r) => r[")];
    ShapeOfOne(head[0]);
    ShapeOfOne(Literal(t.key));
    ShapeOfEnclosed("] == ", t.value, ")");
    ShapeConcat(head, [Literal(t.key)]);
    ShapeConcat(head + [Literal(t.key)], Enclosed("] == ", t.value, ")"));
    assert TagFilter(t) == head + [Literal(t.key)] + Enclosed("] == ", t.value, ")");
    assert " |> filter(fn: (r) => r[" + "\"\"" + ("] == " + "\"\"" + ")") == " |> filter(fn: (r) => r[\"\"] == \"\")";
  }

  lemma {:induction false} TagPiecesShape(tags: seq<TagInformation>)
    ensures ShapeOf(TagPieces(tags)) == TagsShape(|tags|)
  {
    hide ShapeOf, TagFilter;
    if tags == [] {
      ShapeOfNothing();
    } else {
      TagPiecesShape(tags[..|tags| - 1]);
      TagFilterShape(tags[|tags| - 1]);
      ShapeConcat(TagPieces(tags[..|tags| - 1]), TagFilter(tags[|tags| - 1]));
    }
  }

  lemma ShapeOfNothing()
    ensures ShapeOf([]) == ""
  {
  }

  lemma RangeShape(bucket: string, measurement: string, start: string, stop: string)
    ensures ShapeOf(RangePieces(bucket, measurement, TimePieces(start), TimePieces(stop))) ==
            "from(bucket: \"\") |> range(start: time(v: \"\"), stop: time(v: \"\"))" +
            " |> filter(fn: (r) => r._measurement == \"\")"
  {
    hide ShapeOf, Enclosed;
    var a := Enclosed("from(bucket: ", bucket, ")");
    var d := Enclosed(" |> filter(fn: (r) => r._measurement == ", measurement, ")");
    var b: seq<Piece>, m: seq<Piece>, z: seq<Piece> := [Text(" |> range(start: ")], [Text(", stop: ")], [Text(")")];
    ShapeOfEnclosed("from(bucket: ", bucket, ")");
    ShapeOfEnclosed(" |> filter(fn: (r) => r._measurement == ", measurement, ")");
    ShapeOfEnclosed("time(v: ", start, ")");
    ShapeOfEnclosed("time(v: ", stop, ")");
    ShapeOfOne(b[0]);
    ShapeOfOne(m[0]);
    ShapeOfOne(z[0]);
    var from, to := TimePieces(start), TimePieces(stop);
    ShapeConcat(a, b);
    ShapeConcat(a + b, from);
    ShapeConcat(a + b + from, m);
    ShapeConcat(a + b + from + m, to);
    ShapeConcat(a + b + from + m + to, z);
    ShapeConcat(a + b + from + m + to + z, d);
    RangeText();
  }

  // The joined texts, letter by letter.
  lemma RangeText()
    ensures ("from(bucket: " + "\"\"" + ")") + " |> range(start: " + ("time(v: " + "\"\"" + ")") + ", stop: " +
            ("time(v: " + "\"\"" + ")") + ")" ==
            "from(bucket: \"\") |> range(start: time(v: \"\"), stop: time(v: \"\"))"
    ensures " |> filter(fn: (r) => r._measurement == " + "\"\"" + ")" ==
            " |> filter(fn: (r) => r._measurement == \"\")"
  {
    assert "from(bucket: " + "\"\"" + ")" == "from(bucket: \"\")";
    assert "time(v: " + "\"\"" + ")" == "time(v: \"\")";
    assert "from(bucket: \"\")" + " |> range(start: " == "from(bucket: \"\") |> range(start: ";
    var head := "from(bucket: \"\") |> range(start: ";
    assert head + "time(v: \"\")" == "from(bucket: \"\") |> range(start: time(v: \"\")";
    assert (head + "time(v: \"\")") + ", stop: " == "from(bucket: \"\") |> range(start: time(v: \"\"), stop: ";
    assert "from(bucket: \"\") |> range(start: time(v: \"\"), stop: " + "time(v: \"\")" ==
           "from(bucket: \"\") |> range(start: time(v: \"\"), stop: time(v: \"\")";
    assert "from(bucket: \"\") |> range(start: time(v: \"\"), stop: time(v: \"\")" + ")" ==
           "from(bucket: \"\") |> range(start: time(v: \"\"), stop: time(v: \"\"))";
  }

  lemma FieldShape(fieldKey: string)
    ensures ShapeOf(FieldPieces(fieldKey)) ==
            if fieldKey != "" then " |> filter(fn: (r) => r._field == \"\")" else ""
  {
    hide ShapeOf;
    ShapeOfNothing();
    ShapeOfEnclosed(" |> filter(fn: (r) => r._field == ", fieldKey, ")");
    assert " |> filter(fn: (r) => r._field == " + "\"\"" + ")" == " |> filter(fn: (r) => r._field == \"\")";
  }

  lemma QueryHasShape(bucket: string, measurement: string, start: string, stop: string, fieldKey: string,
      tags: seq<TagInformation>)
    ensures ShapeOf(QueryPieces(bucket, measurement, TimePieces(start), TimePieces(stop), fieldKey, tags)) ==
            QueryShape(fieldKey != "", |tags|)
  {
    hide ShapeOf, RangePieces, FieldPieces, TagPieces;
    var range := RangePieces(bucket, measurement, TimePieces(start), TimePieces(stop));
    RangeShape(bucket, measurement, start, stop);
    FieldShape(fieldKey);
    TagPiecesShape(tags);
    ShapeConcat(range, FieldPieces(fieldKey));
    ShapeConcat(range + FieldPieces(fieldKey), TagPieces(tags));
  }

  /**
   * The query over a time range, read back: its literals are exactly the bucket, the two bounds, the measurement,
   * the field and the keys and values of the filters, and the rest of it is the same whatever they hold: the range,
   * and one filter each for the measurement, the field and every tag.
   */
  lemma QueryDeterminesFilters(bucket: string, measurement: string, start: string, stop: string, fieldKey: string,
      tags: seq<TagInformation>)
    ensures var pieces := QueryPieces(bucket, measurement, TimePieces(start), TimePieces(stop), fieldKey, tags);
      ScanText(Render(pieces)) ==
      Scan([bucket, start, stop, measurement] + (if fieldKey == "" then [] else [fieldKey]) + TagLiterals(tags),
           QueryShape(fieldKey != "", |tags|))
  {
    hide Render, Emptied, RangePieces, FieldPieces, TagPieces, LiteralsOf, TagLiterals, QueryShape;
    QueryHasShape(bucket, measurement, start, stop, fieldKey, tags);
    var range := RangePieces(bucket, measurement, TimePieces(start), TimePieces(stop));
    RangeLiterals(bucket, measurement, start, stop);
    FieldLiterals(fieldKey);
    TagPiecesLiterals(tags);
    LiteralsConcat(range, FieldPieces(fieldKey));
    LiteralsConcat(range + FieldPieces(fieldKey), TagPieces(tags));
    ScanRendered(range + FieldPieces(fieldKey) + TagPieces(tags));
  }
}
