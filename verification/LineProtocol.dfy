/** Printing points in the line protocol, and reading them back. */
module LineProtocol {
  import opened InfluxTypes
  import opened Escaping
  import opened Decimal

  // ---------------------------------------------------------------- identifiers

  predicate Special(c: char) { c == ',' || c == ' ' || c == '=' }

  function EscapeOne(c: char): string { if Special(c) then ['\\', c] else [c] }

  function EscapeIdentifier(s: string): string {
    if s == "" then "" else EscapeOne(s[0]) + EscapeIdentifier(s[1..])
  }

  method EscapeLineProtocolIdentifier(input: string) returns (out: string)
    ensures out == EscapeIdentifier(input)
  {
    out := "";
    for i := 0 to |input|
      invariant out + EscapeIdentifier(input[i..]) == EscapeIdentifier(input)
    {
      var c := input[i];
      assert input[i..][1..] == input[i + 1..];
      ghost var before := out;
      if c == ',' || c == ' ' || c == '=' { out := out + ['\\']; }
      out := out + [c];
      assert out == before + EscapeOne(c);
      Assoc(before, EscapeOne(c), EscapeIdentifier(input[i + 1..]));
    }
    assert out + "" == out;
  }

  /** Reads up to the first special character that no backslash protects; a backslash before any other
      character stands for itself. */
  function ReadIdentifier(s: string): (string, string) {
    if s == "" then ("", "")
    else if s[0] == '\\' && |s| >= 2 && Special(s[1]) then
      var (t, r) := ReadIdentifier(s[2..]); ([s[1]] + t, r)
    else if Special(s[0]) then ("", s)
    else var (t, r) := ReadIdentifier(s[1..]); ([s[0]] + t, r)
  }

  predicate EndsInBackslash(s: string) { s != "" && s[|s| - 1] == '\\' }

  /** Reading consumes one escaped character, unless it is a backslash that the text behind it turns into
      an escape. */
  lemma ReadOne(c: char, tail: string)
    requires c == '\\' ==> tail == "" || !Special(tail[0])
    ensures var (t, r) := ReadIdentifier(tail);
      ReadIdentifier(EscapeOne(c) + tail) == ([c] + t, r)
  {
    var s := EscapeOne(c) + tail;
    if Special(c) {
      assert s[0] == '\\' && s[1] == c && s[2..] == tail;
    } else {
      assert s[0] == c && s[1..] == tail;
    }
  }

  lemma ReadStep(id: string, rest: string)
    requires id != "" && (|id| == 1 && id[0] == '\\' ==> rest == "" || !Special(rest[0]))
    ensures var (t, r) := ReadIdentifier(EscapeIdentifier(id[1..]) + rest);
      ReadIdentifier(EscapeIdentifier(id) + rest) == ([id[0]] + t, r)
  {
    var tail := EscapeIdentifier(id[1..]) + rest;
    Assoc(EscapeOne(id[0]), EscapeIdentifier(id[1..]), rest);
    if |id| == 1 {
      assert tail == rest;
    } else {
      assert tail[0] == EscapeOne(id[1])[0];
    }
    ReadOne(id[0], tail);
  }

  /** An identifier that does not end in a backslash is recovered. */
  lemma {:induction false} ReadEscaped(id: string, rest: string)
    requires !EndsInBackslash(id) && rest != "" && Special(rest[0])
    ensures ReadIdentifier(EscapeIdentifier(id) + rest) == (id, rest)
  {
    if id == "" {
      assert EscapeIdentifier(id) + rest == rest;
    } else {
      ReadStep(id, rest);
      ReadEscaped(id[1..], rest);
      assert [id[0]] + id[1..] == id;
    }
  }

  /** An identifier that ends in a backslash is not: the delimiter after it is read as part of it. */
  lemma {:induction false} ReadBroken(id: string, rest: string)
    requires EndsInBackslash(id) && rest != "" && Special(rest[0])
    ensures var t := ReadIdentifier(EscapeIdentifier(id) + rest).0;
      |t| >= |id| && t[|id| - 1] == rest[0]
  {
    if |id| == 1 {
      var s := EscapeIdentifier(id) + rest;
      assert id[1..] == "" && s[0] == '\\' && s[1] == rest[0];
    } else {
      ReadStep(id, rest);
      ReadBroken(id[1..], rest);
    }
  }

  lemma ReadIdentifierIff(id: string, rest: string)
    requires rest != "" && Special(rest[0])
    ensures ReadIdentifier(EscapeIdentifier(id) + rest) == (id, rest) <==> !EndsInBackslash(id)
    ensures EndsInBackslash(id) ==> ReadIdentifier(EscapeIdentifier(id) + rest).0 != id
  {
    if EndsInBackslash(id) { ReadBroken(id, rest); } else { ReadEscaped(id, rest); }
  }

  // ---------------------------------------------------------------- string values

  const VT := 11 as char
  const FF := 12 as char

  predicate Blank(c: char) { c == ' ' || c == '\t' || c == VT || c == FF }

  /** std::isspace; without the line breaks it is Blank. */
  predicate IsSpace(c: char, breaks: bool) { Blank(c) || (breaks && (c == '\n' || c == '\r')) }

  function TrimLeft(s: string, breaks: bool): string {
    if s != "" && IsSpace(s[0], breaks) then TrimLeft(s[1..], breaks) else s
  }

  function TrimRight(s: string, breaks: bool): string {
    if s != "" && IsSpace(s[|s| - 1], breaks) then TrimRight(s[..|s| - 1], breaks) else s
  }

  function Trimmed(s: string): string { TrimRight(TrimLeft(s, true), true) }

  /** Without leading and trailing space, tab, VT and FF. */
  function WithoutBlanks(s: string): string { TrimRight(TrimLeft(s, false), false) }

  ghost predicate AllBlank(s: string) { forall i :: 0 <= i < |s| ==> Blank(s[i]) }

  lemma {:induction false} TrimLeftCuts(s: string)
    ensures var r := TrimLeft(s, false);
      && |r| <= |s| && r == s[|s| - |r|..] && AllBlank(s[..|s| - |r|]) && (r != "" ==> !Blank(r[0]))
  {
    if s != "" && Blank(s[0]) {
      TrimLeftCuts(s[1..]);
      var k := |s| - |TrimLeft(s, false)|;
      assert s[..k] == [s[0]] + s[1..][..k - 1];
    }
  }

  lemma {:induction false} TrimRightCuts(s: string)
    ensures var r := TrimRight(s, false);
      && |r| <= |s| && r == s[..|r|] && AllBlank(s[|r|..]) && (r != "" ==> !Blank(r[|r| - 1]))
  {
    var n := |s| - 1;
    if s != "" && Blank(s[n]) {
      TrimRightCuts(s[..n]);
      var k := |TrimRight(s, false)|;
      assert s[k..] == s[..n][k..] + [s[n]];
    }
  }

  /** What is left is the part of the value between its outermost characters that are not blank. */
  lemma WithoutBlanksCuts(s: string)
    ensures exists i, j :: 0 <= i <= j <= |s| && WithoutBlanks(s) == s[i..j] &&
                           AllBlank(s[..i]) && AllBlank(s[j..]) &&
                           (i < j ==> !Blank(s[i]) && !Blank(s[j - 1]))
  {
    TrimLeftCuts(s);
    var left := TrimLeft(s, false);
    TrimRightCuts(left);
    var i := |s| - |left|;
    var j := i + |WithoutBlanks(s)|;
    assert WithoutBlanks(s) == s[i..j] && s[j..] == left[j - i..];
    assert i < j ==> s[i] == left[0] && s[j - 1] == left[j - i - 1];
  }

  method Trim(value: string) returns (r: string)
    ensures r == Trimmed(value)
  {
    r := value;
    while r != "" && IsSpace(r[0], true)
      invariant TrimLeft(r, true) == TrimLeft(value, true)
      decreases |r|
    {
      r := r[1..];
    }
    while r != "" && IsSpace(r[|r| - 1], true)
      invariant TrimRight(r, true) == Trimmed(value)
      decreases |r|
    {
      r := r[..|r| - 1];
    }
  }

  method EscapeLineProtocolStringValue(input: string) returns (r: string)
    ensures r == Trimmed(EscapeString(input, false)) == EscapeString(WithoutBlanks(input), false)
  {
    var out := "";
    for i := 0 to |input|
      invariant out + EscapeString(input[i..], false) == EscapeString(input, false)
    {
      ghost var before := out;
      match input[i] {
        case '\\' => out := out + ['\\', '\\'];
        case '"' => out := out + ['\\', '"'];
        case '\n' => out := out + ['\\', 'n'];
        case '\r' => out := out + ['\\', 'r'];
        case _ => out := out + [input[i]];
      }
      assert out == before + EscapeChar(input[i], false);
      assert input[i..][1..] == input[i + 1..];
      Assoc(before, EscapeChar(input[i], false), EscapeString(input[i + 1..], false));
    }
    assert out + "" == out;
    r := Trim(out);
    TrimEscaped(input);
  }

  lemma {:induction false} TrimLeftEscaped(s: string)
    ensures TrimLeft(EscapeString(s, false), true) == EscapeString(TrimLeft(s, false), false)
  {
    if s != "" {
      var e := EscapeString(s, false);
      assert e[0] == if NeedsEscape(s[0], false) then '\\' else s[0];
      if Blank(s[0]) {
        TrimLeftEscaped(s[1..]);
        assert e[1..] == EscapeString(s[1..], false);
        assert TrimLeft(e, true) == TrimLeft(e[1..], true);
      } else {
        assert TrimLeft(e, true) == e && TrimLeft(s, false) == s;
      }
    }
  }

  lemma {:induction false} TrimRightEscaped(s: string)
    ensures TrimRight(EscapeString(s, false), true) == EscapeString(TrimRight(s, false), false)
  {
    if s != "" {
      var n := |s| - 1;
      var e := EscapeString(s, false);
      EscapeStringAppend(s[..n], s[n], false);
      assert s[..n] + [s[n]] == s;
      assert e == EscapeString(s[..n], false) + EscapeChar(s[n], false);
      assert e[|e| - 1] == if NeedsEscape(s[n], false) then EscapeLetter(s[n]) else s[n];
      if Blank(s[n]) {
        TrimRightEscaped(s[..n]);
        assert e[..|e| - 1] == EscapeString(s[..n], false);
      }
    }
  }

  /** Trimming after escaping strips space, tab, VT and FF of the value, but neither LF nor CR. */
  lemma TrimEscaped(s: string)
    ensures Trimmed(EscapeString(s, false)) == EscapeString(WithoutBlanks(s), false)
  {
    TrimLeftEscaped(s);
    TrimRightEscaped(TrimLeft(s, false));
  }

  // ---------------------------------------------------------------- lines

  datatype Line = Line(
    measurement: string, tags: seq<(string, string)>, field: string, value: FieldValue, timestamp: Option<int>)

  function TagsText(tags: seq<(string, string)>): string {
    if tags == [] then ""
    else "," + (EscapeIdentifier(tags[0].0) + ("=" + (EscapeIdentifier(tags[0].1) + TagsText(tags[1..]))))
  }

  function ValueText(v: FieldValue): string {
    if v.isString then "\"" + (EscapeString(WithoutBlanks(v.value), false) + "\"") else v.value
  }

  function TimestampText(t: Option<int>): string { if t.Some? then " " + PrintInt(t.value) else "" }

  function LineText(l: Line): string {
    EscapeIdentifier(l.measurement) + (TagsText(l.tags) + FieldText(l))
  }

  function FieldText(l: Line): string {
    " " + (EscapeIdentifier(l.field) + ("=" + (ValueText(l.value) + TimestampText(l.timestamp))))
  }

  /** What can come back: a string value has lost its leading and trailing blanks. */
  function Normal(l: Line): Line {
    l.(value := NormalValue(l.value))
  }

  function ReadTags(s: string): Option<(seq<(string, string)>, string)>
    decreases |s|
  {
    if s == "" || s[0] != ',' then Some(([], s))
    else
      var (key, r1) := ReadIdentifier(s[1..]);
      if |r1| >= |s| || r1 == "" || r1[0] != '=' then None
      else
        var (value, r2) := ReadIdentifier(r1[1..]);
        if |r2| >= |s| then None
        else
          match ReadTags(r2)
          case None => None
          case Some((tags, r)) => Some(([(key, value)] + tags, r))
  }

  function ReadBare(s: string): (string, string) {
    if s == "" || s[0] == ' ' then ("", s)
    else var (t, r) := ReadBare(s[1..]); ([s[0]] + t, r)
  }

  function ReadValue(s: string): Option<(FieldValue, string)> {
    if s != "" && s[0] == '"' then
      match ReadString(s[1..], false)
      case None => None
      case Some((v, r)) => Some((FieldValue(v, true), r))
    else
      var (v, r) := ReadBare(s); Some((FieldValue(v, false), r))
  }

  function ReadTimestamp(s: string): Option<Option<int>> {
    if s == "" then Some(None)
    else if s[0] != ' ' then None
    else match ParseInt(s[1..]) case None => None case Some(n) => Some(Some(n))
  }

  function ReadField(s: string): Option<(string, FieldValue, Option<int>)> {
    if s == "" || s[0] != ' ' then None
    else
      var (field, r1) := ReadIdentifier(s[1..]);
      if r1 == "" || r1[0] != '=' then None
      else
        match ReadValue(r1[1..])
        case None => None
        case Some((value, r2)) =>
          match ReadTimestamp(r2)
          case None => None
          case Some(t) => Some((field, value, t))
  }

  function ReadLine(s: string): Option<Line> {
    var (measurement, r1) := ReadIdentifier(s);
    match ReadTags(r1)
    case None => None
    case Some((tags, r2)) =>
      match ReadField(r2)
      case None => None
      case Some((field, value, t)) => Some(Line(measurement, tags, field, value, t))
  }

  /** What std::to_string and the ostream print for a value that is not a string. */
  ghost predicate BareValue(v: FieldValue) {
    v.isString || (' ' !in v.value && !(v.value != "" && v.value[0] == '"'))
  }

  ghost predicate TagsReadable(tags: seq<(string, string)>) {
    forall i :: 0 <= i < |tags| ==> !EndsInBackslash(tags[i].0) && !EndsInBackslash(tags[i].1)
  }

  ghost predicate Readable(l: Line) {
    !EndsInBackslash(l.measurement) && TagsReadable(l.tags) && !EndsInBackslash(l.field)
  }

  lemma {:induction false} ReadBareText(v: string, rest: string)
    requires ' ' !in v && (rest == "" || rest[0] == ' ')
    ensures ReadBare(v + rest) == (v, rest)
  {
    if v == "" {
      assert v + rest == rest;
    } else {
      ReadBareText(v[1..], rest);
      assert (v + rest)[0] == v[0] && (v + rest)[1..] == v[1..] + rest;
      assert [v[0]] + v[1..] == v;
    }
  }

  function NormalValue(v: FieldValue): FieldValue {
    if v.isString then FieldValue(WithoutBlanks(v.value), true) else v
  }

  lemma ReadValueText(v: FieldValue, rest: string)
    requires BareValue(v) && (rest == "" || rest[0] == ' ')
    ensures ReadValue(ValueText(v) + rest) == Some((NormalValue(v), rest))
  {
    var s := ValueText(v) + rest;
    if v.isString {
      var w := WithoutBlanks(v.value);
      ReadStringEscaped(w, rest, false);
      Assoc(EscapeString(w, false), "\"", rest);
      Assoc("\"", EscapeString(w, false) + "\"", rest);
      assert s[0] == '"' && s[1..] == EscapeString(w, false) + ("\"" + rest);
    } else {
      ReadBareText(v.value, rest);
      assert v.value == "" ==> s == rest;
      assert v.value != "" ==> s[0] == v.value[0];
    }
  }

  lemma ReadTimestampText(t: Option<int>)
    ensures ReadTimestamp(TimestampText(t)) == Some(t)
  {
    if t.Some? {
      ParsePrintInt(t.value);
      assert TimestampText(t)[1..] == PrintInt(t.value);
    }
  }

  lemma ReadFieldText(l: Line)
    requires BareValue(l.value)
    ensures ReadField(FieldText(l)) == Some((l.field, Normal(l).value, l.timestamp)) <==> !EndsInBackslash(l.field)
    ensures EndsInBackslash(l.field) ==>
              ReadField(FieldText(l)).None? || ReadField(FieldText(l)).value.0 != l.field
  {
    var rest := "=" + (ValueText(l.value) + TimestampText(l.timestamp));
    ReadIdentifierIff(l.field, rest);
    assert FieldText(l)[1..] == EscapeIdentifier(l.field) + rest;
    if !EndsInBackslash(l.field) {
      assert rest[1..] == ValueText(l.value) + TimestampText(l.timestamp);
      ReadValueText(l.value, TimestampText(l.timestamp));
      ReadTimestampText(l.timestamp);
    }
  }

  lemma TagsTextThen(tags: seq<(string, string)>, rest: string)
    requires tags != []
    ensures TagsText(tags) + rest ==
            "," + (EscapeIdentifier(tags[0].0) +
              ("=" + (EscapeIdentifier(tags[0].1) + (TagsText(tags[1..]) + rest))))
  {
    var k, v, more := EscapeIdentifier(tags[0].0), EscapeIdentifier(tags[0].1), TagsText(tags[1..]);
    Assoc(v, more, rest);
    Assoc("=", v + more, rest);
    Assoc(k, "=" + (v + more), rest);
    Assoc(",", k + ("=" + (v + more)), rest);
  }

  /** Reading one tag and then the others. */
  lemma ReadTagsStep(key: string, value: string, more: string)
    requires more != "" && Special(more[0])
    ensures var r := ReadTags("," + (EscapeIdentifier(key) + ("=" + (EscapeIdentifier(value) + more))));
      if EndsInBackslash(key) || EndsInBackslash(value)
      then r.None? || (r.value.0 != [] && r.value.0[0] != (key, value))
      else match ReadTags(more)
           case None => r.None?
           case Some((tags, rest)) => r == Some(([(key, value)] + tags, rest))
  {
    var afterKey := "=" + (EscapeIdentifier(value) + more);
    var s := "," + (EscapeIdentifier(key) + afterKey);
    assert s[1..] == EscapeIdentifier(key) + afterKey;
    ReadIdentifierIff(key, afterKey);
    assert afterKey[1..] == EscapeIdentifier(value) + more;
    ReadIdentifierIff(value, more);
  }

  lemma {:induction false} ReadTagsText(tags: seq<(string, string)>, rest: string)
    requires rest != "" && rest[0] == ' '
    ensures TagsReadable(tags) ==> ReadTags(TagsText(tags) + rest) == Some((tags, rest))
    ensures !TagsReadable(tags) ==>
              ReadTags(TagsText(tags) + rest).None? || ReadTags(TagsText(tags) + rest).value.0 != tags
  {
    if tags == [] {
      assert TagsText(tags) + rest == rest;
    } else {
      var more := TagsText(tags[1..]) + rest;
      assert more[0] == ',' || more[0] == ' ';
      TagsTextThen(tags, rest);
      ReadTagsStep(tags[0].0, tags[0].1, more);
      ReadTagsText(tags[1..], rest);
      TagsReadableHead(tags);
      assert [tags[0]] + tags[1..] == tags;
    }
  }

  lemma TagsReadableHead(tags: seq<(string, string)>)
    requires tags != []
    ensures TagsReadable(tags) <==>
            !EndsInBackslash(tags[0].0) && !EndsInBackslash(tags[0].1) && TagsReadable(tags[1..])
  {
    if TagsReadable(tags[1..]) && !EndsInBackslash(tags[0].0) && !EndsInBackslash(tags[0].1) {
      forall i | 0 <= i < |tags| ensures !EndsInBackslash(tags[i].0) && !EndsInBackslash(tags[i].1) {
        if i > 0 { assert tags[i] == tags[1..][i - 1]; }
      }
    }
  }

  /** A printed line determines its parts if and only if no identifier in it ends in a backslash. */
  lemma LineRoundTrip(l: Line)
    requires BareValue(l.value)
    ensures ReadLine(LineText(l)) == Some(Normal(l)) <==> Readable(l)
  {
    var field := FieldText(l);
    var rest := TagsText(l.tags) + field;
    assert rest[0] == ',' || rest[0] == ' ';
    assert LineText(l) == EscapeIdentifier(l.measurement) + rest;
    ReadIdentifierIff(l.measurement, rest);
    ReadTagsText(l.tags, field);
    ReadFieldText(l);
  }

  // ---------------------------------------------------------------- payloads

  function Join(lines: seq<string>): string {
    if lines == [] then "" else if |lines| == 1 then lines[0] else lines[0] + "\n" + Join(lines[1..])
  }

  function Split(s: string): (r: seq<string>)
    ensures r != []
  {
    if s == "" then [""]
    else
      var r := Split(s[1..]);
      if s[0] == '\n' then [""] + r else [[s[0]] + r[0]] + r[1..]
  }

  lemma {:induction false} SplitLine(line: string, rest: string)
    requires '\n' !in line
    ensures Split(line) == [line]
    ensures Split(line + "\n" + rest) == [line] + Split(rest)
  {
    var s := line + "\n" + rest;
    if line == "" {
      assert s[1..] == rest;
    } else {
      SplitLine(line[1..], rest);
      assert s[1..] == line[1..] + "\n" + rest;
      assert [line[0]] + line[1..] == line;
    }
  }

  lemma {:induction false} SplitJoin(lines: seq<string>)
    requires lines != [] && forall i :: 0 <= i < |lines| ==> '\n' !in lines[i]
    ensures Split(Join(lines)) == lines
  {
    if |lines| == 1 {
      SplitLine(lines[0], "");
    } else {
      SplitJoin(lines[1..]);
      SplitLine(lines[0], Join(lines[1..]));
    }
  }

  ghost predicate OneLine(l: Line) {
    && '\n' !in l.measurement && '\n' !in l.field
    && (l.value.isString || '\n' !in l.value.value)
    && forall i :: 0 <= i < |l.tags| ==> '\n' !in l.tags[i].0 && '\n' !in l.tags[i].1
  }

  lemma {:induction false} EscapeIdentifierOneLine(s: string)
    requires '\n' !in s
    ensures '\n' !in EscapeIdentifier(s)
  {
    if s != "" { EscapeIdentifierOneLine(s[1..]); }
  }

  lemma {:induction false} EscapeStringOneLine(s: string)
    ensures '\n' !in EscapeString(s, false)
  {
    if s != "" { EscapeStringOneLine(s[1..]); }
  }

  lemma {:induction false} TagsTextOneLine(tags: seq<(string, string)>)
    requires forall i :: 0 <= i < |tags| ==> '\n' !in tags[i].0 && '\n' !in tags[i].1
    ensures '\n' !in TagsText(tags)
  {
    if tags != [] {
      TagsTextOneLine(tags[1..]);
      EscapeIdentifierOneLine(tags[0].0);
      EscapeIdentifierOneLine(tags[0].1);
    }
  }

  lemma ConcatOneLine(a: string, b: string)
    requires '\n' !in a && '\n' !in b
    ensures '\n' !in a + b
  {
  }

  lemma LineTextOneLine(l: Line)
    requires OneLine(l)
    ensures '\n' !in LineText(l)
  {
    EscapeIdentifierOneLine(l.measurement);
    TagsTextOneLine(l.tags);
    FieldTextOneLine(l);
    ConcatOneLine(TagsText(l.tags), FieldText(l));
    ConcatOneLine(EscapeIdentifier(l.measurement), TagsText(l.tags) + FieldText(l));
  }

  lemma FieldTextOneLine(l: Line)
    requires OneLine(l)
    ensures '\n' !in FieldText(l)
  {
    EscapeIdentifierOneLine(l.field);
    var f, v, t := EscapeIdentifier(l.field), ValueText(l.value), TimestampText(l.timestamp);
    ValueTextOneLine(l.value);
    TimestampTextOneLine(l.timestamp);
    ConcatOneLine(v, t);
    ConcatOneLine("=", v + t);
    ConcatOneLine(f, "=" + (v + t));
    ConcatOneLine(" ", f + ("=" + (v + t)));
  }

  lemma ValueTextOneLine(v: FieldValue)
    requires v.isString || '\n' !in v.value
    ensures '\n' !in ValueText(v)
  {
    EscapeStringOneLine(WithoutBlanks(v.value));
  }

  lemma TimestampTextOneLine(t: Option<int>)
    ensures '\n' !in TimestampText(t)
  {
    if t.Some? { ParsePrintInt(t.value); }
  }

  function LineTexts(lines: seq<Line>): (r: seq<string>)
    ensures |r| == |lines| && forall i :: 0 <= i < |r| ==> r[i] == LineText(lines[i])
  {
    if lines == [] then [] else [LineText(lines[0])] + LineTexts(lines[1..])
  }

  /** Splitting a payload at its newlines and reading each line gives the batch back, in order. */
  lemma PayloadRoundTrip(lines: seq<Line>)
    requires lines != []
    requires forall i :: 0 <= i < |lines| ==> OneLine(lines[i]) && BareValue(lines[i].value) && Readable(lines[i])
    ensures var texts := Split(Join(LineTexts(lines)));
      |texts| == |lines| &&
      forall i :: 0 <= i < |lines| ==> ReadLine(texts[i]) == Some(Normal(lines[i]))
  {
    forall i | 0 <= i < |lines| ensures '\n' !in LineTexts(lines)[i] { LineTextOneLine(lines[i]); }
    SplitJoin(LineTexts(lines));
    forall i | 0 <= i < |lines| ensures ReadLine(LineTexts(lines)[i]) == Some(Normal(lines[i])) {
      LineRoundTrip(lines[i]);
    }
  }
}
