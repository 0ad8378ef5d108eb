/** Quoted values: a backslash escapes the characters that would end or break a literal. */
module Escaping {
  import opened InfluxTypes

  /** Tabs are escaped in JSON and Flux, but not in the line protocol. */
  predicate NeedsEscape(c: char, tabs: bool) {
    c == '\\' || c == '"' || c == '\n' || c == '\r' || (tabs && c == '\t')
  }

  function EscapeLetter(c: char): char {
    if c == '\n' then 'n' else if c == '\r' then 'r' else if c == '\t' then 't' else c
  }

  function UnescapeLetter(c: char, tabs: bool): char {
    if c == 'n' then '\n' else if c == 'r' then '\r' else if tabs && c == 't' then '\t' else c
  }

  function EscapeChar(c: char, tabs: bool): (r: string)
    ensures 1 <= |r| <= 2
  {
    if NeedsEscape(c, tabs) then ['\\', EscapeLetter(c)] else [c]
  }

  function EscapeString(s: string, tabs: bool): string {
    if s == "" then "" else EscapeChar(s[0], tabs) + EscapeString(s[1..], tabs)
  }

  lemma Assoc(a: string, b: string, c: string)
    ensures (a + b) + c == a + (b + c)
  {
  }

  lemma {:induction false} EscapeStringAppend(s: string, c: char, tabs: bool)
    ensures EscapeString(s + [c], tabs) == EscapeString(s, tabs) + EscapeChar(c, tabs)
  {
    if s == "" {
      assert s + [c] == [c] && [c][1..] == "";
    } else {
      EscapeStringAppend(s[1..], c, tabs);
      assert (s + [c])[1..] == s[1..] + [c];
      Assoc(EscapeChar(s[0], tabs), EscapeString(s[1..], tabs), EscapeChar(c, tabs));
    }
  }

  /** Reads after the opening quote up to the first quote that no backslash protects. */
  function ReadString(s: string, tabs: bool): (r: Option<(string, string)>)
    ensures r.Some? ==> |r.value.1| < |s|
  {
    if s == "" then None
    else if s[0] == '"' then Some(("", s[1..]))
    else if s[0] == '\\' && |s| >= 2 then Prepend(UnescapeLetter(s[1], tabs), ReadString(s[2..], tabs))
    else Prepend(s[0], ReadString(s[1..], tabs))
  }

  function Prepend(c: char, r: Option<(string, string)>): Option<(string, string)> {
    if r.None? then None else Some(([c] + r.value.0, r.value.1))
  }

  /** An escaped value of any characters is read back, up to its closing quote. */
  lemma {:induction false} ReadStringEscaped(v: string, rest: string, tabs: bool)
    ensures ReadString(EscapeString(v, tabs) + ("\"" + rest), tabs) == Some((v, rest))
  {
    var s := EscapeString(v, tabs) + ("\"" + rest);
    if v == "" {
      assert s == "\"" + rest && s[1..] == rest;
    } else {
      var tail := EscapeString(v[1..], tabs) + ("\"" + rest);
      ReadStringEscaped(v[1..], rest, tabs);
      Assoc(EscapeChar(v[0], tabs), EscapeString(v[1..], tabs), "\"" + rest);
      assert s == EscapeChar(v[0], tabs) + tail;
      if NeedsEscape(v[0], tabs) {
        assert s[0] == '\\' && s[1] == EscapeLetter(v[0]) && s[2..] == tail;
      } else {
        assert s[0] == v[0] && s[1..] == tail;
      }
      assert [v[0]] + v[1..] == v;
    }
  }
}
