/** Cells of a line of comma-separated values, as in section 2 of RFC 4180. */
module Csv {

  /** The cells from s on: `current` was already read of the first one. */
  function CellsFrom(s: string, current: string, inQuotes: bool): (cells: seq<string>)
    decreases |s|
  {
    if s == "" then [current]
    else if s[0] == '"' then
      if inQuotes && |s| > 1 && s[1] == '"' then CellsFrom(s[2..], current + "\"", inQuotes)
      else CellsFrom(s[1..], current, !inQuotes)
    else if s[0] == ',' && !inQuotes then [current] + CellsFrom(s[1..], "", inQuotes)
    else CellsFrom(s[1..], current + [s[0]], inQuotes)
  }

  method ParseCsvLine(line: string) returns (cells: seq<string>)
    ensures cells == CellsFrom(line, "", false)
  {
    cells := [];
    var current, inQuotes, i := "", false, 0;
    while i < |line|
      invariant 0 <= i <= |line|
      invariant cells + CellsFrom(line[i..], current, inQuotes) == CellsFrom(line, "", false)
    {
      var c := line[i];
      ghost var rest := line[i..];
      assert rest[0] == c && rest[1..] == line[i + 1..];
      if c == '"' {
        if inQuotes && i + 1 < |line| && line[i + 1] == '"' {
          assert rest[2..] == line[i + 2..];
          current := current + "\"";
          i := i + 1;
        } else {
          inQuotes := !inQuotes;
        }
      } else if c == ',' && !inQuotes {
        cells := cells + [current];
        current := "";
      } else {
        current := current + [c];
      }
      i := i + 1;
    }
    cells := cells + [current];
  }

  // ---------------------------------------------------------------- writing

  function Doubled(cell: string): string {
    if cell == "" then "" else (if cell[0] == '"' then "\"\"" else [cell[0]]) + Doubled(cell[1..])
  }

  /** A cell with its own choice whether to enclose it in double quotes. */
  datatype Field = Field(cell: string, enclosed: bool)

  predicate Plain(c: char) { c != '"' && c != ',' && c != '\r' && c != '\n' }

  /** Fields with quotes, commas or line breaks must be enclosed; all others may be. */
  ghost predicate Legal(f: Field) {
    f.enclosed || forall i :: 0 <= i < |f.cell| ==> Plain(f.cell[i])
  }

  function FieldText(f: Field): string { if f.enclosed then "\"" + (Doubled(f.cell) + "\"") else f.cell }

  function LineText(fields: seq<Field>): string
    requires fields != []
  {
    if |fields| == 1 then FieldText(fields[0]) else FieldText(fields[0]) + ("," + LineText(fields[1..]))
  }

  function CellsOf(fields: seq<Field>): seq<string> {
    if fields == [] then [] else [fields[0].cell] + CellsOf(fields[1..])
  }

  // ---------------------------------------------------------------- round trip

  /** Inside quotes, doubled quotes are read as single ones and the closing quote ends the enclosed part. */
  lemma {:induction false} ReadDoubled(cell: string, rest: string, current: string)
    requires rest == "" || rest[0] == ','
    ensures CellsFrom(Doubled(cell) + ("\"" + rest), current, true) == CellsFrom(rest, current + cell, false)
    decreases |cell|
  {
    var tail := "\"" + rest;
    if cell == "" {
      assert Doubled(cell) + tail == tail && tail[1..] == rest;
      assert current + cell == current;
    } else {
      var next := Doubled(cell[1..]) + tail;
      ReadDoubled(cell[1..], rest, current + [cell[0]]);
      assert (current + [cell[0]]) + cell[1..] == current + cell;
      if cell[0] == '"' {
        assert Doubled(cell) + tail == "\"\"" + next;
        ReadPair(next, current);
      } else {
        assert Doubled(cell) + tail == [cell[0]] + next;
        ReadOther(cell[0], next, current);
      }
    }
  }

  lemma ReadPair(next: string, current: string)
    ensures CellsFrom("\"\"" + next, current, true) == CellsFrom(next, current + "\"", true)
  {
    assert ("\"\"" + next)[2..] == next;
  }

  lemma ReadOther(c: char, next: string, current: string)
    requires c != '"'
    ensures CellsFrom([c] + next, current, true) == CellsFrom(next, current + [c], true)
  {
    assert ([c] + next)[1..] == next;
  }

  lemma {:induction false} ReadPlain(cell: string, rest: string, current: string)
    requires forall i :: 0 <= i < |cell| ==> cell[i] != '"' && cell[i] != ','
    ensures CellsFrom(cell + rest, current, false) == CellsFrom(rest, current + cell, false)
    decreases |cell|
  {
    if cell == "" {
      assert cell + rest == rest && current + cell == current;
    } else {
      ReadPlain(cell[1..], rest, current + [cell[0]]);
      assert (cell + rest)[1..] == cell[1..] + rest;
      assert (current + [cell[0]]) + cell[1..] == current + cell;
    }
  }

  lemma ReadField(f: Field, rest: string)
    requires Legal(f) && (rest == "" || rest[0] == ',')
    ensures CellsFrom(FieldText(f) + rest, "", false) == CellsFrom(rest, f.cell, false)
  {
    assert "" + f.cell == f.cell;
    if f.enclosed {
      var inner := Doubled(f.cell) + ("\"" + rest);
      assert FieldText(f) + rest == "\"" + inner;
      assert ("\"" + inner)[1..] == inner;
      ReadDoubled(f.cell, rest, "");
    } else {
      ReadPlain(f.cell, rest, "");
    }
  }

  /** Reading undoes writing, for every list of cells that is not empty and every legal choice of quotes. */
  lemma {:induction false} RoundTrip(fields: seq<Field>)
    requires fields != [] && forall i :: 0 <= i < |fields| ==> Legal(fields[i])
    ensures CellsFrom(LineText(fields), "", false) == CellsOf(fields)
    decreases |fields|
  {
    var f := fields[0];
    if |fields| == 1 {
      assert FieldText(f) + "" == FieldText(f);
      ReadField(f, "");
      assert CellsOf(fields[1..]) == [];
    } else {
      var rest := "," + LineText(fields[1..]);
      ReadField(f, rest);
      assert rest[1..] == LineText(fields[1..]);
      RoundTrip(fields[1..]);
    }
  }

  // ---------------------------------------------------------------- any line

  /** Double quotes among the first n characters. */
  function Quotes(line: string, n: nat): nat
    requires n <= |line|
  {
    if n == 0 then 0 else Quotes(line, n - 1) + (if line[n - 1] == '"' then 1 else 0)
  }

  /** Commas among the first n characters that follow an even number of double quotes. */
  function OutsideCommas(line: string, n: nat): nat
    requires n <= |line|
  {
    if n == 0 then 0
    else OutsideCommas(line, n - 1) + (if line[n - 1] == ',' && Quotes(line, n - 1) % 2 == 0 then 1 else 0)
  }

  lemma {:induction false} CellCountFrom(line: string, n: nat, current: string, inQuotes: bool)
    requires n <= |line| && inQuotes == (Quotes(line, n) % 2 == 1)
    ensures |CellsFrom(line[n..], current, inQuotes)| + OutsideCommas(line, n) == 1 + OutsideCommas(line, |line|)
    decreases |line| - n
  {
    var s := line[n..];
    if n < |line| {
      var c := line[n];
      assert s[0] == c && s[1..] == line[n + 1..];
      if c == '"' {
        if inQuotes && n + 1 < |line| && line[n + 1] == '"' {
          assert s[2..] == line[n + 2..];
          CellCountFrom(line, n + 2, current + "\"", inQuotes);
        } else {
          CellCountFrom(line, n + 1, current, !inQuotes);
        }
      } else if c == ',' && !inQuotes {
        CellCountFrom(line, n + 1, "", inQuotes);
      } else {
        CellCountFrom(line, n + 1, current + [c], inQuotes);
      }
    }
  }

  /** On any line at all, every comma outside quotes ends a cell, and nothing else does. */
  lemma CellCount(line: string)
    ensures |CellsFrom(line, "", false)| == 1 + OutsideCommas(line, |line|)
  {
    CellCountFrom(line, 0, "", false);
    assert line[0..] == line;
  }

  /** What the character at a place means by itself: nothing, the end of a cell, or a character of one. */
  datatype Mark = End | Char(c: char)

  function MarkAt(line: string, n: nat): seq<Mark>
    requires n < |line|
  {
    var outside := Quotes(line, n) % 2 == 0;
    if line[n] == '"' then (if outside && n > 0 && line[n - 1] == '"' then [Char('"')] else [])
    else if line[n] == ',' && outside then [End]
    else [Char(line[n])]
  }

  function MarksFrom(line: string, n: nat): seq<Mark>
    requires n <= |line|
    decreases |line| - n
  {
    if n == |line| then [] else MarkAt(line, n) + MarksFrom(line, n + 1)
  }

  function Chars(cell: string): seq<Mark> {
    if cell == "" then [] else Chars(cell[..|cell| - 1]) + [Char(cell[|cell| - 1])]
  }

  /** The cells with their ends, but for the last one. */
  function Marks(cells: seq<string>): seq<Mark> {
    if cells == [] then [] else if |cells| == 1 then Chars(cells[0]) else Chars(cells[0]) + ([End] + Marks(cells[1..]))
  }

  lemma MarksOfCell(current: string, c: char)
    ensures Chars(current + [c]) == Chars(current) + [Char(c)]
  {
    assert (current + [c])[..|current|] == current;
  }

  lemma MarksOfCells(cell: string, cells: seq<string>)
    requires cells != []
    ensures Marks([cell] + cells) == Chars(cell) + ([End] + Marks(cells))
  {
    assert ([cell] + cells)[1..] == cells;
  }

  /** One step of reading, from place n on. */
  lemma ReadStep(line: string, n: nat, current: string, inQuotes: bool)
    requires n < |line|
    ensures CellsFrom(line[n..], current, inQuotes) ==
            if line[n] == '"' then
              if inQuotes && n + 1 < |line| && line[n + 1] == '"'
              then CellsFrom(line[n + 2..], current + "\"", inQuotes)
              else CellsFrom(line[n + 1..], current, !inQuotes)
            else if line[n] == ',' && !inQuotes then [current] + CellsFrom(line[n + 1..], "", inQuotes)
            else CellsFrom(line[n + 1..], current + [line[n]], inQuotes)
  {
    var s := line[n..];
    assert s[0] == line[n] && s[1..] == line[n + 1..];
    if n + 1 < |line| { assert s[1] == line[n + 1] && s[2..] == line[n + 2..]; }
  }

  /** Two quotes in a row inside quotes mean one. */
  lemma DoubledMarks(line: string, n: nat)
    requires n + 1 < |line| && line[n] == '"' && line[n + 1] == '"' && Quotes(line, n) % 2 == 1
    ensures Quotes(line, n + 2) % 2 == 1 && MarksFrom(line, n) == [Char('"')] + MarksFrom(line, n + 2)
  {
    assert Quotes(line, n + 1) == Quotes(line, n) + 1;
    assert MarksFrom(line, n) == [] + MarksFrom(line, n + 1);
  }

  // Outside quotes the next character is never a quote right after another one: that one would have been doubled.
  ghost predicate Apart(line: string, n: nat, inQuotes: bool) {
    0 < n < |line| && line[n - 1] == '"' && line[n] == '"' ==> inQuotes
  }

  lemma SingleMarks(line: string, n: nat, inQuotes: bool)
    requires n < |line| && inQuotes == (Quotes(line, n) % 2 == 1) && Apart(line, n, inQuotes)
    ensures (if line[n] == '"' then !inQuotes else inQuotes) == (Quotes(line, n + 1) % 2 == 1)
    ensures MarksFrom(line, n) ==
            (if line[n] == '"' then [] else if line[n] == ',' && !inQuotes then [End] else [Char(line[n])]) +
            MarksFrom(line, n + 1)
  {
  }

  lemma {:induction false} MarksOfRest(line: string, n: nat, current: string, inQuotes: bool)
    requires n <= |line| && inQuotes == (Quotes(line, n) % 2 == 1) && Apart(line, n, inQuotes)
    ensures var cells := CellsFrom(line[n..], current, inQuotes);
      cells != [] && Marks(cells) == Chars(current) + MarksFrom(line, n)
    decreases |line| - n
  {
    hide Chars, Marks, Quotes, CellsFrom, MarksFrom;
    if n == |line| {
      NothingLeft(line, current, inQuotes);
    } else {
      var c := line[n];
      ReadStep(line, n, current, inQuotes);
      if c == '"' && inQuotes && n + 1 < |line| && line[n + 1] == '"' {
        DoubledMarks(line, n);
        MarksOfRest(line, n + 2, current + "\"", inQuotes);
        MarksOfCell(current, '"');
        MarksJoin(Chars(current), Char('"'), MarksFrom(line, n + 2));
      } else {
        SingleMarks(line, n, inQuotes);
        if c == '"' {
          MarksOfRest(line, n + 1, current, !inQuotes);
          assert [] + MarksFrom(line, n + 1) == MarksFrom(line, n + 1);
        } else if c == ',' && !inQuotes {
          MarksOfRest(line, n + 1, "", inQuotes);
          MarksOfCells(current, CellsFrom(line[n + 1..], "", inQuotes));
          NoChars();
          assert [] + MarksFrom(line, n + 1) == MarksFrom(line, n + 1);
        } else {
          MarksOfRest(line, n + 1, current + [c], inQuotes);
          MarksOfCell(current, c);
          MarksJoin(Chars(current), Char(c), MarksFrom(line, n + 1));
        }
      }
    }
  }

  lemma NothingLeft(line: string, current: string, inQuotes: bool)
    ensures CellsFrom(line[|line|..], current, inQuotes) == [current]
    ensures Marks([current]) == Chars(current) + MarksFrom(line, |line|)
  {
    assert Chars(current) + [] == Chars(current);
  }

  lemma MarksJoin(a: seq<Mark>, m: Mark, b: seq<Mark>)
    ensures (a + [m]) + b == a + ([m] + b)
  {
  }

  lemma NoChars()
    ensures Chars("") == []
  {
  }

  /**
   * On any line at all, the cells hold exactly these characters: all but the quotes and the commas outside quotes,
   * and of two quotes in a row that end and resume an enclosed part, one.
   */
  lemma CellsHold(line: string)
    ensures Marks(CellsFrom(line, "", false)) == MarksFrom(line, 0)
  {
    MarksOfRest(line, 0, "", false);
    NoChars();
    assert line[0..] == line && [] + MarksFrom(line, 0) == MarksFrom(line, 0);
  }
}
