/** The CSV printer of the billing export against the line parser of the engagement import. */
module Csv {
  import opened Options
  import opened Sequences

  /** str.replace(/"/g, '""') */
  function Double(s: string): string {
    if s == "" then "" else (if s[0] == '"' then "\"\"" else [s[0]]) + Double(s[1..])
  }

  /** Each quote becomes two, and nothing else changes. */
  lemma {:induction false} DoubleOfParts(s: string, t: string)
    ensures Double(s + t) == Double(s) + Double(t)
    ensures Double("") == "" && Double("\"") == "\"\"" && (|s| == 1 && s[0] != '"' ==> Double(s) == s)
  {
    if s == "" {
      assert s + t == t;
    } else {
      var head := if s[0] == '"' then "\"\"" else [s[0]];
      assert (s + t)[1..] == s[1..] + t;
      DoubleOfParts(s[1..], t);
      Assoc(head, Double(s[1..]), Double(t));
    }
  }

  function Text(cell: Option<string>): string { if cell.Some? then cell.value else "" }

  predicate NeedsQuotes(s: string) { ',' in s || '"' in s || '\n' in s }

  function CsvCell(cell: Option<string>): string {
    var s := Text(cell);
    if NeedsQuotes(s) then "\"" + Double(s) + "\"" else s
  }

  /** cells.map(csvCell).join(',') */
  function BuildCsvRow(cells: seq<Option<string>>): string {
    if cells == [] then ""
    else if |cells| == 1 then CsvCell(cells[0])
    else CsvCell(cells[0]) + "," + BuildCsvRow(cells[1..])
  }

  /** A missing cell is empty; any other is quoted, its quotes doubled, exactly when it holds one of the three. */
  lemma QuotedIffNeeded(cell: Option<string>)
    ensures cell.None? ==> CsvCell(cell) == ""
    ensures cell.Some? ==> var s := cell.value;
      (CsvCell(cell) == s <==> ',' !in s && '"' !in s && '\n' !in s)
      && (CsvCell(cell) != s ==> CsvCell(cell) == "\"" + Double(s) + "\"")
  {
    if cell.Some? { DoubleIsLonger(cell.value); }
  }

  lemma {:induction false} DoubleIsLonger(s: string)
    ensures |Double(s)| >= |s|
  {
    if s != "" { DoubleIsLonger(s[1..]); }
  }

  function Texts(cells: seq<Option<string>>): (r: seq<string>)
    ensures |r| == |cells|
    ensures forall i | 0 <= i < |cells| :: r[i] == if cells[i].Some? then cells[i].value else ""
  {
    if cells == [] then [] else [Text(cells[0])] + Texts(cells[1..])
  }

  /** The fields of `line`, given the field read so far and whether a quote is open. */
  function Fields(line: string, current: string, inQuotes: bool): (r: seq<string>)
    ensures |r| >= 1
    decreases |line|
  {
    if line == "" then [current]
    else if line[0] == '"' then
      if inQuotes && |line| > 1 && line[1] == '"' then Fields(line[2..], current + "\"", inQuotes)
      else Fields(line[1..], current, !inQuotes)
    else if line[0] == ',' && !inQuotes then [current] + Fields(line[1..], "", inQuotes)
    else Fields(line[1..], current + [line[0]], inQuotes)
  }

  method ParseCsvLine(line: string) returns (result: seq<string>)
    ensures result == Fields(line, "", false)
  {
    result := [];
    var current, inQuotes, i := "", false, 0;
    while i < |line|
      invariant 0 <= i <= |line|
      invariant result + Fields(line[i..], current, inQuotes) == Fields(line, "", false)
    {
      var ch := line[i];
      ghost var rest := line[i..];
      assert rest[1..] == line[i + 1..];
      if ch == '"' {
        if inQuotes && i + 1 < |line| && line[i + 1] == '"' {
          assert rest[2..] == line[i + 2..];
          current := current + "\"";
          i := i + 1;
        } else {
          inQuotes := !inQuotes;
        }
      } else if ch == ',' && !inQuotes {
        assert result + ([current] + Fields(rest[1..], "", false)) == result + [current] + Fields(rest[1..], "", false);
        result := result + [current];
        current := "";
      } else {
        current := current + [ch];
      }
      i := i + 1;
    }
    result := result + [current];
  }

  /** Outside quotes, a comma ends the field and whatever is neither comma nor quote belongs to it. */
  lemma {:induction false} PlainCell(s: string, rest: string, current: string)
    requires ',' !in s && '"' !in s
    ensures Fields(s + rest, current, false) == Fields(rest, current + s, false)
    ensures Fields("", current, false) == [current]
    ensures Fields("," + rest, current, false) == [current] + Fields(rest, "", false)
  {
    if s == "" {
      assert s + rest == rest && current + s == current;
    } else {
      assert (s + rest)[1..] == s[1..] + rest;
      PlainCell(s[1..], rest, current + [s[0]]);
      assert current + [s[0]] + s[1..] == current + s;
    }
  }

  /** Inside quotes, doubled quotes are undone and everything else is kept. */
  lemma {:induction false} QuotedCell(s: string, rest: string, current: string)
    requires rest == "" || rest[0] != '"'
    ensures Fields(Double(s) + "\"" + rest, current, true) == Fields(rest, current + s, false)
  {
    var line := Double(s) + "\"" + rest;
    if s == "" {
      assert line == "\"" + rest && line[1..] == rest && current + s == current;
    } else {
      var tail := Double(s[1..]) + "\"" + rest;
      QuotedCell(s[1..], rest, current + [s[0]]);
      assert current + [s[0]] + s[1..] == current + s;
      if s[0] == '"' {
        assert line == "\"\"" + tail && line[2..] == tail;
      } else {
        assert line == [s[0]] + tail && line[1..] == tail;
      }
    }
  }

  /** A quoted stretch, wherever in its field, adds the text between its quotes. */
  lemma QuotedStretch(s: string, rest: string, current: string)
    requires rest == "" || rest[0] != '"'
    ensures Fields(("\"" + Double(s) + "\"") + rest, current, false) == Fields(rest, current + s, false)
  {
    var line := ("\"" + Double(s) + "\"") + rest;
    var tail := Double(s) + "\"" + rest;
    assert line[0] == '"' && line[1..] == tail;
    QuotedCell(s, rest, current);
    assert Fields(line, current, false) == Fields(line[1..], current, true);
  }

  /** A quote that is never closed takes the rest of the line. */
  lemma {:induction false} UnclosedQuote(s: string, current: string)
    ensures Fields(Double(s), current, true) == [current + s]
    ensures Fields("\"" + Double(s), current, false) == [current + s]
    decreases |s|
  {
    var line := Double(s);
    assert ("\"" + line)[1..] == line;
    if s == "" {
      assert current + s == current;
    } else {
      UnclosedQuote(s[1..], current + [s[0]]);
      assert current + [s[0]] + s[1..] == current + s;
      if s[0] == '"' {
        assert line == "\"\"" + Double(s[1..]) && line[2..] == Double(s[1..]);
      } else {
        assert line == [s[0]] + Double(s[1..]) && line[1..] == Double(s[1..]);
      }
    }
  }

  lemma PrintedCell(cell: Option<string>, rest: string)
    requires rest == "" || rest[0] == ','
    ensures Fields(CsvCell(cell) + rest, "", false) == Fields(rest, Text(cell), false)
  {
    var s := Text(cell);
    if NeedsQuotes(s) {
      QuotedStretch(s, rest, "");
      assert "" + s == s;
    } else {
      PlainCell(s, rest, "");
      assert "" + s == s;
    }
  }

  lemma {:induction false} ParsePrinted(cells: seq<Option<string>>)
    requires cells != []
    ensures Fields(BuildCsvRow(cells), "", false) == Texts(cells)
    ensures var r := Fields(BuildCsvRow(cells), "", false);
      |r| == |cells| && forall i | 0 <= i < |cells| :: r[i] == if cells[i].Some? then cells[i].value else ""
  {
    if |cells| == 1 {
      assert CsvCell(cells[0]) + "" == CsvCell(cells[0]);
      PrintedCell(cells[0], "");
    } else {
      var rest := "," + BuildCsvRow(cells[1..]);
      assert BuildCsvRow(cells) == CsvCell(cells[0]) + rest;
      PrintedCell(cells[0], rest);
      assert rest[1..] == BuildCsvRow(cells[1..]);
      ParsePrinted(cells[1..]);
    }
  }

  /** Parsing a printed row gives the cells back, commas, quotes and newlines included, unless there are none. */
  lemma RoundTripIff(cells: seq<Option<string>>)
    ensures Fields(BuildCsvRow(cells), "", false) == Texts(cells) <==> cells != []
  {
    if cells != [] {
      ParsePrinted(cells);
    }
  }
}
