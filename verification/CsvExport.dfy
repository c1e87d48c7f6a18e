/** The CSV export of the audit log, and a reader that gets every cell back (RFC 4180 section 2, lines ended by LF). */
module CsvExport {
  import opened Wrappers

  const COLUMNS: nat := 10

  const HEADER := "id,createdAt,category,event,actorType,actorLabel,subjectType,subjectId,clientIp,metadata"

  predicate IsFormulaStart(c: char) {
    c in {'=', '+', '-', '@', '\t', '\r'}
  }

  /** A value a spreadsheet would take for a formula gets a quote in front. */
  function Neutralised(value: string): string {
    if value != "" && IsFormulaStart(value[0]) then "'" + value else value
  }

  function DoubleQuotes(s: string): string {
    if s == "" then "" else (if s[0] == '"' then "\"\"" else [s[0]]) + DoubleQuotes(s[1..])
  }

  function EscapeCsvCell(value: string): string {
    "\"" + DoubleQuotes(Neutralised(value)) + "\""
  }

  function Cells(row: seq<string>): (line: string) {
    if row == [] then ""
    else if |row| == 1 then EscapeCsvCell(row[0])
    else EscapeCsvCell(row[0]) + "," + Cells(row[1..])
  }

  function Lines(rows: seq<seq<string>>): string {
    if rows == [] then "" else "\n" + Cells(rows[0]) + Lines(rows[1..])
  }

  function JsonToCsv(rows: seq<seq<string>>): string {
    HEADER + Lines(rows)
  }

  // ---- the reader ----

  /** Inside a quoted cell: its text up to the closing quote, and what follows that quote. */
  function ReadQuoted(s: string): (r: Option<(string, string)>)
    ensures r.Some? ==> |r.value.1| < |s|
  {
    if s == "" then None
    else if s[0] != '"' then FirstChar(s[0], ReadQuoted(s[1..]))
    else if |s| >= 2 && s[1] == '"' then FirstChar('"', ReadQuoted(s[2..]))
    else Some(("", s[1..]))
  }

  function FirstChar(c: char, r: Option<(string, string)>): Option<(string, string)> {
    if r.Some? then Some(([c] + r.value.0, r.value.1)) else None
  }

  /** A line of quoted cells, and what follows it. */
  function ReadRow(s: string): (r: Option<(seq<string>, string)>)
    ensures r.Some? ==> |r.value.1| < |s|
    decreases |s|
  {
    if s == "" || s[0] != '"' || ReadQuoted(s[1..]).None? then None else
      var (cell, rest) := ReadQuoted(s[1..]).value;
      if rest == "" || rest[0] == '\n' then Some(([cell], rest))
      else if rest[0] != ',' || ReadRow(rest[1..]).None? then None
      else
        var (cells, after) := ReadRow(rest[1..]).value;
        Some(([cell] + cells, after))
  }

  function ReadRows(s: string): Option<seq<seq<string>>>
    decreases |s|
  {
    if s == "" then Some([])
    else if s[0] != '\n' || ReadRow(s[1..]).None? then None
    else
      var (row, rest) := ReadRow(s[1..]).value;
      if ReadRows(rest).None? then None else Some([row] + ReadRows(rest).value)
  }

  function ReadCsv(s: string): Option<seq<seq<string>>> {
    if HEADER <= s then ReadRows(s[|HEADER|..]) else None
  }

  function NeutralisedRow(row: seq<string>): (r: seq<string>)
    ensures |r| == |row| && forall k :: 0 <= k < |row| ==> r[k] == Neutralised(row[k])
  {
    seq(|row|, k requires 0 <= k < |row| => Neutralised(row[k]))
  }

  function NeutralisedRows(rows: seq<seq<string>>): (r: seq<seq<string>>)
    ensures |r| == |rows| && forall k :: 0 <= k < |rows| ==> r[k] == NeutralisedRow(rows[k])
  {
    seq(|rows|, k requires 0 <= k < |rows| => NeutralisedRow(rows[k]))
  }

  lemma {:induction false} ReadsQuotedBack(cell: string, rest: string)
    requires rest == "" || rest[0] != '"'
    ensures ReadQuoted(DoubleQuotes(cell) + "\"" + rest) == Some((cell, rest))
  {
    var s := DoubleQuotes(cell) + "\"" + rest;
    if cell == "" {
      assert s == "\"" + rest;
    } else {
      ReadsQuotedBack(cell[1..], rest);
      var tail := DoubleQuotes(cell[1..]) + "\"" + rest;
      assert [cell[0]] + cell[1..] == cell;
      if cell[0] == '"' {
        assert s == "\"\"" + tail && s[2..] == tail;
      } else {
        assert s == [cell[0]] + tail && s[1..] == tail;
      }
    }
  }

  lemma ReadsCellBack(value: string, rest: string)
    requires rest == "" || rest[0] != '"'
    ensures var s := EscapeCsvCell(value) + rest; s[0] == '"' && ReadQuoted(s[1..]) == Some((Neutralised(value), rest))
  {
    ReadsQuotedBack(Neutralised(value), rest);
    assert (EscapeCsvCell(value) + rest)[1..] == DoubleQuotes(Neutralised(value)) + "\"" + rest;
  }

  /** One cell in front of a line that reads back. */
  lemma CellBeforeRow(value: string, tail: string, cells: seq<string>, rest: string)
    requires ReadRow(tail) == Some((cells, rest))
    ensures ReadRow(EscapeCsvCell(value) + ("," + tail)) == Some(([Neutralised(value)] + cells, rest))
  {
    ReadsCellBack(value, "," + tail);
    assert ("," + tail)[1..] == tail;
  }

  lemma Regroup(cell: string, line: string, rest: string)
    ensures cell + "," + line + rest == cell + ("," + (line + rest))
  {
  }

  lemma FirstNeutralised(row: seq<string>)
    requires row != []
    ensures NeutralisedRow(row) == [Neutralised(row[0])] + NeutralisedRow(row[1..])
  {
  }

  lemma FirstCell(row: seq<string>, rest: string)
    requires |row| > 1
    ensures Cells(row) + rest == EscapeCsvCell(row[0]) + ("," + (Cells(row[1..]) + rest))
  {
    Regroup(EscapeCsvCell(row[0]), Cells(row[1..]), rest);
  }

  lemma LastCell(row: seq<string>)
    requires |row| == 1
    ensures Cells(row) == EscapeCsvCell(row[0]) && NeutralisedRow(row) == [Neutralised(row[0])]
  {
  }

  lemma OnlyCell(value: string, rest: string)
    requires rest == "" || rest[0] == '\n'
    ensures ReadRow(EscapeCsvCell(value) + rest) == Some(([Neutralised(value)], rest))
  {
    ReadsCellBack(value, rest);
  }

  lemma {:induction false} ReadsRowBack(row: seq<string>, rest: string)
    requires row != [] && (rest == "" || rest[0] == '\n')
    ensures ReadRow(Cells(row) + rest) == Some((NeutralisedRow(row), rest))
  {
    if |row| == 1 {
      LastCell(row);
      OnlyCell(row[0], rest);
    } else {
      ReadsRowBack(row[1..], rest);
      CellBeforeRow(row[0], Cells(row[1..]) + rest, NeutralisedRow(row[1..]), rest);
      FirstCell(row, rest);
      FirstNeutralised(row);
    }
  }

  lemma LineRead(line: string, row: seq<string>, rest: string)
    requires ReadRow(line + rest) == Some((row, rest)) && ReadRows(rest).Some?
    ensures ReadRows("\n" + line + rest) == Some([row] + ReadRows(rest).value)
  {
    assert ("\n" + line + rest)[1..] == line + rest;
  }

  lemma ReadsLineBack(row: seq<string>, rest: string)
    requires row != [] && (rest == "" || rest[0] == '\n') && ReadRows(rest).Some?
    ensures ReadRows("\n" + Cells(row) + rest) == Some([NeutralisedRow(row)] + ReadRows(rest).value)
  {
    ReadsRowBack(row, rest);
    LineRead(Cells(row), NeutralisedRow(row), rest);
  }

  lemma {:induction false} ReadsRowsBack(rows: seq<seq<string>>)
    requires forall k :: 0 <= k < |rows| ==> rows[k] != []
    ensures ReadRows(Lines(rows)) == Some(NeutralisedRows(rows))
  {
    if rows != [] {
      ReadsRowsBack(rows[1..]);
      ReadsLineBack(rows[0], Lines(rows[1..]));
      assert NeutralisedRows(rows) == [NeutralisedRow(rows[0])] + NeutralisedRows(rows[1..]);
    }
  }

  /** Whatever the cells hold (quotes, commas, line ends), the reader gets every one back as it was neutralised, row for row. */
  lemma ExportReadsBack(rows: seq<seq<string>>)
    requires forall k :: 0 <= k < |rows| ==> |rows[k]| == COLUMNS
    ensures ReadCsv(JsonToCsv(rows)) == Some(NeutralisedRows(rows))
  {
    ReadsRowsBack(rows);
    assert JsonToCsv(rows)[|HEADER|..] == Lines(rows);
  }

  /** No cell reads back as the start of a formula. */
  lemma NeverAFormula(value: string)
    ensures Neutralised(value) == "" || !IsFormulaStart(Neutralised(value)[0])
  {
  }

  /** Neutralising loses nothing but the difference between a formula and the same text already carrying the quote. */
  lemma NeutralisedCollision(a: string, b: string)
    ensures Neutralised(a) == Neutralised(b) <==>
            a == b || (a == "'" + b && b != "" && IsFormulaStart(b[0])) || (b == "'" + a && a != "" && IsFormulaStart(a[0]))
  {
    assert a != "" && IsFormulaStart(a[0]) ==> Neutralised(a)[1..] == a;
    assert b != "" && IsFormulaStart(b[0]) ==> Neutralised(b)[1..] == b;
  }
}
