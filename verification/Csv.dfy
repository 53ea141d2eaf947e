/**
  The CSV writer of src-tauri/src/data_export.rs against a reader for the grammar of
  section 2 of RFC 4180, with the separator as a parameter.
*/
module Csv {
  import opened Text

  const CRLF := "\r\n"
  const BOM := [0xEF as char, 0xBB as char, 0xBF as char]

  /** The separators a format can choose; the writer is right for every one of these. */
  predicate IsSeparator(sep: char) {
    sep != '"' && sep != '\r' && sep != '\n'
  }

  // ----------------------------------------------------------------- the writer

  /** The output the writer appends to. */
  class Sink {
    var bytes: string

    constructor ()
      ensures bytes == ""
    {
      bytes := "";
    }

    method WriteAll(b: string)
      modifies this
      ensures bytes == old(bytes) + b
    {
      bytes := bytes + b;
    }
  }

  predicate NeedsQuote(s: string, sep: char) {
    sep in s || '"' in s || '\n' in s || '\r' in s
  }

  function Field(s: string, sep: char): string {
    if NeedsQuote(s, sep) then ['"'] + Double(s, '"') + ['"'] else s
  }

  function Fields(cells: seq<string>, sep: char): string {
    if cells == [] then ""
    else if |cells| == 1 then Field(cells[0], sep)
    else Field(cells[0], sep) + [sep] + Fields(cells[1..], sep)
  }

  function Line(cells: seq<string>, sep: char): string {
    Fields(cells, sep) + CRLF
  }

  function Lines(table: seq<seq<string>>, sep: char): string {
    if table == [] then "" else Line(table[0], sep) + Lines(table[1..], sep)
  }

  /** Index of the first occurrence of a column name. */
  function Position(columns: seq<string>, name: string): (r: Option<nat>)
    ensures r.Some? ==> r.value < |columns| && columns[r.value] == name && name !in columns[..r.value]
    ensures r.None? <==> name !in columns
  {
    if columns == [] then None
    else if columns[0] == name then Some(0)
    else
      match Position(columns[1..], name)
      case Some(v) => Some(v + 1)
      case None => None
  }

  /** The cell written for a wanted column: the row's value under that name, or nothing. */
  function Cell(source: seq<string>, row: seq<string>, name: string): string {
    match Position(source, name)
    case Some(v) => if v < |row| then row[v] else ""
    case None => ""
  }

  function Cells(source: seq<string>, want: seq<string>, row: seq<string>): seq<string> {
    seq(|want|, i requires 0 <= i < |want| => Cell(source, row, want[i]))
  }

  method WriteField(out: Sink, s: string, sep: char)
    modifies out
    ensures out.bytes == old(out.bytes) + Field(s, sep)
  {
    if NeedsQuote(s, sep) {
      ghost var before := out.bytes;
      out.WriteAll(['"']);
      out.WriteAll(Double(s, '"'));
      out.WriteAll(['"']);
      AssocFour(before, ['"'], Double(s, '"'), ['"']);
    } else {
      out.WriteAll(s);
    }
  }

  /** One more cell at the end of a line. */
  lemma {:induction false} FieldsAppend(cells: seq<string>, cell: string, sep: char)
    ensures Fields(cells + [cell], sep)
         == if cells == [] then Field(cell, sep) else Fields(cells, sep) + ([sep] + Field(cell, sep))
  {
    if |cells| > 1 {
      FieldsAppend(cells[1..], cell, sep);
      assert (cells + [cell])[1..] == cells[1..] + [cell];
      Assoc(Field(cells[0], sep) + [sep], Fields(cells[1..], sep), [sep] + Field(cell, sep));
    } else if |cells| == 1 {
      assert (cells + [cell])[1..] == [cell];
      Assoc(Field(cells[0], sep), [sep], Field(cell, sep));
    } else {
      assert cells + [cell] == [cell];
    }
  }

  method WriteHeader(out: Sink, columns: seq<string>, sep: char)
    modifies out
    ensures out.bytes == old(out.bytes) + Line(columns, sep)
  {
    var first := true;
    ghost var before := out.bytes;
    assert columns[..0] == [];
    for k := 0 to |columns|
      invariant first <==> k == 0
      invariant out.bytes == before + Fields(columns[..k], sep)
    {
      ghost var sofar, ours := Fields(columns[..k], sep), Field(columns[k], sep);
      if !first {
        out.WriteAll([sep]);
      }
      first := false;
      WriteField(out, columns[k], sep);
      FieldsAppend(columns[..k], columns[k], sep);
      assert columns[..k + 1] == columns[..k] + [columns[k]];
      AssocFour(before, sofar, [sep], ours);
    }
    assert columns[..|columns|] == columns;
    out.WriteAll(CRLF);
    Assoc(before, Fields(columns, sep), CRLF);
  }

  method WriteRow(out: Sink, source: seq<string>, want: seq<string>, row: seq<string>, sep: char)
    modifies out
    ensures out.bytes == old(out.bytes) + Line(Cells(source, want, row), sep)
  {
    var first := true;
    ghost var before, cells := out.bytes, Cells(source, want, row);
    assert cells[..0] == [];
    for k := 0 to |want|
      invariant first <==> k == 0
      invariant out.bytes == before + Fields(cells[..k], sep)
    {
      var cell := Cell(source, row, want[k]);
      ghost var sofar, ours := Fields(cells[..k], sep), Field(cell, sep);
      if !first {
        out.WriteAll([sep]);
      }
      first := false;
      WriteField(out, cell, sep);
      FieldsAppend(cells[..k], cell, sep);
      assert cells[..k + 1] == cells[..k] + [cell];
      AssocFour(before, sofar, [sep], ours);
    }
    assert cells[..|cells|] == cells;
    out.WriteAll(CRLF);
    Assoc(before, Fields(cells, sep), CRLF);
  }

  // ----------------------------------------------------------------- the reader

  datatype Read<T> = Read(value: T, rest: string) | Malformed

  /** TEXTDATA: what an unquoted field may hold. */
  predicate IsTextData(c: char, sep: char) {
    c != sep && c != '"' && c != '\r' && c != '\n'
  }

  /** Behind the opening quote of an escaped field. */
  function ReadEscaped(s: string): (r: Read<string>)
    ensures r.Read? ==> |r.rest| < |s|
  {
    if s == "" then Malformed
    else if s[0] == '"' && |s| > 1 && s[1] == '"' then Prepend('"', ReadEscaped(s[2..]))
    else if s[0] == '"' then Read("", s[1..])
    else Prepend(s[0], ReadEscaped(s[1..]))
  }

  function Prepend(c: char, r: Read<string>): Read<string> {
    match r
    case Read(v, rest) => Read([c] + v, rest)
    case Malformed => Malformed
  }

  function ReadPlain(s: string, sep: char): (r: Read<string>)
    ensures r.Read? && |r.rest| <= |s|
  {
    if s == "" || !IsTextData(s[0], sep) then Read("", s)
    else Prepend(s[0], ReadPlain(s[1..], sep))
  }

  function ReadField(s: string, sep: char): (r: Read<string>)
    ensures r.Read? ==> |r.rest| <= |s|
  {
    if s != "" && s[0] == '"' then ReadEscaped(s[1..]) else ReadPlain(s, sep)
  }

  function ReadRecord(s: string, sep: char): (r: Read<seq<string>>)
    ensures r.Read? && s != "" ==> |r.rest| < |s|
    decreases |s|
  {
    var f := ReadField(s, sep);
    if f.Malformed? then Malformed
    else if f.rest == "" then Read([f.value], "")
    else if CRLF <= f.rest then Read([f.value], f.rest[2..])
    else if f.rest[0] == sep then
      var more := ReadRecord(f.rest[1..], sep);
      if more.Malformed? then Malformed else Read([f.value] + more.value, more.rest)
    else Malformed
  }

  function ReadTable(s: string, sep: char): Option<seq<seq<string>>>
    decreases |s|
  {
    if s == "" then Some([])
    else
      var r := ReadRecord(s, sep);
      if r.Malformed? then None
      else
        var more := ReadTable(r.rest, sep);
        if more.None? then None else Some([r.value] + more.value)
  }

  // ------------------------------------------------------------- the round trip

  lemma {:induction false} EscapedReads(s: string, x: string)
    requires x == "" || x[0] != '"'
    ensures ReadEscaped(Double(s, '"') + (['"'] + x)) == Read(s, x)
  {
    ghost var tail := ['"'] + x;
    if s == "" {
      assert Double(s, '"') + tail == tail;
      assert tail[1..] == x;
    } else {
      EscapedReads(s[1..], x);
      var head, more := if s[0] == '"' then ['"', '"'] else [s[0]], Double(s[1..], '"');
      Assoc(head, more, tail);
      assert (head + (more + tail))[|head|..] == more + tail;
      assert [s[0]] + s[1..] == s;
    }
  }

  lemma {:induction false} PlainReads(s: string, x: string, sep: char)
    requires !NeedsQuote(s, sep) && (x == "" || !IsTextData(x[0], sep))
    ensures ReadPlain(s + x, sep) == Read(s, x)
  {
    if s == "" {
      assert s + x == x;
    } else {
      assert s[0] in s && forall c :: c in s[1..] ==> c in s;
      PlainReads(s[1..], x, sep);
      assert (s + x)[1..] == s[1..] + x;
      assert [s[0]] + s[1..] == s;
    }
  }

  lemma FieldReads(s: string, x: string, sep: char)
    requires IsSeparator(sep) && x != "" && (x[0] == sep || x[0] == '\r')
    ensures ReadField(Field(s, sep) + x, sep) == Read(s, x)
  {
    if NeedsQuote(s, sep) {
      EscapedReads(s, x);
      AssocFour(['"'], Double(s, '"'), ['"'], x);
      DropPrefix(['"'], Double(s, '"') + (['"'] + x), 1);
    } else {
      if s != "" {
        assert s[0] in s;
      }
      PlainReads(s, x, sep);
    }
  }

  lemma {:induction false} EscapedIsLonger(t: string)
    ensures ReadEscaped(t).Read? ==> |ReadEscaped(t).value| + |ReadEscaped(t).rest| < |t|
  {
    if t != "" && t[0] == '"' && |t| > 1 && t[1] == '"' {
      EscapedIsLonger(t[2..]);
    } else if t != "" && t[0] != '"' {
      EscapedIsLonger(t[1..]);
    }
  }

  lemma {:induction false} PlainIsText(t: string, sep: char)
    ensures forall c :: c in ReadPlain(t, sep).value ==> IsTextData(c, sep)
  {
    if t != "" && IsTextData(t[0], sep) {
      PlainIsText(t[1..], sep);
    }
  }

  /** A value is written bare exactly when it reads back that way; only the others are quoted. */
  lemma BareIff(s: string, sep: char)
    requires IsSeparator(sep)
    ensures Field(s, sep) == s <==> ReadField(s + [sep], sep) == Read(s, [sep])
  {
    if NeedsQuote(s, sep) {
      assert |Field(s, sep)| > |s| by { DoubleLength(s); }
      var t := s + [sep];
      if s[0] == '"' {
        EscapedIsLonger(t[1..]);
      } else {
        PlainIsText(t, sep);
      }
    } else {
      FieldReads(s, [sep], sep);
    }
  }

  lemma {:induction false} DoubleLength(s: string)
    ensures |Double(s, '"')| >= |s|
  {
    if s != "" {
      DoubleLength(s[1..]);
    }
  }

  /** A record without columns is written as an empty line, which reads as one empty field. */
  function Shown(cells: seq<string>): seq<string> {
    if cells == [] then [""] else cells
  }

  lemma LastReads(cell: string, x: string, sep: char)
    requires IsSeparator(sep)
    ensures ReadRecord(Field(cell, sep) + (CRLF + x), sep) == Read([cell], x)
  {
    FieldReads(cell, CRLF + x, sep);
    assert (CRLF + x)[2..] == x;
  }

  lemma MoreReads(cell: string, more: string, sep: char)
    requires IsSeparator(sep) && ReadRecord(more, sep).Read?
    ensures var r := ReadRecord(more, sep);
            ReadRecord(Field(cell, sep) + ([sep] + more), sep) == Read([cell] + r.value, r.rest)
  {
    FieldReads(cell, [sep] + more, sep);
    assert ([sep] + more)[1..] == more;
  }

  lemma LineCons(cells: seq<string>, x: string, sep: char)
    ensures |cells| > 1 ==> Line(cells, sep) + x == Field(cells[0], sep) + ([sep] + (Line(cells[1..], sep) + x))
    ensures |cells| <= 1 ==> Line(cells, sep) + x == Field(Shown(cells)[0], sep) + (CRLF + x)
  {
    if |cells| > 1 {
      var more := Fields(cells[1..], sep);
      AssocFour(Field(cells[0], sep), [sep], more, CRLF);
      AssocFour(Field(cells[0], sep), [sep], more + CRLF, x);
    } else {
      Assoc(Fields(cells, sep), CRLF, x);
    }
  }

  lemma {:induction false} RecordReads(cells: seq<string>, x: string, sep: char)
    requires IsSeparator(sep)
    ensures ReadRecord(Line(cells, sep) + x, sep) == Read(Shown(cells), x)
    decreases |cells|
  {
    LineCons(cells, x, sep);
    if |cells| <= 1 {
      LastReads(Shown(cells)[0], x, sep);
      assert [Shown(cells)[0]] == Shown(cells);
    } else {
      var more := Line(cells[1..], sep) + x;
      RecordReads(cells[1..], x, sep);
      MoreReads(cells[0], more, sep);
      assert [cells[0]] + cells[1..] == cells;
    }
  }

  function ShownAll(table: seq<seq<string>>): (r: seq<seq<string>>)
    ensures |r| == |table| && forall i :: 0 <= i < |r| ==> r[i] == Shown(table[i])
  {
    if table == [] then [] else [Shown(table[0])] + ShownAll(table[1..])
  }

  /** Reading back what was written, for every table of strings and every separator. */
  lemma {:induction false} TableReads(table: seq<seq<string>>, sep: char)
    requires IsSeparator(sep)
    ensures ReadTable(Lines(table, sep), sep) == Some(ShownAll(table))
  {
    if table != [] {
      RecordReads(table[0], Lines(table[1..], sep), sep);
      TableReads(table[1..], sep);
    }
  }

  /** The round trip holds exactly for the tables whose every record has a column. */
  lemma {:induction false} CsvRoundTripIff(table: seq<seq<string>>, sep: char)
    requires IsSeparator(sep)
    ensures ReadTable(Lines(table, sep), sep) == Some(table) <==> (forall i :: 0 <= i < |table| ==> table[i] != [])
  {
    TableReads(table, sep);
    if forall i :: 0 <= i < |table| ==> table[i] != [] {
      assert ShownAll(table) == table;
    } else {
      var i :| 0 <= i < |table| && table[i] == [];
      assert ShownAll(table)[i] == [""];
    }
  }

  // ------------------------------------------------------------ the export file

  function AllCells(source: seq<string>, want: seq<string>, rows: seq<seq<string>>): (r: seq<seq<string>>)
    ensures |r| == |rows|
  {
    seq(|rows|, i requires 0 <= i < |rows| => Cells(source, want, rows[i]))
  }

  /** What the export of a table writes: byte order mark, header, one record per row. */
  function File(source: seq<string>, want: seq<string>, rows: seq<seq<string>>, sep: char): string {
    BOM + Lines([want] + AllCells(source, want, rows), sep)
  }

  lemma {:induction false} LinesAppend(table: seq<seq<string>>, line: seq<string>, sep: char)
    ensures Lines(table + [line], sep) == Lines(table, sep) + Line(line, sep)
  {
    if table == [] {
      assert table + [line] == [line];
    } else {
      LinesAppend(table[1..], line, sep);
      assert (table + [line])[1..] == table[1..] + [line];
      Assoc(Line(table[0], sep), Lines(table[1..], sep), Line(line, sep));
    }
  }

  method WriteFile(out: Sink, source: seq<string>, want: seq<string>, rows: seq<seq<string>>, sep: char)
    modifies out
    ensures out.bytes == old(out.bytes) + File(source, want, rows, sep)
  {
    ghost var before, all := out.bytes + BOM, [want] + AllCells(source, want, rows);
    out.WriteAll(BOM);
    WriteHeader(out, want, sep);
    assert all[..1] == [want] && Lines([want], sep) == Line(want, sep);
    for k := 0 to |rows|
      invariant out.bytes == before + Lines(all[..k + 1], sep)
    {
      ghost var line := Cells(source, want, rows[k]);
      WriteRow(out, source, want, rows[k], sep);
      LinesAppend(all[..k + 1], line, sep);
      assert all[..k + 2] == all[..k + 1] + [line];
      Assoc(before, Lines(all[..k + 1], sep), Line(line, sep));
    }
    assert all[..|rows| + 1] == all;
  }

  /** A row as a query returns it: one value a column, and a column that is asked for twice has one value. */
  predicate Uniform(names: seq<string>, row: seq<string>) {
    |row| == |names| && forall i, j :: 0 <= i < j < |names| && names[i] == names[j] ==> row[i] == row[j]
  }

  /** A batch that carries the wanted columns in any order gives each of them its own value. */
  lemma CellsMatch(source: seq<string>, want: seq<string>, row: seq<string>, i: nat, j: nat)
    requires Uniform(source, row) && i < |source| && j < |want| && source[i] == want[j]
    ensures Cells(source, want, row)[j] == row[i]
  {
    var p := Position(source, want[j]);
    assert source[i] in source;
    assert p.value == i || row[p.value] == row[i];
  }

  /** The whole file: behind the mark, its first record is the header and the rest are the rows. */
  lemma FileReads(want: seq<string>, rows: seq<seq<string>>, sep: char)
    requires IsSeparator(sep) && want != []
    requires forall i :: 0 <= i < |rows| ==> Uniform(want, rows[i])
    ensures var file := File(want, want, rows, sep);
            BOM <= file && ReadTable(file[3..], sep) == Some([want] + rows)
  {
    forall i | 0 <= i < |rows|
      ensures Cells(want, want, rows[i]) == rows[i]
    {
      forall j | 0 <= j < |want|
        ensures Cells(want, want, rows[i])[j] == rows[i][j]
      {
        CellsMatch(want, want, rows[i], j, j);
      }
    }
    assert AllCells(want, want, rows) == rows;
    CsvRoundTripIff([want] + rows, sep);
    assert File(want, want, rows, sep)[3..] == Lines([want] + rows, sep);
  }
}
