/**
  Reading a dumped INSERT the way the target server does, with no regard to how it was
  written: names, columns, rows, values. What `write_batch` (src-tauri/src/sql_dump.rs)
  writes for a batch is read as that batch.
*/
module InsertReading {
  import opened Text
  import opened Splitter
  import opened ChunkIndependence
  import opened Framing
  import opened DumpWriter
  import opened TupleReading
  import Packing

  // -------------------------------------------------------------------- the reader

  datatype Inserted = Inserted(schema: string, table: string, columns: Option<seq<string>>, rows: seq<seq<Datum>>)

  /** A quoted name, from just past its opening quote: only a doubled quote is special. */
  function ReadIdent(s: string, q: char): Option<(string, string)> {
    if s == "" then None
    else if s[0] == q then
      if |s| > 1 && s[1] == q then Prepend([q], ReadIdent(s[2..], q)) else Some(("", s[1..]))
    else Prepend([s[0]], ReadIdent(s[1..], q))
  }

  function ReadName(s: string, q: char): Option<(string, string)> {
    if s != "" && s[0] == q then ReadIdent(s[1..], q) else None
  }

  /** Names up to the closing parenthesis. */
  function ReadNames(s: string, q: char): Option<(seq<string>, string)>
    decreases |s|
  {
    if s != "" && s[0] == ')' then Some(([], s[1..]))
    else
      match ReadName(s, q)
      case None => None
      case Some((name, rest)) =>
        if |rest| >= |s| || rest == "" then None
        else if rest[0] == ')' then Some(([name], rest[1..]))
        else if ", " <= rest then
          match ReadNames(rest[2..], q)
          case Some((more, end)) => Some(([name] + more, end))
          case None => None
        else None
  }

  /** Rows up to the end of the statement. */
  function ReadRows(s: string, pg: bool): Option<seq<seq<Datum>>>
    decreases |s|
  {
    if !("  (" <= s) then None
    else
      match ReadData(s[3..], pg)
      case None => None
      case Some((row, rest)) =>
        if rest == "" then Some([row])
        else if ",\n" <= rest && |rest| < |s| then
          match ReadRows(rest[2..], pg)
          case Some(more) => Some([row] + more)
          case None => None
        else None
  }

  function ReadColumns(s: string, q: char): Option<(Option<seq<string>>, string)> {
    if !(" (" <= s) then Some((None, s))
    else
      match ReadNames(s[2..], q)
      case Some((names, rest)) => Some((Some(names), rest))
      case None => None
  }

  const OVERRIDING := " OVERRIDING SYSTEM VALUE"

  function ReadBody(s: string, pg: bool): Option<seq<seq<Datum>>> {
    var t := if OVERRIDING <= s then s[|OVERRIDING|..] else s;
    if " VALUES\n" <= t then ReadRows(t[8..], pg) else None
  }

  function ReadInsert(s: string, q: char, pg: bool): Option<Inserted> {
    if !("INSERT INTO " <= s) then None
    else
      match ReadName(s[12..], q)
      case None => None
      case Some((schema, afterSchema)) =>
        if !("." <= afterSchema) then None
        else
          match ReadName(afterSchema[1..], q)
          case None => None
          case Some((table, afterTable)) =>
            match ReadColumns(afterTable, q)
            case None => None
            case Some((columns, body)) =>
              match ReadBody(body, pg)
              case None => None
              case Some(rows) => Some(Inserted(schema, table, columns, rows))
  }

  // ------------------------------------------------------------------------ names

  lemma IdentTurn(c: char, q: char, tail: string)
    ensures c != q ==> ReadIdent([c] + tail, q) == Prepend([c], ReadIdent(tail, q))
    ensures ReadIdent([q, q] + tail, q) == Prepend([q], ReadIdent(tail, q))
    ensures tail == "" || tail[0] != q ==> ReadIdent([q] + tail, q) == Some(("", tail))
  {
    assert ([c] + tail)[1..] == tail && ([q, q] + tail)[2..] == tail && ([q] + tail)[1..] == tail;
  }

  lemma {:induction false} DoubledReads(name: string, q: char, x: string)
    requires x == "" || x[0] != q
    ensures ReadIdent(Double(name, q) + ([q] + x), q) == Some((name, x))
    decreases |name|
  {
    hide ReadIdent;
    var tail := [q] + x;
    if name == "" {
      IdentTurn(q, q, x);
      assert "" + tail == tail;
    } else {
      var c, more := name[0], Double(name[1..], q) + tail;
      DoubledReads(name[1..], q, x);
      IdentTurn(c, q, more);
      assert Double(name, q) + tail == (if c == q then [q, q] else [c]) + more;
      assert [c] + name[1..] == name;
    }
  }

  /** Every name is read back, whatever it is made of. */
  lemma NameReads(name: string, q: char, x: string)
    requires x == "" || x[0] != q
    ensures ReadName(Ident(name, q) + x, q) == Some((name, x))
  {
    hide ReadIdent, Double;
    DoubledReads(name, q, x);
    var t := Ident(name, q) + x;
    assert t[0] == q && t[1..] == Double(name, q) + ([q] + x);
  }

  lemma IdentsCons(names: seq<string>, q: char, x: string)
    requires names != []
    ensures Join(Idents(names, q), ", ") + (")" + x)
         == Ident(names[0], q) + if |names| == 1 then ")" + x
                                 else ", " + (Join(Idents(names[1..], q), ", ") + (")" + x))
  {
    hide Ident;
    assert Idents(names, q)[1..] == Idents(names[1..], q);
    AssocFour(Ident(names[0], q), ", ", Join(Idents(names[1..], q), ", "), ")" + x);
  }

  lemma NamesTurn(name: string, q: char, y: string)
    requires y != "" && y[0] != q && q != ')'
    ensures y[0] == ')' ==> ReadNames(Ident(name, q) + y, q) == Some(([name], y[1..]))
    ensures ", " <= y ==>
              ReadNames(Ident(name, q) + y, q) == match ReadNames(y[2..], q)
                                                  case Some((more, end)) => Some(([name] + more, end))
                                                  case None => None
  {
    NameReads(name, q, y);
    assert (Ident(name, q) + y)[0] == q;
    hide ReadName, Ident;
  }

  lemma {:induction false} NamesRead(names: seq<string>, q: char, x: string)
    requires IsQuote(q)
    ensures ReadNames(Join(Idents(names, q), ", ") + (")" + x), q) == Some((names, x))
    decreases |names|
  {
    var tail := ")" + x;
    assert tail[0] == ')' && tail[1..] == x;
    if names == [] {
      assert Join(Idents(names, q), ", ") + tail == tail;
    } else {
      hide ReadNames, Ident, Idents, Join;
      var more := Join(Idents(names[1..], q), ", ") + tail;
      IdentsCons(names, q, x);
      if |names| == 1 {
        NamesTurn(names[0], q, tail);
        assert names == [names[0]];
      } else {
        assert (", " + more)[2..] == more && (", " + more)[0] == ',';
        NamesTurn(names[0], q, ", " + more);
        NamesRead(names[1..], q, x);
        assert [names[0]] + names[1..] == names;
      }
    }
  }

  // ------------------------------------------------------------------------- rows

  function RowSqls(rows: seq<seq<Value>>, style: Style): (r: seq<string>)
    ensures |r| == |rows| && forall i :: 0 <= i < |rows| ==> r[i] == RowSql(rows[i], style)
  {
    seq(|rows|, i requires 0 <= i < |rows| => RowSql(rows[i], style))
  }

  /** The data rows are read as; `None` if one of them is not read. */
  function RowsData(rows: seq<seq<Value>>, style: Style): Option<seq<seq<Datum>>> {
    if rows == [] then Some([])
    else
      match (RowData(rows[0], style), RowsData(rows[1..], style))
      case (Some(row), Some(more)) => Some([row] + more)
      case _ => None
  }

  predicate RowOk(row: seq<Value>) {
    forall i :: 0 <= i < |row| ==> ValueOk(row[i])
  }

  /** What a text is read as, given what its first row is read as. */
  lemma RowThen(t: string, row: Option<seq<Datum>>, y: string, pg: bool)
    requires "  (" <= t && |y| < |t|
    requires ReadData(t[3..], pg) == match row case Some(data) => Some((data, y)) case None => None
    ensures row.None? ==> ReadRows(t, pg) == None
    ensures row.Some? && y == "" ==> ReadRows(t, pg) == Some([row.value])
    ensures row.Some? && ",\n" <= y ==>
              ReadRows(t, pg) == match ReadRows(y[2..], pg)
                                 case Some(more) => Some([row.value] + more)
                                 case None => None
  {
    hide ReadData;
  }

  lemma RowStarts(row: seq<Value>, style: Style, y: string)
    ensures var t := RowSql(row, style) + y;
            "  (" <= t && |y| < |t| && t[3..] == Join(Literals(row, style), ", ") + (")" + y)
  {
    hide Join, Literals;
    var cells := Join(Literals(row, style), ", ");
    assert RowSql(row, style) + y == "  (" + (cells + (")" + y));
  }

  lemma RowTurn(row: seq<Value>, style: Style, y: string)
    requires RowOk(row)
    ensures var t, data := RowSql(row, style) + y, RowData(row, style);
            && (data.None? ==> ReadRows(t, style.pg) == None)
            && (data.Some? && y == "" ==> ReadRows(t, style.pg) == Some([data.value]))
            && (data.Some? && ",\n" <= y ==>
                  ReadRows(t, style.pg) == match ReadRows(y[2..], style.pg)
                                           case Some(more) => Some([data.value] + more)
                                           case None => None)
  {
    RowReads(row, style, y);
    RowStarts(row, style, y);
    hide ReadData, ReadRows, Join, Literals, RowData, RowSql;
    RowThen(RowSql(row, style) + y, RowData(row, style), y, style.pg);
  }

  lemma {:induction false} RowsRead(rows: seq<seq<Value>>, style: Style)
    requires rows != [] && forall i :: 0 <= i < |rows| ==> RowOk(rows[i])
    ensures ReadRows(Join(RowSqls(rows, style), ",\n"), style.pg) == RowsData(rows, style)
    decreases |rows|
  {
    hide ReadRows, RowData, RowSql, RowOk;
    var first := RowSql(rows[0], style);
    if |rows| == 1 {
      RowTurn(rows[0], style, "");
      assert RowSqls(rows, style) == [first] && first + "" == first;
      assert rows[1..] == [] && RowsData(rows[1..], style) == Some([]);
      assert RowData(rows[0], style).Some? ==> [RowData(rows[0], style).value] + [] == [RowData(rows[0], style).value];
    } else {
      var more := Join(RowSqls(rows[1..], style), ",\n");
      assert RowSqls(rows, style)[1..] == RowSqls(rows[1..], style);
      RowTurn(rows[0], style, ",\n" + more);
      RowsRead(rows[1..], style);
      assert (",\n" + more)[2..] == more;
      Assoc(first, ",\n", more);
    }
  }

  // ------------------------------------------------------------------ the statement

  function ColumnsOf(b: Batch, style: Style): Option<seq<string>> {
    if style.completeInserts || b.generated != {} then
      Some(Packing.Kept(b.columns, Packing.KeepMask(b.columns, b.generated)))
    else None
  }

  predicate StyleOk(style: Style) {
    IsQuote(style.quote) && (style.overriding == "" || style.overriding == " OVERRIDING SYSTEM VALUE")
  }

  lemma ColumnsRead(b: Batch, style: Style, x: string)
    requires StyleOk(style) && x != "" && x[0] == ' ' && |x| > 1 && x[1] != '('
    ensures ReadColumns(ColumnList(b, style) + x, style.quote) == Some((ColumnsOf(b, style), x))
  {
    match ColumnsOf(b, style)
    case None =>
      assert ColumnList(b, style) + x == x && !(" (" <= x);
    case Some(names) =>
      NamesRead(names, style.quote, x);
      hide ReadNames, Idents, Join;
      var list := Join(Idents(names, style.quote), ", ");
      var t := ColumnList(b, style) + x;
      assert t == " (" + (list + (")" + x)) && t[2..] == list + (")" + x);
  }

  lemma BodyReads(style: Style, rows: string)
    requires StyleOk(style)
    ensures ReadBody(style.overriding + " VALUES\n" + rows, style.pg) == ReadRows(rows, style.pg)
  {
    var body := " VALUES\n" + rows;
    assert body[8..] == rows && !(OVERRIDING <= body) by { assert body[1] == 'V' && OVERRIDING[1] == 'O'; }
    if style.overriding == "" {
      assert style.overriding + " VALUES\n" + rows == body;
    } else {
      assert style.overriding + " VALUES\n" + rows == OVERRIDING + body;
      assert (OVERRIDING + body)[|OVERRIDING|..] == body;
    }
  }

  /** The text of an INSERT, from its first word on. */
  lemma InsertText(b: Batch, style: Style, texts: seq<string>)
    ensures Insert(b, style, texts)
         == "INSERT INTO " + (Ident(b.schema, style.quote) + ("." + (Ident(b.table, style.quote)
            + (ColumnList(b, style) + (style.overriding + " VALUES\n" + Join(texts, SEP))))))
  {
    hide Ident, ColumnList, Join;
    var head, s, t, c, o, j := "INSERT INTO ", Ident(b.schema, style.quote), Ident(b.table, style.quote),
                               ColumnList(b, style), style.overriding, Join(texts, SEP);
    Regroup(head, s, ".", t, c, o, " VALUES\n");
    assert c + o + " VALUES\n" + j == c + (o + " VALUES\n" + j);
    Assoc(head, s + ("." + (t + (c + o + " VALUES\n"))), j);
    Assoc(s, "." + (t + (c + o + " VALUES\n")), j);
    Assoc(".", t + (c + o + " VALUES\n"), j);
    Assoc(t, c + o + " VALUES\n", j);
  }

  /**
    An INSERT of a dump is read as what it was written for: the schema, the table, the
    columns if they are listed, and each row's data, whatever names and values are.
  */
  lemma InsertReads(b: Batch, style: Style, rows: seq<seq<Value>>)
    requires StyleOk(style) && rows != [] && forall i :: 0 <= i < |rows| ==> RowOk(rows[i])
    ensures ReadInsert(Insert(b, style, RowSqls(rows, style)), style.quote, style.pg)
         == match RowsData(rows, style)
            case Some(data) => Some(Inserted(b.schema, b.table, ColumnsOf(b, style), data))
            case None => None
  {
    var q, pg := style.quote, style.pg;
    var list := Join(RowSqls(rows, style), SEP);
    var body := style.overriding + " VALUES\n" + list;
    var columns := ColumnList(b, style) + body;
    var table := Ident(b.table, q) + columns;
    var schema := Ident(b.schema, q) + ("." + table);
    InsertText(b, style, RowSqls(rows, style));
    assert ("INSERT INTO " + schema)[12..] == schema && ("." + table)[1..] == table;
    assert body[0] == ' ' && body[1] != '(';
    assert columns[0] == ' ';
    RowsRead(rows, style);
    hide ReadName, ReadColumns, ReadBody, RowsData, Insert, Ident, ColumnList, Join, RowSqls, RowOk, ColumnsOf;
    NameReads(b.schema, q, "." + table);
    NameReads(b.table, q, columns);
    ColumnsRead(b, style, body);
    BodyReads(style, list);
  }

  // ------------------------------------------------------------------ a whole batch

  /** The rows of a script of INSERTs into one table with one list of columns, if that is what it is. */
  function ReadScript(items: seq<Item>, schema: string, table: string, columns: Option<seq<string>>, q: char, pg: bool)
    : Option<seq<seq<Datum>>>
  {
    if items == [] then Some([])
    else if items[0].Marker? then None
    else
      match (ReadInsert(items[0].text, q, pg), ReadScript(items[1..], schema, table, columns, q, pg))
      case (Some(first), Some(more)) =>
        if first == Inserted(schema, table, columns, first.rows) then Some(first.rows + more) else None
      case _ => None
  }

  /** The rows of a batch without the columns that are not written. */
  function KeptRows(b: Batch): (r: seq<seq<Value>>)
    ensures |r| == |b.rows|
    ensures forall i :: 0 <= i < |r| ==> r[i] == Packing.Kept(b.rows[i], Packing.KeepMask(b.columns, b.generated))
  {
    seq(|b.rows|, i requires 0 <= i < |b.rows| => Packing.Kept(b.rows[i], Packing.KeepMask(b.columns, b.generated)))
  }

  lemma {:induction false} RowsDataAppend(a: seq<seq<Value>>, b: seq<seq<Value>>, style: Style)
    ensures RowsData(a + b, style) == match (RowsData(a, style), RowsData(b, style))
                                      case (Some(x), Some(y)) => Some(x + y)
                                      case _ => None
  {
    hide RowData;
    if a == [] {
      assert a + b == b;
      assert RowsData(b, style).Some? ==> [] + RowsData(b, style).value == RowsData(b, style).value;
    } else {
      DropPrefix(a, b, 1);
      RowsDataAppend(a[1..], b, style);
      if RowData(a[0], style).Some? && RowsData(a[1..], style).Some? && RowsData(b, style).Some? {
        Assoc([RowData(a[0], style).value], RowsData(a[1..], style).value, RowsData(b, style).value);
      }
    }
  }

  /** The INSERTs of consecutive groups of rows read as all of the rows. */
  lemma {:induction false} GroupsRead(b: Batch, style: Style, items: seq<Item>, groups: seq<seq<string>>,
                                      rows: seq<seq<Value>>)
    requires StyleOk(style) && forall i :: 0 <= i < |rows| ==> RowOk(rows[i])
    requires |items| == |groups| && Flatten(groups) == RowSqls(rows, style)
    requires forall k :: 0 <= k < |groups| ==> groups[k] != [] && items[k] == Stmt(Insert(b, style, groups[k]))
    ensures ReadScript(items, b.schema, b.table, ColumnsOf(b, style), style.quote, style.pg) == RowsData(rows, style)
    decreases |groups|
  {
    hide ReadInsert, Insert, RowOk, RowSql, RowsData, ColumnsOf, StyleOk;
    if groups == [] {
      assert |rows| == 0;
      NoRows(style);
    } else {
      var n := |groups[0]|;
      var first, rest := rows[..n], rows[n..];
      assert Flatten(groups) == groups[0] + Flatten(groups[1..]);
      assert RowSqls(rows, style)[..n] == groups[0] && RowSqls(rows, style)[n..] == Flatten(groups[1..]);
      assert RowSqls(first, style) == groups[0] && RowSqls(rest, style) == Flatten(groups[1..]);
      InsertReads(b, style, first);
      GroupsRead(b, style, items[1..], groups[1..], rest);
      assert rows == first + rest;
      RowsDataAppend(first, rest, style);
    }
  }

  lemma NoRows(style: Style)
    ensures RowsData([], style) == Some([])
  {
  }

  /**
    From the values to the target and back: what is written for a batch is split into
    INSERTs that read as rows of that schema, table and columns, and the rows are those
    of the batch, each once and in order, whatever the names, the values and the
    grouping.
  */
  lemma BatchReads(pad: string, b: Batch, style: Style)
    requires Blank(pad) && BatchOk(b, style) && StyleOk(style)
    ensures ReadScript(Whole(Between(pad), Output(b, style)), b.schema, b.table, ColumnsOf(b, style),
                       style.quote, style.pg)
         == RowsData(KeptRows(b), style)
  {
    var groups, items := Groups(b, style), Whole(Between(pad), Output(b, style));
    BatchRoundTrip(pad, b, style);
    GroupsPartition(b, style);
    var rows := KeptRows(b);
    assert RowSqls(rows, style) == RowTexts(b, style);
    forall i | 0 <= i < |rows| ensures RowOk(rows[i]) {
      KeptOk(b.rows[i], Packing.KeepMask(b.columns, b.generated));
    }
    hide Whole, Between, BatchOk, Output, Groups, RowOk, StyleOk;
    GroupsRead(b, style, items, groups, rows);
  }

  /** The data rows are. */
  function OwnRows(rows: seq<seq<Value>>, style: Style): (r: seq<seq<Datum>>)
    ensures |r| == |rows| && forall i :: 0 <= i < |rows| ==> r[i] == OwnData(rows[i], style)
  {
    seq(|rows|, i requires 0 <= i < |rows| => OwnData(rows[i], style))
  }

  predicate RowKept(row: seq<Value>, style: Style) {
    forall i :: 0 <= i < |row| ==> TupleReading.Kept(row[i], style)
  }

  lemma {:induction false} RowsDataIs(rows: seq<seq<Value>>, style: Style)
    ensures RowsData(rows, style) == Some(OwnRows(rows, style))
       <==> forall i :: 0 <= i < |rows| ==> RowKept(rows[i], style)
    decreases |rows|
  {
    if rows == [] {
      assert OwnRows(rows, style) == [];
    } else {
      RowDataIs(rows[0], style);
      assert RowKept(rows[0], style) <==> RowData(rows[0], style) == Some(OwnData(rows[0], style));
      RowsDataIs(rows[1..], style);
      hide RowData, OwnData, RowKept;
      var own, more := OwnRows(rows, style), OwnRows(rows[1..], style);
      assert own == [OwnData(rows[0], style)] + more && own[1..] == more;
      assert forall i :: 0 < i < |rows| ==> rows[i] == rows[1..][i - 1];
      if RowsData(rows, style) == Some(own) {
        var d, data := RowData(rows[0], style).value, RowsData(rows[1..], style).value;
        assert ([d] + data)[0] == d && ([d] + data)[1..] == data;
      }
    }
  }

  /** So a dump gives the rows of a batch back exactly when each of its written values is one that is kept. */
  lemma BatchIsKeptIff(pad: string, b: Batch, style: Style)
    requires Blank(pad) && BatchOk(b, style) && StyleOk(style)
    ensures ReadScript(Whole(Between(pad), Output(b, style)), b.schema, b.table, ColumnsOf(b, style),
                       style.quote, style.pg) == Some(OwnRows(KeptRows(b), style))
       <==> forall i :: 0 <= i < |b.rows| ==> RowKept(KeptRows(b)[i], style)
  {
    hide Whole, Between, BatchOk, Output, StyleOk, ReadScript, RowKept, OwnRows, RowsData;
    BatchReads(pad, b, style);
    RowsDataIs(KeptRows(b), style);
  }
}
