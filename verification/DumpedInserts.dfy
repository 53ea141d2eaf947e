/**
  The importer's INSERT scanner (`split_insert` in src-tauri/src/sql_import.rs) on the
  statements that the dump writer writes, and on the same statements in other words:
  it cuts them in front of their rows, and counts as rows what was written as rows.
*/
module DumpedInserts {
  import opened Text
  import opened InsertSplit
  import opened DumpWriter
  import Packing

  // ----------------------------------------------------------------- quoted spans

  lemma QuoteCloses(q: char, x: string)
    requires q != '\\' && (x == "" || x[0] != q)
    ensures QuoteEnd(q, [q] + x) == 1
  {
  }

  /** One character of a quoted span: a pair behind a backslash, a doubled quote, or any other one. */
  lemma SpanTurn(c: char, d: char, q: char, tail: string)
    requires q != '\\'
    ensures c == '\\' && q != '`' ==> QuoteEnd(q, [c, d] + tail) == 2 + QuoteEnd(q, tail)
    ensures !(c == '\\' && q != '`') && c != q ==> QuoteEnd(q, [c] + tail) == 1 + QuoteEnd(q, tail)
    ensures QuoteEnd(q, [q, q] + tail) == 2 + QuoteEnd(q, tail)
  {
    assert ([c, d] + tail)[2..] == tail && ([c] + tail)[1..] == tail && ([q, q] + tail)[2..] == tail;
  }

  lemma EscapeTurn(c: char, tail: string)
    ensures QuoteEnd('\'', EscapeChar(c) + tail) == |EscapeChar(c)| + QuoteEnd('\'', tail)
  {
    hide QuoteEnd;
    var e := EscapeChar(c);
    if c == '\'' {
      assert e == ['\'', '\''];
      SpanTurn('x', 'x', '\'', tail);
    } else if Escapes(c) {
      assert e == ['\\', e[1]];
      SpanTurn('\\', e[1], '\'', tail);
    } else {
      assert e == [c];
      SpanTurn(c, 'x', '\'', tail);
    }
  }

  lemma {:induction false} EscapedEnds(s: string, x: string)
    requires x == "" || x[0] != '\''
    ensures QuoteEnd('\'', Escape(s) + "'" + x) == |Escape(s)| + 1
    decreases |s|
  {
    hide QuoteEnd, EscapeChar;
    if s == "" {
      assert Escape(s) + "'" + x == "'" + x;
      QuoteCloses('\'', x);
    } else {
      var e, tail := EscapeChar(s[0]), Escape(s[1..]) + "'" + x;
      EscapedEnds(s[1..], x);
      assert Escape(s) + "'" + x == e + tail;
      EscapeTurn(s[0], tail);
    }
  }

  lemma {:induction false} PlainEnds(t: string, x: string)
    requires forall i :: 0 <= i < |t| ==> t[i] != '\'' && t[i] != '\\'
    requires x == "" || x[0] != '\''
    ensures QuoteEnd('\'', t + "'" + x) == |t| + 1
    decreases |t|
  {
    if t == "" {
      assert t + "'" + x == "'" + x && |x| > 0 ==> ("'" + x)[1] == x[0];
    } else {
      assert (t + "'" + x)[1..] == t[1..] + "'" + x;
      PlainEnds(t[1..], x);
    }
  }

  /** Names in backticks end where they were closed; names in double quotes if their backslashes pair up. */
  predicate NameOk(name: string, q: char) {
    q == '`' || (q == '"' && IdentOk(name, q))
  }

  lemma {:induction false} NameEnds(name: string, q: char, x: string)
    requires NameOk(name, q) && (x == "" || x[0] != q)
    ensures QuoteEnd(q, Double(name, q) + ([q] + x)) == |Double(name, q)| + 1
    decreases |name|
  {
    hide QuoteEnd, NameOk;
    var tail := [q] + x;
    NameRest(name, q);
    if name == "" {
      assert Double(name, q) + tail == tail;
      QuoteCloses(q, x);
    } else if name[0] == '\\' && q != '`' {
      var two := name[2..];
      NameEnds(two, q, x);
      PairDoubles(name, q);
      assert Double(name, q) + tail == [name[0], name[1]] + (Double(two, q) + tail);
      SpanTurn(name[0], name[1], q, Double(two, q) + tail);
    } else {
      NameEnds(name[1..], q, x);
      assert Double(name, q) + tail == (if name[0] == q then [q, q] else [name[0]]) + (Double(name[1..], q) + tail);
      SpanTurn(name[0], 'x', q, Double(name[1..], q) + tail);
    }
  }

  /** What is left of a name behind its first character or its first pair. */
  lemma NameRest(name: string, q: char)
    requires NameOk(name, q)
    ensures q != '\\'
    ensures name != "" && name[0] == '\\' && q != '`' ==> |name| > 1 && name[1] != q && NameOk(name[2..], q)
    ensures name != "" && !(name[0] == '\\' && q != '`') ==> NameOk(name[1..], q)
  {
  }

  lemma PairDoubles(name: string, q: char)
    requires |name| > 1 && name[0] != q && name[1] != q
    ensures Double(name, q) == [name[0], name[1]] + Double(name[2..], q)
  {
    assert name[1..][1..] == name[2..] && name[1..][0] == name[1];
    assert Double(name[1..], q) == [name[1]] + Double(name[2..], q);
  }

  // --------------------------------------------------------------------- the rows

  /** Neither quotes nor parentheses. */
  predicate Bare(t: string) {
    forall i :: 0 <= i < |t| ==> !IsQuote(t[i]) && t[i] != '(' && t[i] != ')'
  }

  lemma {:induction false} BareOver(t: string, depth: nat, x: string)
    requires Bare(t)
    ensures GroupEnd(t + x, depth) == Longer(GroupEnd(x, depth), |t|)
    decreases |t|
  {
    if t == "" {
      assert t + x == x;
    } else {
      assert (t + x)[1..] == t[1..] + x;
      BareOver(t[1..], depth, x);
    }
  }

  lemma SpanOver(inner: string, depth: nat, x: string)
    requires QuoteEnd('\'', inner + "'" + x) == |inner| + 1
    ensures GroupEnd("'" + inner + "'" + x, depth) == Longer(GroupEnd(x, depth), |inner| + 2)
  {
    hide QuoteEnd;
    var t := "'" + inner + "'" + x;
    assert t[1..] == inner + "'" + x && t[|inner| + 2..] == x;
  }

  lemma BytesEnd(h: string, cast: string)
    requires (forall i :: 0 <= i < |h| ==> IsIdent(h[i])) && (cast == "" || cast[0] != '\'')
    ensures QuoteEnd('\'', ['\\', 'x'] + h + "'" + cast) == |h| + 3
  {
    PlainEnds(h, cast);
    var t := ['\\', 'x'] + (h + "'" + cast);
    assert ['\\', 'x'] + h + "'" + cast == t && t[2..] == h + "'" + cast;
  }

  lemma BytesOver(h: string, depth: nat, x: string)
    requires forall i :: 0 <= i < |h| ==> IsIdent(h[i])
    ensures GroupEnd("'\\x" + h + "'::bytea" + x, depth) == Longer(GroupEnd(x, depth), |h| + 11)
  {
    hide QuoteEnd, GroupEnd, IsIdent;
    var inner, cast := ['\\', 'x'] + h, "::bytea" + x;
    BytesEnd(h, cast);
    SpanOver(inner, depth, cast);
    BareOver("::bytea", depth, x);
    assert "'" + inner + "'" + cast == "'\\x" + h + "'::bytea" + x;
  }

  /** A value inside a row is gone over. */
  lemma LiteralOver(v: Value, style: Style, depth: nat, x: string)
    requires ValueOk(v) && (x == "" || x[0] != '\'')
    ensures GroupEnd(Literal(v, style) + x, depth) == Longer(GroupEnd(x, depth), |Literal(v, style)|)
  {
    hide GroupEnd, QuoteEnd, Escape, Hex, Widened;
    match v
    case String(s) =>
      EscapedEnds(s, x);
      SpanOver(Escape(s), depth, x);
    case Bytes(bytes) =>
      if style.pg {
        HexIsPlain(bytes, false);
        BytesOver(Hex(bytes, false), depth, x);
      } else if style.hexBlob {
        HexIsPlain(bytes, true);
        BareOver("0x" + Hex(bytes, true), depth, x);
      } else {
        EscapedEnds(Widened(bytes), x);
        SpanOver(Escape(Widened(bytes)), depth, x);
      }
    case _ => BareOver(Literal(v, style), depth, x);
  }

  /** A first value, alone or in front of others. */
  lemma CellsStep(v: Value, style: Style, more: string, x: string)
    requires ValueOk(v) && x != "" && x[0] == ')'
    ensures GroupEnd(Literal(v, style) + x, 1) == Some(|Literal(v, style)| + 1)
    ensures GroupEnd(more + x, 1) == Some(|more| + 1) ==>
              GroupEnd(Literal(v, style) + ", " + more + x, 1) == Some(|Literal(v, style) + ", " + more| + 1)
  {
    hide GroupEnd, Literal, ValueOk;
    var lit := Literal(v, style);
    Closes(x);
    LiteralOver(v, style, 1, x);
    LiteralOver(v, style, 1, ", " + (more + x));
    BareOver(", ", 1, more + x);
    assert lit + ", " + more + x == lit + (", " + (more + x));
  }

  lemma CellsJoin(row: seq<Value>, style: Style)
    requires row != []
    ensures Join(Literals(row, style), ", ")
         == if |row| == 1 then Literal(row[0], style)
            else Literal(row[0], style) + ", " + Join(Literals(row[1..], style), ", ")
  {
    hide Literal;
    assert Literals(row, style)[1..] == Literals(row[1..], style);
  }

  predicate CellsOk(row: seq<Value>) {
    forall i :: 0 <= i < |row| ==> ValueOk(row[i])
  }

  lemma FirstCellOk(row: seq<Value>)
    requires CellsOk(row) && row != []
    ensures ValueOk(row[0]) && CellsOk(row[1..])
  {
    hide ValueOk;
  }

  lemma NoCells(style: Style)
    ensures Join(Literals([], style), ", ") == ""
  {
  }

  lemma {:induction false} CellsOver(row: seq<Value>, style: Style, x: string)
    requires CellsOk(row) && x != "" && x[0] == ')'
    ensures GroupEnd(Join(Literals(row, style), ", ") + x, 1) == Some(|Join(Literals(row, style), ", ")| + 1)
    decreases |row|
  {
    hide GroupEnd, Literal, ValueOk, CellsOk, Literals, Join;
    if row == [] {
      Closes(x);
      NoCells(style);
      assert "" + x == x;
    } else {
      var more := Join(Literals(row[1..], style), ", ");
      FirstCellOk(row);
      CellsJoin(row, style);
      CellsStep(row[0], style, more, x);
      if |row| > 1 {
        CellsOver(row[1..], style, x);
      }
    }
  }

  lemma Closes(x: string)
    requires x != "" && x[0] == ')'
    ensures GroupEnd(x, 1) == Some(1)
  {
  }

  function Group(row: seq<Value>, style: Style): string {
    "(" + Join(Literals(row, style), ", ") + ")"
  }

  lemma GroupOver(row: seq<Value>, style: Style, x: string)
    requires forall i :: 0 <= i < |row| ==> ValueOk(row[i])
    ensures GroupEnd(Group(row, style) + x, 0) == Some(|Group(row, style)|)
  {
    var cells := Join(Literals(row, style), ", ");
    CellsOver(row, style, ")" + x);
    hide Join, Literals, ValueOk;
    Wrapped(cells, x);
  }

  lemma Wrapped(cells: string, x: string)
    requires GroupEnd(cells + (")" + x), 1) == Some(|cells| + 1)
    ensures GroupEnd("(" + cells + ")" + x, 0) == Some(|cells| + 2)
  {
    var t := "(" + cells + ")" + x;
    assert t == "(" + (cells + (")" + x)) && t[1..] == cells + (")" + x);
  }

  // ----------------------------------------------------------------- the tuple list

  function GroupTexts(rows: seq<seq<Value>>, style: Style): (r: seq<string>)
    ensures |r| == |rows| && forall i :: 0 <= i < |rows| ==> r[i] == Group(rows[i], style)
  {
    seq(|rows|, i requires 0 <= i < |rows| => Group(rows[i], style))
  }

  /** Rows between commas, each on its own line. */
  function TupleList(rows: seq<seq<Value>>, style: Style): string {
    Join(GroupTexts(rows, style), ",\n  ")
  }

  predicate RowsOk(rows: seq<seq<Value>>) {
    forall r, i :: 0 <= r < |rows| && 0 <= i < |rows[r]| ==> ValueOk(rows[r][i])
  }

  lemma PaddedClean(s: string)
    ensures Clean("\n  " + s) <==> Clean(s)
    ensures Clean(s) ==> InsertSplit.Groups("\n  " + s) == InsertSplit.Groups(s)
  {
    SkipSpaceAppend("\n  ", s);
    assert SkipSpace("\n  ") == "" by {
      assert "\n  "[1..] == "  " && "  "[1..] == " " && " "[1..] == "";
    }
    hide GroupEnd;
  }

  /** One group, alone or in front of more. */
  lemma GroupsTurn(g: string, more: string)
    requires g != "" && g[0] == '('
    ensures GroupEnd(g, 0) == Some(|g|) ==> Clean(g) && InsertSplit.Groups(g) == [g]
    ensures GroupEnd(g + ",\n  " + more, 0) == Some(|g|) && Clean(more) ==>
              && Clean(g + ",\n  " + more)
              && InsertSplit.Groups(g + ",\n  " + more) == [g] + InsertSplit.Groups(more)
  {
    PaddedClean(more);
    hide GroupEnd;
    assert g[..|g|] == g && g[|g|..] == "" && SkipSpace("") == "";
    var t := g + ",\n  " + more;
    assert t[..|g|] == g && t[|g|..] == ",\n  " + more;
    assert (",\n  " + more)[1..] == "\n  " + more && (",\n  " + more)[0] == ',';
  }

  /** The scanner counts as rows what was written as rows. */
  lemma {:induction false} ListReads(rows: seq<seq<Value>>, style: Style)
    requires rows != [] && RowsOk(rows)
    ensures Clean(TupleList(rows, style)) && InsertSplit.Groups(TupleList(rows, style)) == GroupTexts(rows, style)
    ensures StartsWith(TupleList(rows, style), "(")
    decreases |rows|
  {
    hide Clean, InsertSplit.Groups, GroupEnd, Literals;
    var g := Group(rows[0], style);
    if |rows| == 1 {
      assert GroupTexts(rows, style) == [g];
      GroupOver(rows[0], style, "");
      assert g + "" == g;
      GroupsTurn(g, "");
    } else {
      var more := TupleList(rows[1..], style);
      assert GroupTexts(rows, style) == [g] + GroupTexts(rows[1..], style);
      assert GroupTexts(rows, style)[1..] == GroupTexts(rows[1..], style);
      ListReads(rows[1..], style);
      GroupOver(rows[0], style, ",\n  " + more);
      Assoc(g, ",\n  ", more);
      GroupsTurn(g, more);
    }
  }

  // ------------------------------------------------------------------- the keyword

  /** The text stands in `s` at `i`. */
  predicate Stands(s: string, i: nat, t: string) {
    i + |t| <= |s| && s[i..i + |t|] == t
  }

  predicate NoV(t: string) {
    Bare(t) && forall k :: 0 <= k < |t| ==> t[k] != 'V' && t[k] != 'v'
  }

  lemma {:induction false} WordsPass(s: string, i: nat, t: string, depth: int)
    requires Stands(s, i, t) && (NoV(t) || (Bare(t) && depth != 0))
    ensures FindValues(s, i, depth) == FindValues(s, i + |t|, depth)
    decreases |t|
  {
    if t != "" {
      assert s[i] == s[i..i + |t|][0] == t[0];
      assert s[i + 1..i + |t|] == t[1..];
      assert FindValues(s, i, depth) == FindValues(s, i + 1, depth);
      hide FindValues;
      WordsPass(s, i + 1, t[1..], depth);
    }
  }

  /** A `V` that does not begin the keyword. */
  lemma OtherVPasses(s: string, i: nat, depth: int)
    requires i < |s| && !IsQuote(s[i]) && s[i] != '(' && s[i] != ')' && !ValuesAt(s, i)
    ensures FindValues(s, i, depth) == FindValues(s, i + 1, depth)
  {
  }

  lemma IdentPasses(s: string, i: nat, name: string, q: char, depth: int)
    requires NameOk(name, q) && Stands(s, i, Ident(name, q))
    requires var n := i + |Ident(name, q)|; n == |s| || s[n] != q
    ensures FindValues(s, i, depth) == FindValues(s, i + |Ident(name, q)|, depth)
  {
    var id, n := Ident(name, q), i + |Ident(name, q)|;
    assert s[i] == s[i..n][0] == q;
    assert s[i + 1..n] == Double(name, q) + [q] by { assert s[i + 1..n] == s[i..n][1..]; }
    assert s[i + 1..] == Double(name, q) + ([q] + s[n..]) by {
      assert s[i + 1..] == s[i + 1..n] + s[n..];
    }
    NameEnds(name, q, s[n..]);
    hide QuoteEnd, Double, ValuesAt;
  }

  lemma {:induction false} NamesPass(s: string, i: nat, names: seq<string>, q: char)
    requires forall k :: 0 <= k < |names| ==> NameOk(names[k], q)
    requires Stands(s, i, Join(Idents(names, q), ", "))
    requires var n := i + |Join(Idents(names, q), ", ")|; n < |s| && s[n] == ')'
    ensures FindValues(s, i, 1) == FindValues(s, i + |Join(Idents(names, q), ", ")|, 1)
    decreases |names|
  {
    hide FindValues, NameOk, Ident;
    if names != [] {
      var id, list := Ident(names[0], q), Join(Idents(names, q), ", ");
      assert Idents(names, q)[1..] == Idents(names[1..], q);
      QuoteIs(names[0], q);
      if |names| == 1 {
        assert list == id;
        IdentPasses(s, i, names[0], q, 1);
      } else {
        var more := Join(Idents(names[1..], q), ", ");
        assert list == id + ", " + more;
        Inside(s, i, id, ", ", more);
        IdentPasses(s, i, names[0], q, 1);
        WordsPass(s, i + |id|, ", ", 1);
        NamesPass(s, i + |id| + 2, names[1..], q);
      }
    }
  }

  lemma QuoteIs(name: string, q: char)
    requires NameOk(name, q)
    ensures q == '`' || q == '"'
  {
  }

  /** A text that stands somewhere, cut in two. */
  lemma Halves(s: string, i: nat, a: string, b: string)
    requires Stands(s, i, a + b)
    ensures Stands(s, i, a) && Stands(s, i + |a|, b)
  {
    var t := s[i..i + |a + b|];
    assert t == a + b;
    assert s[i..i + |a|] == t[..|a|] == a;
    assert s[i + |a|..i + |a| + |b|] == t[|a|..] == b;
  }

  lemma Inside(s: string, i: nat, a: string, b: string, c: string)
    requires Stands(s, i, a + b + c)
    ensures Stands(s, i, a) && Stands(s, i + |a|, b) && Stands(s, i + |a| + |b|, c)
    ensures b != "" ==> s[i + |a|] == b[0]
    ensures c != "" ==> s[i + |a| + |b|] == c[0]
  {
    hide Stands;
    Halves(s, i, a + b, c);
    Halves(s, i, a, b);
    if b != "" {
      NextChar(s, i + |a|, b);
    }
    if c != "" {
      NextChar(s, i + |a| + |b|, c);
    }
  }

  /** The columns that are written, if they are listed. */
  function Written(b: Batch): seq<string> {
    Packing.Kept(b.columns, Packing.KeepMask(b.columns, b.generated))
  }

  predicate TargetOk(b: Batch, style: Style) {
    && NameOk(b.schema, style.quote) && NameOk(b.table, style.quote)
    && (forall k :: 0 <= k < |Written(b)| ==> NameOk(Written(b)[k], style.quote))
    && (style.overriding == "" || style.overriding == " OVERRIDING SYSTEM VALUE")
  }

  lemma ColumnsPass(s: string, i: nat, b: Batch, style: Style)
    requires TargetOk(b, style) && Stands(s, i, ColumnList(b, style))
    ensures FindValues(s, i, 0) == FindValues(s, i + |ColumnList(b, style)|, 0)
  {
    if style.completeInserts || b.generated != {} {
      hide NameOk, Idents, Join, FindValues, Packing.Kept, Packing.KeepMask;
      ListPasses(s, i, Written(b), style.quote);
    }
  }

  lemma ListPasses(s: string, i: nat, names: seq<string>, q: char)
    requires forall k :: 0 <= k < |names| ==> NameOk(names[k], q)
    requires Stands(s, i, " (" + Join(Idents(names, q), ", ") + ")")
    ensures FindValues(s, i, 0) == FindValues(s, i + |Join(Idents(names, q), ", ")| + 3, 0)
  {
    hide NameOk, Idents, Join, FindValues;
    var list := Join(Idents(names, q), ", ");
    Inside(s, i, " (", list, ")");
    assert s[i + 1] == s[i..i + 2][1] == '(';
    assert s[i..i + 1] == s[i..i + 2][..1] == " ";
    WordsPass(s, i, " ", 0);
    ParenPasses(s, i + 1, 0);
    NamesPass(s, i + 2, names, q);
    ParenPasses(s, i + 2 + |list|, 1);
  }

  lemma ParenPasses(s: string, i: nat, depth: int)
    requires i < |s|
    ensures s[i] == '(' ==> FindValues(s, i, depth) == FindValues(s, i + 1, depth + 1)
    ensures s[i] == ')' ==> FindValues(s, i, depth) == FindValues(s, i + 1, depth - 1)
  {
  }

  lemma OverridingStands(s: string, i: nat)
    requires Stands(s, i, " OVERRIDING SYSTEM VALUE ")
    ensures i + 25 <= |s| && s[i + 1] == 'O' && s[i + 2] == 'V' && s[i + 19] == 'V' && s[i + 24] == ' '
    ensures Stands(s, i, " O") && Stands(s, i + 3, "ERRIDING SYSTEM ") && Stands(s, i + 20, "ALUE")
  {
    assert " OVERRIDING SYSTEM VALUE " == " OV" + "ERRIDING SYSTEM " + "VALUE ";
    assert " OV" == " O" + "V" + "" && "VALUE " == "V" + "ALUE" + " ";
    hide Stands;
    Inside(s, i, " OV", "ERRIDING SYSTEM ", "VALUE ");
    Inside(s, i, " O", "V", "");
    Inside(s, i + 19, "V", "ALUE", " ");
    NextChar(s, i + 19, "V");
    SecondChar(s, i, " O");
  }

  lemma SecondChar(s: string, i: nat, t: string)
    requires Stands(s, i, t) && |t| > 1
    ensures i + 1 < |s| && s[i + 1] == t[1]
  {
    assert s[i + 1] == s[i..i + |t|][1];
  }

  lemma NoVs()
    ensures NoV(" O") && NoV("ERRIDING SYSTEM ") && NoV("ALUE") && NoV(" ") && NoV(" INTO ") && NoV(".")
  {
  }

  /** `OVERRIDING SYSTEM VALUE` holds no `VALUES`: one `V` is inside a word, the other begins another word. */
  lemma OverridingPasses(s: string, i: nat)
    requires Stands(s, i, " OVERRIDING SYSTEM VALUE ")
    ensures FindValues(s, i, 0) == FindValues(s, i + 24, 0)
  {
    OverridingStands(s, i);
    NoVs();
    assert !ValuesAt(s, i + 2);
    NotTheWord(s, i + 19);
    hide FindValues, Stands, NoV, ValuesAt;
    WordsPass(s, i, " O", 0);
    OtherVPasses(s, i + 2, 0);
    WordsPass(s, i + 3, "ERRIDING SYSTEM ", 0);
    OtherVPasses(s, i + 19, 0);
    WordsPass(s, i + 20, "ALUE", 0);
  }

  lemma NotTheWord(s: string, i: nat)
    requires i + 5 < |s| && s[i + 5] == ' '
    ensures !ValuesAt(s, i)
  {
    assert s[i..][5] == ' ' && Upper("VALUES"[5]) == 'S';
  }

  lemma KeywordFound(s: string, i: nat, kw: string)
    requires Stands(s, i, kw) && Spells(kw, "VALUES")
    requires i > 0 && !IsIdent(s[i - 1]) && (i + 6 < |s| ==> !IsIdent(s[i + 6]))
    ensures FindValues(s, i, 0) == Some(i + 6)
  {
    assert forall k :: 0 <= k < 6 ==> s[i..][k] == s[i..i + 6][k] == kw[k];
    assert s[i] == kw[0];
    assert |s[i..]| > 6 ==> s[i..][6] == s[i + 6];
    assert ValuesAt(s, i);
  }

  lemma VerbHeads(verb: string, x: string)
    requires (Spells(verb, "INSERT") || Spells(verb, "REPLACE")) && (x == "" || !IsIdent(x[0]))
    ensures IsInsert(verb + x) && NoV(verb)
  {
    var t := verb + x;
    assert forall k :: 0 <= k < |verb| ==> t[k] == verb[k];
    assert x != "" ==> t[|verb|] == x[0];
    if Spells(verb, "INSERT") {
      assert AtWord(t, "INSERT");
    } else {
      assert AtWord(t, "REPLACE");
    }
  }

  // ------------------------------------------------------------------ the statement

  /** The text in front of the rows, with the verb and the keyword as they are written. */
  function Front(verb: string, b: Batch, style: Style, kw: string): string {
    verb + " INTO " + Ident(b.schema, style.quote) + "." + Ident(b.table, style.quote)
      + ColumnList(b, style) + style.overriding + " " + kw
  }

  /** What stands behind the name of the table, up to the keyword. */
  function Between(b: Batch, style: Style): string {
    ColumnList(b, style) + style.overriding + " "
  }

  /** The parts of the front, one behind the other. */
  lemma FrontStands(verb: string, b: Batch, style: Style, kw: string, x: string)
    ensures var s := Front(verb, b, style, kw) + x;
            var schema, table := Ident(b.schema, style.quote), Ident(b.table, style.quote);
            var i := |verb| + 6;
            var j := i + |schema| + 1 + |table|;
            var k := j + |ColumnList(b, style)|;
            && Stands(s, 0, verb) && Stands(s, |verb|, " INTO ") && Stands(s, i, schema) && Stands(s, i + |schema|, ".")
            && Stands(s, i + |schema| + 1, table)
            && Stands(s, j, Between(b, style)) && Stands(s, j, ColumnList(b, style))
            && Stands(s, k, style.overriding + " ") && Stands(s, k + |style.overriding|, " ")
            && Stands(s, k + |style.overriding| + 1, kw)
            && k + |style.overriding| + 1 + |kw| == |Front(verb, b, style, kw)|
  {
    hide Ident, ColumnList;
    var c0, c1, c2, c3 := verb, " INTO ", Ident(b.schema, style.quote), ".";
    var c4, c5, c6, c7, c8 := Ident(b.table, style.quote), ColumnList(b, style), style.overriding, " ", kw;
    var s := c0 + c1 + c2 + c3 + c4 + c5 + c6 + c7 + c8 + x;
    assert s == Front(verb, b, style, kw) + x;
    var f6 := c0 + c1 + c2 + c3 + c4 + c5;
    var f4 := c0 + c1 + c2 + c3;
    var tail6 := c6 + c7 + (c8 + x);
    assert s == f6 + tail6;
    assert s == f4 + c4 + (c5 + tail6);
    assert s == c0 + c1 + (c2 + c3 + (c4 + (c5 + tail6)));
  }

  lemma NextChar(s: string, i: nat, t: string)
    requires Stands(s, i, t) && t != ""
    ensures i < |s| && s[i] == t[0]
  {
    assert s[i] == s[i..i + |t|][0];
  }

  /** A quoted name in front of a text that does not begin with a quote. */
  lemma NamePasses(s: string, i: nat, name: string, q: char, t: string, depth: int)
    requires NameOk(name, q) && Stands(s, i, Ident(name, q)) && Stands(s, i + |Ident(name, q)|, t)
    requires t != "" && !IsQuote(t[0])
    ensures FindValues(s, i, depth) == FindValues(s, i + |Ident(name, q)|, depth)
  {
    QuoteIs(name, q);
    NextChar(s, i + |Ident(name, q)|, t);
    hide FindValues, NameOk, Stands;
    IdentPasses(s, i, name, q, depth);
  }

  /** The schema and the table. */
  lemma TargetPasses(s: string, i: nat, schema: string, table: string, q: char, next: string)
    requires NameOk(schema, q) && NameOk(table, q) && next != "" && !IsQuote(next[0])
    requires Stands(s, i, Ident(schema, q)) && Stands(s, i + |Ident(schema, q)|, ".")
    requires Stands(s, i + |Ident(schema, q)| + 1, Ident(table, q))
    requires Stands(s, i + |Ident(schema, q)| + 1 + |Ident(table, q)|, next)
    ensures FindValues(s, i, 0) == FindValues(s, i + |Ident(schema, q)| + 1 + |Ident(table, q)|, 0)
  {
    var n := |Ident(schema, q)|;
    NoVs();
    hide FindValues, NameOk, Ident, Stands, NoV;
    NamePasses(s, i, schema, q, ".", 0);
    WordsPass(s, i + n, ".", 0);
    NamePasses(s, i + n + 1, table, q, next, 0);
  }

  /** What follows the columns, up to and including the keyword. */
  lemma EndPasses(s: string, i: nat, overriding: string, kw: string)
    requires overriding == "" || overriding == " OVERRIDING SYSTEM VALUE"
    requires Spells(kw, "VALUES") && Stands(s, i, overriding + " ") && Stands(s, i + |overriding|, " ")
    requires Stands(s, i + |overriding| + 1, kw)
    requires var n := i + |overriding| + 7; n < |s| ==> !IsIdent(s[n])
    ensures FindValues(s, i, 0) == Some(i + |overriding| + 7)
  {
    NoVs();
    NextChar(s, i + |overriding|, " ");
    hide FindValues, Spells, Stands, NoV;
    if overriding != "" {
      assert overriding + " " == " OVERRIDING SYSTEM VALUE ";
      OverridingPasses(s, i);
    }
    WordsPass(s, i + |overriding|, " ", 0);
    KeywordFound(s, i + |overriding| + 1, kw);
  }

  /** The verb. */
  lemma VerbPasses(s: string, verb: string)
    requires NoV(verb) && Stands(s, 0, verb) && Stands(s, |verb|, " INTO ")
    ensures FindValues(s, 0, 0) == FindValues(s, |verb| + 6, 0)
  {
    NoVs();
    hide FindValues, Stands, NoV;
    WordsPass(s, 0, verb, 0);
    WordsPass(s, |verb|, " INTO ", 0);
  }

  lemma BetweenOpens(b: Batch, style: Style)
    requires TargetOk(b, style)
    ensures Between(b, style) != "" && Between(b, style)[0] == ' '
  {
  }

  lemma Behind(f: string, x: string)
    ensures x != "" ==> (f + x)[|f|] == x[0]
  {
  }

  lemma SixLetters(kw: string)
    requires Spells(kw, "VALUES")
    ensures |kw| == 6
  {
  }

  /** The keyword is found behind everything that stands in front of the rows. */
  lemma FrontPasses(verb: string, b: Batch, style: Style, kw: string, x: string)
    requires (Spells(verb, "INSERT") || Spells(verb, "REPLACE")) && Spells(kw, "VALUES")
    requires TargetOk(b, style) && (x == "" || !IsIdent(x[0]))
    ensures FindValues(Front(verb, b, style, kw) + x, 0, 0) == Some(|Front(verb, b, style, kw)|)
  {
    var s, q := Front(verb, b, style, kw) + x, style.quote;
    hide FindValues, NameOk, Ident, ColumnList, Written, IsInsert, Front, Stands, NoV, IsIdent, Spells, Between;
    FrontStands(verb, b, style, kw, x);
    VerbHeads(verb, "");
    BetweenOpens(b, style);
    Behind(Front(verb, b, style, kw), x);
    SixLetters(kw);
    var i, n := |verb| + 6, |Ident(b.schema, q)| + 1 + |Ident(b.table, q)|;
    var k := i + n + |ColumnList(b, style)|;
    assert k + |style.overriding| + 7 == |Front(verb, b, style, kw)|;
    VerbPasses(s, verb);
    TargetPasses(s, i, b.schema, b.table, q, Between(b, style));
    ColumnsPass(s, i + n, b, style);
    EndPasses(s, k, style.overriding, kw);
  }

  /** A statement cut at its keyword. */
  lemma CutAtKeyword(front: string, pad: string, tuples: string)
    requires IsInsert(front + (pad + tuples)) && FindValues(front + (pad + tuples), 0, 0) == Some(|front|)
    requires front != "" && Upper(front[|front| - 1]) == 'S'
    requires Blank(pad) && Clean(tuples) && StartsWith(tuples, "(")
    ensures SplitInsert(front + (pad + tuples)) == Some(Cut(front, tuples))
  {
    hide FindValues, IsInsert, Clean;
    var s := front + (pad + tuples);
    assert s[..|front|] == front && s[|front|..] == pad + tuples;
    NothingToTrim(front);
    TrimStartUnique(pad, tuples);
  }

  /**
    An INSERT or REPLACE with a VALUES list, its keywords in any case, is cut right
    behind the keyword: whatever names and listed columns stand in front of it, and
    whatever clean list of rows behind it.
  */
  lemma InsertIsCut(verb: string, b: Batch, style: Style, kw: string, pad: string, tuples: string)
    requires (Spells(verb, "INSERT") || Spells(verb, "REPLACE")) && Spells(kw, "VALUES")
    requires TargetOk(b, style) && Blank(pad) && Clean(tuples) && StartsWith(tuples, "(")
    ensures SplitInsert(Front(verb, b, style, kw) + (pad + tuples)) == Some(Cut(Front(verb, b, style, kw), tuples))
  {
    var f, x := Front(verb, b, style, kw), pad + tuples;
    assert x[0] == if pad == "" then '(' else pad[0];
    FrontPasses(verb, b, style, kw, x);
    assert f[|f| - 1] == kw[5];
    FrontIs(verb, b, style, kw, x);
    CutAtKeyword(f, pad, tuples);
  }

  lemma FrontIs(verb: string, b: Batch, style: Style, kw: string, x: string)
    requires Spells(verb, "INSERT") || Spells(verb, "REPLACE")
    ensures IsInsert(Front(verb, b, style, kw) + x)
  {
    hide Ident, ColumnList, IsInsert;
    var rest := " INTO " + Ident(b.schema, style.quote) + "." + Ident(b.table, style.quote)
                + ColumnList(b, style) + style.overriding + " " + kw + x;
    assert Front(verb, b, style, kw) + x == verb + rest;
    VerbHeads(verb, rest);
  }

  lemma {:induction false} RowsIndented(rows: seq<seq<Value>>, style: Style, texts: seq<string>)
    requires rows != [] && |texts| == |rows| && forall i :: 0 <= i < |rows| ==> texts[i] == RowSql(rows[i], style)
    ensures Join(texts, ",\n") == "  " + TupleList(rows, style)
    decreases |rows|
  {
    hide Literals;
    var g, gs := Group(rows[0], style), GroupTexts(rows, style);
    assert texts[0] == "  " + g by {
      var cells := Join(Literals(rows[0], style), ", ");
      assert "  (" + cells + ")" == "  " + ("(" + cells + ")") by { assert "  (" == "  " + "("; }
    }
    assert gs[1..] == GroupTexts(rows[1..], style);
    if |rows| > 1 {
      RowsIndented(rows[1..], style, texts[1..]);
      var more := TupleList(rows[1..], style);
      assert "  " + g + ",\n" + ("  " + more) == "  " + (g + ",\n  " + more) by {
        assert ",\n  " == ",\n" + "  ";
      }
    }
  }

  /**
    What the dump writer writes for a group of rows is an insert to the importer: it is
    cut in front of its rows, and its rows are those of the group, one for one. So it is
    glued to its neighbours, and executing it executes those rows.
  */
  lemma DumpedInsertIsCut(b: Batch, style: Style, rows: seq<seq<Value>>, texts: seq<string>)
    requires TargetOk(b, style) && rows != [] && RowsOk(rows)
    requires |texts| == |rows| && forall i :: 0 <= i < |rows| ==> texts[i] == RowSql(rows[i], style)
    ensures SplitInsert(Insert(b, style, texts))
         == Some(Cut(Front("INSERT", b, style, "VALUES"), TupleList(rows, style)))
    ensures InsertSplit.Groups(TupleList(rows, style)) == GroupTexts(rows, style)
  {
    hide TargetOk, RowsOk, Clean, SplitInsert, InsertSplit.Groups, TupleList, Join, GroupTexts, Front, Prefix, RowSql;
    ListReads(rows, style);
    assert Spells("INSERT", "INSERT") && Spells("VALUES", "VALUES") && Blank("\n  ");
    InsertIsCut("INSERT", b, style, "VALUES", "\n  ", TupleList(rows, style));
    RowsIndented(rows, style, texts);
    PrefixIsFront(b, style);
    var f, t := Front("INSERT", b, style, "VALUES"), TupleList(rows, style);
    assert f + "\n" + ("  " + t) == f + ("\n  " + t) by { assert "\n  " == "\n" + "  "; }
  }

  lemma PrefixIsFront(b: Batch, style: Style)
    ensures Prefix(b, style) == Front("INSERT", b, style, "VALUES") + "\n"
  {
    hide Ident, ColumnList;
    assert "INSERT INTO " == "INSERT" + " INTO " && " VALUES\n" == " " + "VALUES" + "\n";
  }
}
