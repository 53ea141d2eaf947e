/**
  Deferral in a dump: what the deferred-index splitter (src-tauri/src/defer_index.rs)
  makes of a CREATE, the CREATE without its indexes and the ALTER that builds them, is
  still read by the importer (src-tauri/src/sql_import.rs) to its end.
*/
module DeferSettles {
  import opened Text
  import opened Splitter
  import opened ChunkIndependence
  import opened Framing
  import opened DdlScan
  import opened DdlItems
  import D = DeferIndex
  import DumpWriter

  // --------------------------------------------------------------- cutting bare texts

  /** What `c` means can depend on the next character. */
  predicate Clings(c: char) {
    IsIdent(c) || IsQuote(c) || c == '-' || c == '/'
  }

  /** `c` can change what the character before it means. */
  predicate Meets(c: char) {
    IsIdent(c) || IsQuote(c) || c == '-' || c == '*'
  }

  predicate Seam(a: string, b: string) {
    a == "" || b == "" || !Clings(a[|a| - 1]) || !Meets(b[0])
  }

  function LineAfter(lineStart: bool, a: string): bool {
    if a == "" then lineStart else a[|a| - 1] == '\n'
  }

  lemma {:induction false} SpanBare(q: char, s: string, b: bool)
    requires q != '\\' && Span(q, s).Some?
    ensures Bare(Some(q), b, s) <==> Bare(None, false, s[Span(q, s).value..])
    decreases |s|
  {
    var n := Span(q, s).value;
    if s[0] == '\\' && |s| > 1 {
      SpanBare(q, s[2..], false);
      assert s[2..][n - 2..] == s[n..];
    } else if s[0] == q {
      if |s| > 1 && s[1] == q {
        SpanBare(q, s[2..], false);
        assert s[2..][n - 2..] == s[n..];
      }
    } else {
      SpanBare(q, s[1..], false);
      assert s[1..][n - 1..] == s[n..];
    }
  }

  /** A text is bare when nothing begins at its head and the rest is bare. */
  lemma BareHead(lineStart: bool, a: string)
    requires a != "" && Sealed(a)
    ensures Bare(None, lineStart, a) <==> !Begins(lineStart, a) && Bare(None, a[0] == '\n', a[Head(a)..])
  {
    hide Begins;
    if IsQuote(a[0]) {
      SpanBare(a[0], a[1..], a[0] == '\n');
      assert a[1..][Head(a) - 1..] == a[Head(a)..];
    }
  }

  /** Over a seam nothing begins that did not begin before. */
  lemma BeginsOver(lineStart: bool, a: string, b: string)
    requires a != "" && Seam(a, b)
    ensures Begins(lineStart, a + b) <==> Begins(lineStart, a)
  {
    var all := a + b;
    assert all[0] == a[0] && (|a| > 1 ==> all[1] == a[1]);
    assert |a| == 1 && b != "" ==> all[1] == b[0];
    WordOver(a, b);
    hide AtWord;
  }

  lemma WordOver(a: string, b: string)
    requires a != "" && Seam(a, b)
    ensures AtWord(a + b, "DELIMITER") <==> AtWord(a, "DELIMITER")
  {
    var w, all := "DELIMITER", a + b;
    assert forall k :: 0 <= k < |a| ==> all[k] == a[k];
    assert forall k :: 0 <= k < 9 ==> 'A' <= w[k] <= 'Z' && Upper(w[k]) == w[k];
    if |a| <= 9 && b != "" {
      assert all[|a|] == b[0];
      if |a| < 9 && AtWord(all, w) {
        assert Upper(all[|a| - 1]) == w[|a| - 1] && Upper(all[|a|]) == w[|a|];
        UpperIdent(a[|a| - 1]);
        UpperIdent(b[0]);
        assert false;
      }
      if |a| == 9 && AtWord(a, w) {
        assert Upper(a[8]) == w[8];
        UpperIdent(a[8]);
      }
    }
  }

  lemma UpperIdent(c: char)
    ensures 'A' <= Upper(c) <= 'Z' ==> IsIdent(c)
  {
  }

  lemma HeadJoins(a: string, b: string, d: nat)
    requires a != "" && Level(a, d).Some? && Seam(a, b)
    ensures Sealed(a) && Head(a + b) == Head(a) && Sealed(a + b) && (a + b)[0] == a[0]
    ensures (a + b)[Head(a)..] == a[Head(a)..] + b
    ensures LineAfter(a[0] == '\n', a[Head(a)..]) == LineAfter(false, a)
  {
    var k := Head(a);
    DropPrefix(a, b, k);
    assert k < |a| ==> a[k..][|a| - k - 1] == a[|a| - 1];
    if IsQuote(a[0]) {
      SpanEndsInQuote(a[0], a[1..]);
      assert a[1..][k - 2] == a[k - 1] == a[0];
      if k < |a| {
        HeadWithin(a, b);
      } else {
        HeadExtends(a, b);
      }
    }
  }

  /** Two texts over a seam are bare exactly when each of them is. */
  lemma {:induction false} BareJoin(lineStart: bool, a: string, b: string, d: nat)
    requires Level(a, d).Some? && Seam(a, b)
    ensures Bare(None, lineStart, a + b) <==> Bare(None, lineStart, a) && Bare(None, LineAfter(lineStart, a), b)
    decreases |a|
  {
    if a == "" {
      assert a + b == b;
    } else {
      var k := Head(a);
      LevelGoesOn(a, d);
      HeadJoins(a, b, d);
      BareHead(lineStart, a);
      BareHead(lineStart, a + b);
      BeginsOver(lineStart, a, b);
      assert a[k..] != "" ==> a[k..][|a| - k - 1] == a[|a| - 1];
      hide Bare, Begins, Level, Head, Sealed, Shifted;
      BareJoin(a[0] == '\n', a[k..], b, Shifted(a[0], d).value);
    }
  }

  /** Inside a line less begins than at its start. */
  lemma BareInside(t: string)
    requires Bare(None, true, t)
    ensures Bare(None, false, t)
  {
  }

  // ------------------------------------------------------------------------ the items

  /** The first part, what follows it, and the other parts. */
  lemma {:induction false} FirstPart(s: string, d: nat) returns (tail: string)
    requires Level(s, d).Some?
    ensures s == Parts(s, d)[0] + tail && (tail == "" || tail[0] == ',')
    ensures Parts(s, d)[1..] == if tail == "" then [] else Parts(tail[1..], 0)
    decreases |s|
  {
    if s == "" {
      tail := "";
    } else if s[0] == ',' && d == 0 {
      tail := s;
    } else {
      LevelGoesOn(s, d);
      var k, d' := Head(s), Shifted(s[0], d).value;
      tail := FirstPart(s[k..], d');
      PartsTurn(s, k, d, d');
      var ps := Parts(s[k..], d');
      assert s == s[..k] + s[k..];
      Assoc(s[..k], ps[0], tail);
    }
  }

  lemma CommaFirst(lineStart: bool, rest: string)
    ensures Bare(None, lineStart, "," + rest) ==> Bare(None, false, rest)
    ensures Level("," + rest, 0) == Level(rest, 0)
  {
    assert ("," + rest)[1..] == rest;
  }

  lemma {:induction false} PartsBare(s: string, lineStart: bool)
    requires Level(s, 0) == Some(0) && Bare(None, lineStart, s)
    ensures forall p :: p in Parts(s, 0) ==> Bare(None, false, p)
    decreases |s|
  {
    PartsSolid(s, 0);
    var tail := FirstPart(s, 0);
    var ps := Parts(s, 0);
    hide Parts, Bare, Level;
    BareJoin(lineStart, ps[0], tail, 0);
    if lineStart {
      BareInside(ps[0]);
    }
    LevelAppend(ps[0], tail, 0);
    if tail != "" {
      assert tail == "," + tail[1..];
      CommaFirst(LineAfter(lineStart, ps[0]), tail[1..]);
      PartsBare(tail[1..], false);
    }
    assert forall p :: p in ps ==> p == ps[0] || p in ps[1..];
  }

  lemma BlankLevel(pad: string)
    requires Blank(pad)
    ensures Level(pad, 0) == Some(0)
  {
    BlankBefore(pad, "");
    assert pad + "" == pad;
  }

  lemma TrimBare(p: string)
    requires Solid(p) && Bare(None, false, p)
    ensures Bare(None, false, Trim(p))
  {
    var left, right := TrimSplits(p);
    TrimmedSolid(p);
    BlankLevel(left);
    Assoc(left, Trim(p), right);
    hide Bare, Level, Parts, Trim;
    BareJoin(false, left, Trim(p) + right, 0);
    BareJoin(LineAfter(false, left), Trim(p), right, 0);
    if LineAfter(false, left) {
      BareInside(Trim(p));
    }
  }

  lemma {:induction false} CleanedBare(ps: seq<string>)
    requires forall p :: p in ps ==> Solid(p) && Bare(None, false, p)
    ensures forall it :: it in Cleaned(ps) ==> Bare(None, false, it)
  {
    if ps != [] {
      assert ps[0] in ps && forall p :: p in ps[1..] ==> p in ps;
      CleanedBare(ps[1..]);
      TrimBare(ps[0]);
    }
  }

  /** An item and its text. */
  predicate BareItem(item: string) {
    ItemOk(item) && Bare(None, false, item)
  }

  /** The items of a bare, balanced body are bare. */
  lemma ItemsBare(body: string, lineStart: bool)
    requires Level(body, 0) == Some(0) && Bare(None, lineStart, body)
    ensures forall it :: it in Items(body) ==> BareItem(it)
  {
    ItemsOk(body);
    PartsSolid(body, 0);
    PartsBare(body, lineStart);
    var ps := Parts(body, 0);
    forall p | p in ps ensures Solid(p) {
      var i :| 0 <= i < |ps| && ps[i] == p;
    }
    CleanedBare(ps);
  }

  // ------------------------------------------------------------------ the new texts

  /** An item between what stands in front of it and what follows. */
  lemma Framed(lineStart: bool, front: string, item: string, x: string)
    requires BareItem(item) && front != "" && Level(front, 0).Some? && front[|front| - 1] == ' '
    requires Bare(None, lineStart, front) && (x == "" || !Meets(x[0])) && Bare(None, false, x)
    ensures Bare(None, lineStart, front + item + x)
  {
    Assoc(front, item, x);
    hide Bare, Level, Parts;
    BareJoin(lineStart, front, item + x, 0);
    BareJoin(false, item, x, 0);
    assert !IsSpace(item[|item| - 1]);
  }

  lemma IndentBare(lineStart: bool)
    ensures Bare(None, lineStart, "\n  ") && Bare(None, lineStart, "\n  \n") && Bare(None, lineStart, "\n")
    ensures Level("\n  ", 0) == Some(0)
  {
    BlankLevel("\n  ");
    assert "\n  "[1..] == "  " && "  "[1..] == " " && " "[1..] == "";
    assert "\n  \n"[1..] == "  \n" && "  \n"[1..] == " \n" && " \n"[1..] == "\n" && "\n"[1..] == "";
  }

  lemma LayoutText(items: seq<string>)
    requires |items| > 1
    ensures Layout(items) == "\n  " + items[0] + ("," + Layout(items[1..]))
  {
    var j := Join(items[1..], ",\n  ");
    assert "\n  " + (items[0] + ",\n  " + j) + "\n" == "\n  " + items[0] + ("," + ("\n  " + j + "\n"));
  }

  lemma {:induction false} LayoutBare(items: seq<string>, lineStart: bool)
    requires forall it :: it in items ==> BareItem(it)
    ensures Bare(None, lineStart, Layout(items))
    decreases |items|
  {
    IndentBare(lineStart);
    IndentBare(false);
    if items == [] {
      assert Layout([]) == "\n  \n";
      return;
    }
    assert items[0] in items && forall it :: it in items[1..] ==> it in items;
    if |items| == 1 {
      assert Layout(items) == "\n  " + items[0] + "\n";
      Framed(lineStart, "\n  ", items[0], "\n");
    } else {
      hide Bare, Level, BareItem, Layout;
      var tail := Layout(items[1..]);
      LayoutBare(items[1..], false);
      LayoutText(items);
      CommaBare(tail);
      assert ("," + tail)[0] == ',';
      Framed(lineStart, "\n  ", items[0], "," + tail);
    }
  }

  lemma CommaBare(rest: string)
    requires Bare(None, false, rest)
    ensures Bare(None, false, "," + rest)
  {
    assert ("," + rest)[1..] == rest;
  }

  lemma AddBare()
    ensures Bare(None, false, "ADD ") && Level("ADD ", 0) == Some(0)
    ensures Bare(None, false, " ADD ") && Level(" ADD ", 0) == Some(0)
    ensures Bare(None, true, "ALTER TABLE ") && Level("ALTER TABLE ", 0) == Some(0)
  {
    PlainFront("ADD ", false);
    PlainFront(" ADD ", false);
    PlainFront("ALTER TABLE ", true);
  }

  /** Letters and blanks, not the start of a directive. */
  lemma {:induction false} PlainFront(t: string, lineStart: bool)
    requires forall i :: 0 <= i < |t| ==> IsIdent(t[i]) || t[i] == ' '
    requires lineStart && t != "" ==> Upper(t[0]) != 'D'
    ensures Bare(None, lineStart, t) && Level(t, 0) == Some(0)
    decreases |t|
  {
    if t != "" {
      PlainFront(t[1..], false);
      assert Upper("DELIMITER"[0]) == 'D';
    }
  }

  lemma AddedText(items: seq<string>)
    requires |items| > 1
    ensures Join(D.Added(items), ", ") == "ADD " + items[0] + ("," + (" " + Join(D.Added(items[1..]), ", ")))
  {
    assert D.Added(items)[1..] == D.Added(items[1..]);
    var j := Join(D.Added(items[1..]), ", ");
    assert "ADD " + items[0] + ", " + j == "ADD " + items[0] + ("," + (" " + j));
  }

  lemma EndsTight(front: string, last: string, j: string)
    requires j == front + last && last != "" && !IsSpace(last[|last| - 1])
    ensures j != "" && !IsSpace(j[|j| - 1])
  {
  }

  lemma AddedOne(item: string)
    ensures Join(D.Added([item]), ", ") == "ADD " + item + ""
  {
  }

  /** One more item in front of what is bare already. */
  lemma AddedMore(add: string, item: string, more: string)
    requires BareItem(item) && add != "" && add[|add| - 1] == ' ' && Level(add, 0).Some? && Bare(None, false, add)
    requires Bare(None, false, more) && more != "" && !IsSpace(more[|more| - 1])
    ensures var j := add + item + ("," + (" " + more)); Bare(None, false, j) && j != "" && !IsSpace(j[|j| - 1])
  {
    var tail := "," + (" " + more);
    SpaceBare(more);
    CommaBare(" " + more);
    assert tail[0] == ',' && tail[|tail| - 1] == more[|more| - 1];
    hide Bare, Level, BareItem, IsSpace;
    Framed(false, add, item, tail);
    assert (add + item + tail)[|add + item + tail| - 1] == tail[|tail| - 1];
  }

  lemma {:induction false} AddedBare(items: seq<string>)
    requires items != [] && forall it :: it in items ==> BareItem(it)
    ensures var j := Join(D.Added(items), ", "); Bare(None, false, j) && j != "" && !IsSpace(j[|j| - 1])
  {
    assert items[0] in items && forall it :: it in items[1..] ==> it in items;
    AddBare();
    if |items| == 1 {
      assert Bare(None, false, "") && !IsSpace(items[0][|items[0]| - 1]) && items == [items[0]];
      AddedOne(items[0]);
      hide Bare, Level, BareItem, Join, D.Added;
      Framed(false, "ADD ", items[0], "");
      EndsTight("ADD ", items[0], "ADD " + items[0] + "");
    } else {
      AddedBare(items[1..]);
      AddedText(items);
      hide Bare, Level, BareItem, Join, D.Added, IsSpace;
      AddedMore("ADD ", items[0], Join(D.Added(items[1..]), ", "));
    }
  }

  lemma SpaceBare(rest: string)
    requires Bare(None, false, rest)
    ensures Bare(None, false, " " + rest)
  {
    assert (" " + rest)[1..] == rest;
  }

  /** A quoted table name. */
  predicate NameOk(table: string) {
    table != "" && Level(table, 0).Some? && Bare(None, false, table)
  }

  lemma FrontTableTail(front: string, table: string, tail: string)
    requires Bare(None, true, front) && Level(front, 0).Some? && front != "" && front[|front| - 1] == ' '
    requires NameOk(table) && tail != "" && tail[0] == ' ' && Bare(None, LineAfter(false, table), tail)
    ensures Bare(None, true, front + table + tail)
  {
    hide Bare, Level;
    Assoc(front, table, tail);
    BareJoin(false, table, tail, 0);
    BareJoin(true, front, table + tail, 0);
  }

  lemma AlterBare(table: string, j: string)
    requires NameOk(table) && Bare(None, false, j)
    ensures Bare(None, true, "ALTER TABLE " + table + " " + j)
  {
    AddBare();
    SpaceBare(j);
    BareAfterName(LineAfter(false, table), j);
    hide Bare, Level, NameOk;
    FrontTableTail("ALTER TABLE ", table, " " + j);
    Assoc("ALTER TABLE " + table, " ", j);
  }

  /** The statement that builds the deferred indexes is read as it stands. */
  lemma AlterSettles(table: string, items: seq<string>)
    requires NameOk(table) && items != [] && forall it :: it in items ==> BareItem(it)
    ensures var text := "ALTER TABLE " + table + " " + Join(D.Added(items), ", ");
            Settles(text) && FreeTexts(text) == [text]
  {
    var j := Join(D.Added(items), ", ");
    var text := "ALTER TABLE " + table + " " + j;
    AddedBare(items);
    AlterBare(table, j);
    hide Bare, NameOk, Join, Settles, FreeTexts, BareItem;
    EndsTight("ALTER TABLE " + table + " ", j, text);
    assert text[0] == 'A';
    WholeIff(text);
  }

  /** A blank and text that does not look like a directive are bare at the start of a line too. */
  lemma BareAfterName(lineStart: bool, j: string)
    requires Bare(None, false, " " + j)
    ensures Bare(None, lineStart, " " + j)
  {
    assert Upper(' ') != Upper("DELIMITER"[0]);
  }

  // ----------------------------------------------------- the CREATE behind its list

  lemma SameTurnAny(buf: string, quote: Option<char>, text: string, rest: string)
    requires text != "" && text[|text| - 1] == ')' && (quote.Some? ==> IsQuote(quote.value))
    requires Bite(quote, text).0 <= |text|
    ensures Step(Inside(buf, quote), text + rest) == Step(Inside(buf, quote), text + ";")
  {
    var a, b := text + rest, text + ";";
    assert forall k :: 0 <= k < |text| ==> a[k] == text[k] == b[k];
    WordOver(text, rest);
    WordOver(text, ";");
    hide AtWord, LineStart, Flushed;
  }

  lemma BareOnAny(buf: string, quote: Option<char>, text: string, rest: string)
    requires text != "" && text[|text| - 1] == ')' && (quote.Some? ==> IsQuote(quote.value))
    requires Bite(quote, text).0 <= |text| && (quote.None? ==> !Begins(LineStart(buf), text))
    ensures var (n, next) := Bite(quote, text);
            Scan(Inside(buf, quote), text + rest, 0) == Scan(Inside(buf + text[..n], next), text[n..] + rest, 0)
  {
    var (n, next) := Bite(quote, text);
    BareStep(buf, quote, text);
    SameTurnAny(buf, quote, text, rest);
    hide Scan, Step, Begins, LineStart, Bite;
    DropPrefix(text, rest, n);
    QuietTurn(Inside(buf, quote), text + rest, 0, Inside(buf + text[..n], next), n);
  }

  /** A bare text that ends in a parenthesis goes into the buffer whatever follows it. */
  lemma {:induction false} BareReadsOn(buf: string, quote: Option<char>, text: string, rest: string)
    requires Bare(quote, LineStart(buf), text) && (quote.Some? ==> IsQuote(quote.value))
    requires text == "" || text[|text| - 1] == ')'
    ensures Scan(Inside(buf, quote), text + rest, 0) == Scan(Inside(buf + text, None), rest, 0)
    decreases |text|
  {
    if text == "" {
      assert text + rest == rest && buf + text == buf;
    } else {
      var (n, next) := Bite(quote, text);
      BareTurn(buf, quote, text);
      BareOnAny(buf, quote, text, rest);
      assert 1 <= n <= |text| && (next.Some? ==> IsQuote(next.value));
      assert text[n..] != "" ==> text[n..][|text| - n - 1] == text[|text| - 1];
      hide *;
      BareReadsOn(buf + text[..n], next, text[n..], rest);
      assert text == text[..n] + text[n..];
      Assoc(buf, text[..n], text[n..]);
    }
  }

  /** Two fronts of a buffer that look alike to the scanner. */
  predicate Fronts(x: string, y: string) {
    x != "" && y != "" && x[|x| - 1] == ')' && y[|y| - 1] == ')'
  }

  /** The same items, but for the text of a statement. */
  predicate Alike(a: seq<Item>, b: seq<Item>) {
    |a| == |b| && forall i :: 0 <= i < |a| ==> (a[i].Stmt? <==> b[i].Stmt?)
  }

  lemma NothingLeft(s: string)
    requires Trim(s) == ""
    ensures Blank(s)
  {
    var left, right := TrimSplits(s);
    assert left + "" + right == left + right;
  }

  lemma SomethingLeft(s: string, i: nat)
    requires i < |s| && !IsSpace(s[i])
    ensures Trim(s) != ""
  {
    if Trim(s) == "" {
      NothingLeft(s);
    }
  }

  lemma FrontFlushed(x: string, z: string)
    requires x != "" && x[|x| - 1] == ')'
    ensures |Flushed(x + z)| == 1 && Flushed(x + z)[0].Stmt?
  {
    assert (x + z)[|x| - 1] == ')';
    SomethingLeft(x + z, |x| - 1);
  }

  lemma FrontTurn(x: string, y: string, st: State, a: string)
    requires Fronts(x, y) && st.delim != "" && a != ""
    ensures var p, r := Step(Padded(x, st), a), Step(Padded(y, st), a);
            && p.n == r.n && Alike(p.items, r.items)
            && (p.st == r.st || exists u :: p.st == Padded(x, u) && r.st == Padded(y, u) && u.delim != "")
  {
    var t := Step(st, a);
    FrontFlushed(x, st.buf);
    FrontFlushed(y, st.buf);
    assert LineStart(x + st.buf) == LineStart(y + st.buf) by {
      assert x + "" == x && y + "" == y;
    }
    match st.mode
    case Normal => FrontNormal(x, y, st, a);
    case Quote(_) =>
      PaddedQuote(x, st, a);
      PaddedQuote(y, st, a);
      assert t.st.delim != "";
    case Line => FrontOther(x, y, st, a);
    case Block => FrontOther(x, y, st, a);
    case Delim => FrontOther(x, y, st, a);
  }

  lemma FrontOther(x: string, y: string, st: State, a: string)
    requires (st.mode.Line? || st.mode.Block? || st.mode.Delim?) && st.delim != "" && a != ""
    ensures var p, r, t := Step(Padded(x, st), a), Step(Padded(y, st), a), Step(st, a);
            p == Turn(Padded(x, t.st), t.n, t.items) && r == Turn(Padded(y, t.st), t.n, t.items) && t.st.delim != ""
  {
    PaddedOther(x, st, a);
    PaddedOther(y, st, a);
  }

  lemma FrontNormal(x: string, y: string, st: State, a: string)
    requires st.mode.Normal? && st.delim != "" && a != ""
    requires |Flushed(x + st.buf)| == 1 == |Flushed(y + st.buf)|
    requires Flushed(x + st.buf)[0].Stmt? && Flushed(y + st.buf)[0].Stmt?
    requires LineStart(x + st.buf) == LineStart(y + st.buf)
    ensures var p, r := Step(Padded(x, st), a), Step(Padded(y, st), a);
            && p.n == r.n && Alike(p.items, r.items)
            && (p.st == r.st || exists u :: p.st == Padded(x, u) && r.st == Padded(y, u) && u.delim != "")
  {
    hide Flushed, AtWord, At, LineStart;
    var p, r := StepNormal(Padded(x, st), a), StepNormal(Padded(y, st), a);
    Assoc(x, st.buf, [a[0]]);
    Assoc(y, st.buf, [a[0]]);
    if p.st != r.st {
      var u := p.st.(buf := if |p.st.buf| == |x + st.buf| then st.buf else st.buf + [a[0]]);
      assert p.st == Padded(x, u) && r.st == Padded(y, u);
    }
  }

  /** With another text in front of it, a scan ends alike. */
  lemma {:induction false} FrontScan(x: string, y: string, st: State, a: string)
    requires Fronts(x, y) && st.delim != ""
    ensures var p, r := Scan(Padded(x, st), a, 0), Scan(Padded(y, st), a, 0);
            && Alike(p.items, r.items)
            && (p.st == r.st || (p.st.buf != "" && r.st.buf != ""))
    decreases |a|, if st.mode.Line? then 1 else 0
  {
    if a != "" {
      var p, r := Step(Padded(x, st), a), Step(Padded(y, st), a);
      FrontTurn(x, y, st, a);
      assert p.n == 0 ==> Padded(x, st).mode.Line? && p.st.mode.Normal?;
      hide Step, Fronts;
      if p.st != r.st {
        var u :| p.st == Padded(x, u) && r.st == Padded(y, u) && u.delim != "";
        FrontScan(x, y, u, a[p.n..]);
      } else {
        assert Alike(Scan(p.st, a[p.n..], 0).items, Scan(r.st, a[p.n..], 0).items);
      }
      AlikeAppend(p.items, r.items, Scan(p.st, a[p.n..], 0).items, Scan(r.st, a[p.n..], 0).items);
    }
  }

  lemma AlikeAppend(a: seq<Item>, b: seq<Item>, c: seq<Item>, d: seq<Item>)
    requires Alike(a, b) && Alike(c, d)
    ensures Alike(a + c, b + d)
  {
  }

  /** Reading a bare text that ends in a parenthesis, and then the rest. */
  lemma FrontReads(x: string, rest: string)
    requires x != "" && x[|x| - 1] == ')' && Bare(None, true, x)
    ensures Reading(x + rest) == Scan(Padded(x, Between("")), rest + ";", 0)
  {
    Assoc(x, rest, ";");
    assert LineStart("") && Between("") == Inside("", None);
    BareReadsOn("", None, x, rest + ";");
    assert "" + x == x && x + "" == x;
    assert Padded(x, Between("")) == Inside(x, None);
  }

  /** Behind bare texts that end in a parenthesis, what follows settles alike. */
  lemma FrontSettles(x: string, y: string, rest: string)
    requires Fronts(x, y) && Bare(None, true, x) && Bare(None, true, y) && Settles(x + rest)
    ensures Settles(y + rest) && |FreeTexts(y + rest)| == |FreeTexts(x + rest)|
  {
    FrontReads(x, rest);
    FrontReads(y, rest);
    FrontScan(x, y, Between(""), rest + ";");
    hide Scan, Bare, Fronts, Padded, Reading;
    AllTexts(Reading(x + rest).items);
    AllTexts(Reading(y + rest).items);
  }

  lemma {:induction false} AllTexts(items: seq<Item>)
    requires forall i :: 0 <= i < |items| ==> items[i].Stmt?
    ensures |StmtTexts(items)| == |items|
  {
    if items != [] {
      AllTexts(items[1..]);
    }
  }

  // --------------------------------------------------------------------- the theorem

  /** Up to its first parenthesis a text is level. */
  lemma {:induction false} OpenLevel(s: string, o: nat)
    requires FindOpen(s) == Some(o)
    ensures o < |s| && s[o] == '(' && Level(s[..o + 1], 0).Some?
    decreases |s|
  {
    if s[0] == '(' {
      assert s[..1] == "(" && "("[1..] == "";
    } else {
      var k := Head(s);
      OpenTurn(s, o);
      assert Shifted(s[0], 0) == Some(0);
      hide FindOpen, Level, Head, Sealed, Shifted;
      OpenLevel(s[k..], o - k);
      HeadCut(s, o + 1);
      assert s[..o + 1][k..] == s[k..][..o - k + 1];
      LevelTurn(s[..o + 1], k, 0, 0);
    }
  }

  /** What stands in front of the list and in it, where the whole is bare up to the end of the list. */
  lemma ListBare(ddl: string, p: Pair)
    requires D.OpensFirst(ddl) && D.HasParens(ddl, p) && p.open < p.close < |ddl|
    requires Bare(None, true, ddl[..p.close + 1])
    ensures var head := ddl[..p.open + 1];
            head[|head| - 1] == '(' && Level(head, 0).Some? && Bare(None, true, head)
    ensures forall it :: it in D.ItemsOf(ddl, p) ==> BareItem(it)
  {
    var head, body := ddl[..p.open + 1], ddl[p.open + 1..p.close];
    D.BodyBalanced(ddl, p);
    OpenLevel(ddl, p.open);
    assert head[|head| - 1] == '(' && ddl[..p.close + 1] == head + (body + ")");
    assert Level(body, 0) == Some(0) && D.ItemsOf(ddl, p) == Items(body);
    InsideBare(head, body);
    ItemsBare(body, false);
  }

  lemma InsideBare(head: string, body: string)
    requires head != "" && head[|head| - 1] == '(' && Level(head, 0).Some? && Level(body, 0).Some?
    requires Bare(None, true, head + (body + ")"))
    ensures Bare(None, true, head) && Bare(None, false, body)
  {
    hide Bare, Level;
    BareJoin(true, head, body + ")", 0);
    BareJoin(false, body, ")", 0);
  }

  /** The CREATE up to the end of its list, with another list in it. */
  lemma NewListBare(head: string, kept: seq<string>)
    requires head != "" && head[|head| - 1] == '(' && Level(head, 0).Some? && Bare(None, true, head)
    requires forall it :: it in kept ==> BareItem(it)
    ensures Bare(None, true, head + Layout(kept) + ")")
  {
    LayoutItems(kept);
    LayoutBare(kept, false);
    ClosedBare(head, Layout(kept));
  }

  lemma ClosedBare(head: string, list: string)
    requires head != "" && head[|head| - 1] == '(' && Level(head, 0).Some? && Level(list, 0).Some?
    requires Bare(None, true, head) && Bare(None, false, list)
    ensures Bare(None, true, head + list + ")")
  {
    hide Bare, Level;
    ParenAnywhere(LineAfter(false, list));
    Assoc(head, list, ")");
    BareJoin(false, list, ")", 0);
    BareJoin(true, head, list + ")", 0);
  }

  lemma ParenAnywhere(lineStart: bool)
    ensures Bare(None, lineStart, ")")
  {
  }

  /** A statement with its `;`, read as the one statement it is. */
  predicate EndsWhole(d: string) {
    && d != "" && d[|d| - 1] == ';'
    && Settles(d[..|d| - 1]) && FreeTexts(d[..|d| - 1]) == [d[..|d| - 1]]
  }

  lemma TextEnds(text: string)
    requires Settles(text) && FreeTexts(text) == [text]
    ensures EndsWhole(text + ";")
  {
    assert (text + ";")[..|text + ";"| - 1] == text;
  }

  /**
    A CREATE that settles, whose part up to the end of its list is bare and opens first:
    with its indexes deferred it still settles, as as many statements, and each ALTER
    is read, without its own `;`, as the one statement it is.
  */
  lemma DeferralSettles(ddl: string, table: string)
    requires Settles(ddl) && NameOk(table)
    requires Outer(ddl).Some? ==> D.OpensFirst(ddl) && Bare(None, true, ddl[..Outer(ddl).value.close + 1])
    ensures var r := D.SplitMysql(ddl, table);
            && Settles(r.create) && |FreeTexts(r.create)| == |FreeTexts(ddl)|
            && forall d :: d in r.deferred ==> EndsWhole(d)
  {
    if D.SplitMysql(ddl, table).deferred == [] {
      NoneDeferred(ddl, table);
    } else {
      Deferred(ddl, table, Outer(ddl).value);
    }
  }

  lemma NoneDeferred(ddl: string, table: string)
    requires D.SplitMysql(ddl, table).deferred == []
    ensures D.SplitMysql(ddl, table).create == ddl
  {
    hide Join, D.Added, D.KeptBy, D.DeferredBy, D.Rewritten;
  }

  lemma Deferred(ddl: string, table: string, p: Pair)
    requires Settles(ddl) && NameOk(table) && Outer(ddl) == Some(p) && D.SplitMysql(ddl, table).deferred != []
    requires D.OpensFirst(ddl) && Bare(None, true, ddl[..p.close + 1])
    ensures var r := D.SplitMysql(ddl, table);
            && Settles(r.create) && |FreeTexts(r.create)| == |FreeTexts(ddl)|
            && forall d :: d in r.deferred ==> EndsWhole(d)
  {
    SplitIs(ddl, table, p);
    hide *;
    var items := D.ItemsOf(ddl, p);
    var kept, later := D.KeptBy(ddl, p), D.DeferredBy(ddl, p);
    ListBare(ddl, p);
    SortedBare(ddl, p);
    AlterSettles(table, later);
    CreateSettles(ddl, p, kept);
    TextEnds("ALTER TABLE " + table + " " + Join(D.Added(later), ", "));
  }

  lemma SortedBare(ddl: string, p: Pair)
    requires p.open < p.close < |ddl| && forall it :: it in D.ItemsOf(ddl, p) ==> BareItem(it)
    ensures forall it :: it in D.KeptBy(ddl, p) ==> BareItem(it)
    ensures forall it :: it in D.DeferredBy(ddl, p) ==> BareItem(it)
  {
    var items := D.ItemsOf(ddl, p);
    hide BareItem, D.ItemsOf, D.FkCols;
    SplitBare(items, D.FkCols(items));
  }

  /** A split that defers something, in parts. */
  lemma SplitIs(ddl: string, table: string, p: Pair)
    requires D.SplitMysql(ddl, table).deferred != [] && Outer(ddl) == Some(p)
    ensures p.open < p.close < |ddl| && D.HasParens(ddl, p) && D.DeferredBy(ddl, p) != []
    ensures var r := D.SplitMysql(ddl, table);
            && r.create == D.Rewritten(ddl, p, D.KeptBy(ddl, p))
            && r.deferred == ["ALTER TABLE " + table + " " + Join(D.Added(D.DeferredBy(ddl, p)), ", ") + ";"]
  {
    hide Join, D.Added, D.KeptBy, D.DeferredBy, D.Rewritten;
  }

  lemma CreateSettles(ddl: string, p: Pair, kept: seq<string>)
    requires Settles(ddl) && D.OpensFirst(ddl) && D.HasParens(ddl, p) && p.open < p.close < |ddl|
    requires Bare(None, true, ddl[..p.close + 1]) && forall it :: it in kept ==> BareItem(it)
    ensures var create := D.Rewritten(ddl, p, kept); Settles(create) && |FreeTexts(create)| == |FreeTexts(ddl)|
  {
    var head, x, rest := ddl[..p.open + 1], ddl[..p.close + 1], ddl[p.close + 1..];
    var y := head + Layout(kept) + ")";
    D.BodyBalanced(ddl, p);
    ListBare(ddl, p);
    NewListBare(head, kept);
    hide Settles, FreeTexts, Bare, Layout, BareItem, D.OpensFirst, D.HasParens, Level;
    assert ddl == x + rest && ddl[p.close..] == ")" + rest && x[|x| - 1] == ')' && y[|y| - 1] == ')';
    assert D.Rewritten(ddl, p, kept) == y + rest;
    FrontSettles(x, y, rest);
  }

  lemma {:induction false} SplitBare(items: seq<string>, fk: seq<seq<string>>)
    requires forall it :: it in items ==> BareItem(it)
    ensures forall it :: it in D.KeptOf(items, fk) ==> BareItem(it)
    ensures forall it :: it in D.DeferredOf(items, fk) ==> BareItem(it)
  {
    if items != [] {
      assert items[0] in items && forall it :: it in items[1..] ==> it in items;
      TrimPadded("", items[0], "");
      assert "" + items[0] + "" == items[0];
      SplitBare(items[1..], fk);
    }
  }

  /**
    With a comment in the list the condition is needed: an item such as `KEY(a)#` takes
    its comment along to the end of the ALTER, where it takes the `;`.
  */
  lemma CommentTakesEnd(alter: string)
    requires alter != "" && alter[|alter| - 1] == ')' && Bare(None, true, alter)
    ensures !Settles(alter + "#")
  {
    FrontReads(alter, "#");
    var st := Padded(alter, Between(""));
    assert "#" + ";" == "#;" && "#;"[1..] == ";" && ";"[1..] == "" && Upper('#') != Upper("DELIMITER"[0]);
    var t := Step(st, "#;");
    assert t.st.mode.Line? && t.n == 1;
    var u := Step(t.st, ";");
    assert u.st.mode.Line? && u.n == 1 && Scan(u.st, "", 0).st == u.st;
    assert Scan(t.st, ";", 0).st == u.st;
  }

  /** A quoted identifier whose backslashes pair up is a table name. */
  lemma IdentIsName(name: string, q: char)
    requires IsQuote(q) && DumpWriter.IdentOk(name, q)
    ensures NameOk(DumpWriter.Ident(name, q))
  {
    var body := Double(name, q) + [q];
    var s := [q] + body;
    assert s == DumpWriter.Ident(name, q) && s[1..] == body;
    DumpWriter.IdentSpanIff(name, q, " ");
    SpanCut(q, body + " ", |body|);
    assert (body + " ")[..|body|] == body;
    assert Head(s) == |s| && s[|s|..] == "" && Sealed(s);
    BareHead(false, s);
  }
}
