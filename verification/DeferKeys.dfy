/**
  What the deferred-index splitter does to a CREATE TABLE that is written down item by
  item (src-tauri/src/defer_index.rs): which keys move to the ALTER is said on the
  columns of the keys and of the foreign keys, and the two statements on their texts.
*/
module DeferKeys {
  import opened Text
  import opened DdlScan
  import opened DdlItems
  import opened DeferIndex

  // ------------------------------------------------------------------ what is written

  /** A column of a key: its name, plain or in backticks, perhaps a prefix length, perhaps an order. */
  datatype Column = Column(name: string, quoted: bool, prefix: Option<nat>, order: string)

  /** What stands in a column list. `back` is what follows the columns of a key. */
  datatype Item =
    | Key(word: string, name: Option<string>, cols: seq<Column>, back: string)
    | Foreign(constraint: Option<string>, cols: seq<Column>, back: string)
    | Other(text: string)

  predicate PlainChar(c: char) {
    !IsQuote(c) && !IsSpace(c) && c != '(' && c != ')' && c != ',' && c != '\\'
  }

  predicate PlainName(name: string) {
    name != "" && forall i :: 0 <= i < |name| ==> PlainChar(name[i])
  }

  /** A name that can stand in backticks as it is. */
  predicate QuotedName(name: string) {
    forall i :: 0 <= i < |name| ==> name[i] != '`' && name[i] != '\\'
  }

  /** Words without quotes and parentheses. */
  predicate Words(t: string) {
    forall i :: 0 <= i < |t| ==> !IsQuote(t[i]) && t[i] != '(' && t[i] != ')'
  }

  function Core(c: Column): string {
    if c.quoted then "`" + c.name + "`" else c.name
  }

  function ColumnText(c: Column): string {
    Core(c) + (match c.prefix case Some(n) => "(" + Digits(n) + ")" case None => "") + c.order
  }

  predicate ColumnOk(c: Column) {
    PlainName(c.name) && (c.order == "" || Spells(c.order, " ASC") || Spells(c.order, " DESC"))
  }

  function Names(cols: seq<Column>): (r: seq<string>)
    ensures |r| == |cols| && forall i :: 0 <= i < |cols| ==> r[i] == cols[i].name
  {
    seq(|cols|, i requires 0 <= i < |cols| => cols[i].name)
  }

  function ColumnTexts(cols: seq<Column>): (r: seq<string>)
    ensures |r| == |cols| && forall i :: 0 <= i < |cols| ==> r[i] == ColumnText(cols[i])
  {
    seq(|cols|, i requires 0 <= i < |cols| => ColumnText(cols[i]))
  }

  /** A name in backticks between words, or just the words. */
  function Labelled(front: string, name: Option<string>, back: string): string {
    front + (match name case Some(n) => "`" + n + "`" case None => "") + back
  }

  /** What stands in front of the columns. */
  function Front(it: Item): string
    requires !it.Other?
  {
    match it
    case Key(word, name, _, _) =>
      if name.None? then word else Labelled(word + " ", name, " ")
    case Foreign(name, _, _) =>
      if name.None? then "FOREIGN KEY " else Labelled("CONSTRAINT ", name, " FOREIGN KEY ")
  }

  function ItemText(it: Item): string {
    if it.Other? then it.text else Front(it) + "(" + Join(ColumnTexts(it.cols), ",") + ")" + it.back
  }

  function ItemTexts(its: seq<Item>): (r: seq<string>)
    ensures |r| == |its| && forall i :: 0 <= i < |its| ==> r[i] == ItemText(its[i])
  {
    seq(|its|, i requires 0 <= i < |its| => ItemText(its[i]))
  }

  /** The words that begin a secondary index. */
  predicate KeyWord(w: string) {
    || Spells(w, "KEY") || Spells(w, "INDEX")
    || Spells(w, "FULLTEXT") || Spells(w, "FULLTEXT KEY") || Spells(w, "FULLTEXT INDEX")
    || Spells(w, "SPATIAL") || Spells(w, "SPATIAL KEY") || Spells(w, "SPATIAL INDEX")
  }

  predicate Opens(text: string, word: string) {
    |text| >= |word| && Spells(text[..|word|], word)
  }

  /** Columns, primary and unique keys, and constraints that are no foreign keys. */
  predicate OtherOk(text: string) {
    || (text != "" && text[0] == '`') || Opens(text, "PRIMARY") || Opens(text, "UNIQUE")
    || (Opens(text, "CONSTRAINT")
        && forall i :: 0 <= i <= |text| ==> !Opens(text[i..], "FOREIGN KEY"))
  }

  /** An item a server prints: balanced, trimmed, its commas inside parentheses or quotes. */
  predicate Printed(it: Item) {
    && ItemOk(ItemText(it))
    && match it
       case Key(word, name, cols, _) =>
         KeyWord(word) && (name.Some? ==> QuotedName(name.value)) && cols != [] && forall c :: c in cols ==> ColumnOk(c)
       case Foreign(constraint, cols, _) =>
         (constraint.Some? ==> QuotedName(constraint.value)) && cols != [] && forall c :: c in cols ==> ColumnOk(c)
       case Other(text) => OtherOk(text)
  }

  // ------------------------------------------------------------------- what is meant

  /** Some foreign key's columns are the leftmost columns of the key. */
  predicate Backs(it: Item, its: seq<Item>) {
    it.Key? && exists f :: f in its && f.Foreign? && Names(f.cols) <= Names(it.cols)
  }

  /** The keys that are built after the load. */
  predicate Moves(it: Item, its: seq<Item>) {
    it.Key? && !Backs(it, its)
  }

  function Staying(its: seq<Item>, all: seq<Item>): seq<string> {
    if its == [] then [] else (if Moves(its[0], all) then [] else [ItemText(its[0])]) + Staying(its[1..], all)
  }

  function Moving(its: seq<Item>, all: seq<Item>): seq<string> {
    if its == [] then [] else (if Moves(its[0], all) then [ItemText(its[0])] else []) + Moving(its[1..], all)
  }

  // -------------------------------------------------------------------- one column

  lemma SpellsUpper(text: string, word: string)
    requires Spells(text, word) && forall i :: 0 <= i < |word| ==> Upper(word[i]) == word[i]
    ensures UpperAll(text) == word
  {
  }

  lemma CoreIs(c: Column)
    requires ColumnOk(c)
    ensures Tight(Core(c)) && StripMarks(Core(c)) == c.name
    ensures forall i :: 0 <= i < |Core(c)| ==> !IsSpace(Core(c)[i]) && Core(c)[i] != '('
  {
    var n := c.name;
    assert StripMarks(n) == n;
    if c.quoted {
      var t := "`" + n + "`";
      assert t[1..] == n + "`" && (n + "`")[..|n|] == n && (n + "`")[0] == n[0];
      assert StripMarks(n + "`") == StripMarks(n);
    }
  }

  lemma TrimEndTight(s: string)
    requires Tight(s)
    ensures TrimEnd(s) == s && Trim(s) == s && TrimStart(s) == s
  {
  }

  /** Where a text has no blank there is no order to cut off. */
  lemma NoOrder(s: string)
    requires forall i :: 0 <= i < |s| ==> !IsSpace(s[i])
    ensures OrderOff(s) == s
  {
    var u := UpperAll(s);
    if |u| >= 4 {
      assert u[|u| - 4..][0] == Upper(s[|s| - 4]) != ' ';
    }
    if |u| >= 5 {
      assert u[|u| - 5..][0] == Upper(s[|s| - 5]) != ' ';
    }
  }

  lemma AscendingCut(core: string, order: string)
    requires Tight(core) && Spells(order, " ASC")
    ensures Tight(core + order) && OrderOff(core + order) == core
  {
    TrimEndTight(core);
    UpperJoins(core, order);
    SpellsUpper(order, " ASC");
    assert (core + order)[..|core|] == core;
    hide UpperAll, TrimEnd, Spells;
  }

  lemma DescendingCut(core: string, order: string)
    requires Tight(core) && Spells(order, " DESC")
    ensures Tight(core + order) && OrderOff(core + order) == core
  {
    TrimEndTight(core);
    UpperJoins(core, order);
    SpellsUpper(order, " DESC");
    LastFour(UpperAll(core));
    assert (core + order)[..|core|] == core;
    hide UpperAll, TrimEnd, Spells;
  }

  /** An order is cut off, in any case. */
  lemma OrderCut(core: string, order: string)
    requires Tight(core) && (Spells(order, " ASC") || Spells(order, " DESC"))
    ensures Tight(core + order) && OrderOff(core + order) == core
  {
    hide OrderOff, Spells;
    if Spells(order, " ASC") {
      AscendingCut(core, order);
    } else {
      DescendingCut(core, order);
    }
  }

  lemma UpperJoins(a: string, b: string)
    ensures UpperAll(a + b) == UpperAll(a) + UpperAll(b)
  {
  }

  lemma LastFour(u: string)
    ensures !EndsWith(u + " DESC", " ASC")
  {
    assert (u + " DESC")[|u| + 1..] == "DESC" && "DESC"[0] == 'D';
  }

  /** A prefix length and what follows it are cut off. */
  lemma PrefixCut(core: string, tail: string)
    requires Tight(core) && forall i :: 0 <= i < |core| ==> core[i] != '('
    requires tail != "" && tail[0] == '(' && !IsSpace(tail[|tail| - 1])
    ensures var t := core + tail;
            Tight(t) && Trim(t) == t && PrefixOff(t) == core
  {
    var t := core + tail;
    assert forall i :: 0 <= i < |core| ==> t[i] == core[i];
    assert t[|core|] == '(' && t[|t| - 1] == tail[|tail| - 1];
    var found := FindFirst(t, c => c == '(');
    assert found == Some(|core|);
    assert t[..|core|] == core;
    TrimEndTight(core);
    TrimEndTight(t);
  }

  lemma NoPrefix(t: string)
    requires Tight(t) && forall i :: 0 <= i < |t| ==> t[i] != '('
    ensures Trim(t) == t && PrefixOff(t) == t
  {
    TrimEndTight(t);
    var found := FindFirst(t, c => c == '(');
    assert found == None;
  }

  /** A column is its name and what follows that. */
  lemma ColumnParts(c: Column)
    requires ColumnOk(c)
    ensures ColumnText(c) == Core(c) + match c.prefix
                                       case Some(n) => "(" + Digits(n) + ")" + c.order
                                       case None => c.order
    ensures c.order == "" || !IsSpace(c.order[|c.order| - 1])
    ensures forall i :: 0 <= i < |c.order| ==> c.order[i] != '('
  {
    match c.prefix
    case Some(n) => Assoc(Core(c), "(" + Digits(n) + ")", c.order);
    case None => assert Core(c) + "" + c.order == Core(c) + c.order;
  }

  /** However a column is written, its name comes out. */
  lemma ColumnReads(c: Column)
    requires ColumnOk(c)
    ensures Tight(ColumnText(c)) && NormalizeCol(ColumnText(c)) == c.name
  {
    var core, t := Core(c), ColumnText(c);
    CoreIs(c);
    ColumnParts(c);
    NoOrder(core);
    hide StripMarks, OrderOff, PrefixOff, Core, Trim, ColumnText, UpperAll, Digits;
    match c.prefix
    case Some(n) =>
      var tail := "(" + Digits(n) + ")" + c.order;
      assert tail[|tail| - 1] == if c.order == "" then ')' else c.order[|c.order| - 1];
      PrefixCut(core, tail);
    case None =>
      if c.order == "" {
        assert t == core;
      } else {
        OrderCut(core, c.order);
      }
      NoPrefix(t);
  }

  // -------------------------------------------------------------------- column lists

  lemma {:induction false} WordsSolid(t: string, d: nat)
    requires Words(t) && (d == 0 ==> ',' !in t)
    ensures Level(t, d) == Some(d) && Parts(t, d) == [t]
    decreases |t|
  {
    if t != "" {
      WordsSolid(t[1..], d);
      assert t[..1] + t[1..] == t;
    }
  }

  lemma {:induction false} SpanOfName(n: string, x: string)
    requires QuotedName(n) && (x == "" || x[0] != '`')
    ensures Span('`', n + "`" + x) == Some(|n| + 1)
    decreases |n|
  {
    if n == "" {
      assert n + "`" + x == "`" + x;
    } else {
      assert (n + "`" + x)[1..] == n[1..] + "`" + x;
      SpanOfName(n[1..], x);
    }
  }

  /** A quoted name is taken in one step. */
  lemma NameHead(n: string, x: string)
    requires QuotedName(n) && (x == "" || x[0] != '`')
    ensures var t := "`" + n + "`" + x;
            t[0] == '`' && Head(t) == |n| + 2 && Sealed(t) && t[..|n| + 2] == "`" + n + "`" && t[|n| + 2..] == x
  {
    SpanOfName(n, x);
    var t := "`" + n + "`" + x;
    assert t[1..] == n + "`" + x;
  }

  lemma NameSolid(n: string)
    requires QuotedName(n)
    ensures Solid("`" + n + "`")
  {
    NameHead(n, "");
    var t := "`" + n + "`";
    assert t + "" == t;
    assert Glue(t, [""]) == [t] by { assert t + "" == t; }
  }

  lemma SolidAppend(a: string, x: string)
    requires Solid(a) && Solid(x) && Apart(x)
    ensures Solid(a + x)
  {
    hide Level, Parts;
    LevelAppend(a, x, 0);
    PartsAfter(a, x, 0);
    assert Glue(a, [x]) == [a + x];
  }

  lemma {:induction false} DigitsWords(n: nat)
    ensures Words(Digits(n))
  {
    if n >= 10 {
      DigitsWords(n / 10);
    }
  }

  lemma ParensSolid(t: string)
    requires Words(t)
    ensures Solid("(" + t + ")")
  {
    WordsSolid(t, 1);
    hide Words, Level, Parts;
    CloserSolid();
    LevelAppend(t, ")", 1);
    PartsAfter(t, ")", 1);
    assert Glue(t, [")"]) == [t + ")"];
    OpenerSolid(t + ")");
    assert "(" + (t + ")") == "(" + t + ")";
  }

  lemma OpenerSolid(t: string)
    requires Level(t, 1) == Some(0) && Parts(t, 1) == [t]
    ensures Solid("(" + t)
  {
    var s := "(" + t;
    assert s[1..] == t && s[..1] == "(" && Glue("(", [t]) == [s];
  }

  lemma CloserSolid()
    ensures Level(")", 1) == Some(0) && Parts(")", 1) == [")"]
  {
    assert ")"[1..] == "" && ")"[..1] == ")" && Parts("", 0) == [""];
    assert ")" + "" == ")" && Glue(")", [""]) == [")" + ""];
  }

  lemma CoreSolid(c: Column)
    requires ColumnOk(c)
    ensures Solid(Core(c)) && Solid(c.order) && Apart(c.order)
  {
    assert c.order != "" ==> c.order[0] == ' ';
    WordsSolid(c.order, 0);
    if c.quoted {
      NameSolid(c.name);
    } else {
      WordsSolid(c.name, 0);
    }
  }

  lemma ThreeSolid(a: string, m: string, b: string)
    requires Solid(a) && Solid(m) && Solid(b) && Apart(m) && Apart(b)
    ensures Solid(a + m + b)
  {
    hide Solid;
    SolidAppend(a, m);
    SolidAppend(a + m, b);
  }

  lemma NothingSolid()
    ensures Solid("")
  {
  }

  lemma ColumnIsSolid(c: Column)
    requires ColumnOk(c)
    ensures Solid(ColumnText(c))
  {
    CoreSolid(c);
    hide Solid, Core, Digits, Spells;
    match c.prefix
    case Some(n) =>
      DigitsWords(n);
      ParensSolid(Digits(n));
      ThreeSolid(Core(c), "(" + Digits(n) + ")", c.order);
    case None =>
      NothingSolid();
      ThreeSolid(Core(c), "", c.order);
  }

  lemma ColumnSolid(c: Column)
    requires ColumnOk(c)
    ensures ItemOk(ColumnText(c))
  {
    hide Solid, ColumnText, ColumnOk, NormalizeCol;
    ColumnReads(c);
    ColumnIsSolid(c);
  }

  /** An item in front of a list. */
  lemma ListCons(t: string, j: string)
    requires ItemOk(t) && Level(j, 0) == Some(0)
    ensures Items(t + "," + j) == [t] + Items(j) && Level(t + "," + j, 0) == Some(0)
  {
    TrimEndTight(t);
    assert Apart("," + j) by { assert ("," + j)[0] == ','; }
    hide Level, Parts, Cleaned, Trim, Apart;
    CommaTurn(j);
    PartsAfter(t, "," + j, 0);
    LevelAppend(t, "," + j, 0);
    Assoc(t, ",", j);
    assert Glue(t, [""] + Parts(j, 0)) == [t] + Parts(j, 0) by { assert t + "" == t; }
    CleanedAppend([t], Parts(j, 0));
    CleanedOne(t);
  }

  lemma ListOne(t: string)
    requires ItemOk(t)
    ensures Items(t) == [t] && Level(t, 0) == Some(0)
  {
    TrimEndTight(t);
    CleanedOne(t);
  }

  /** Solid items with commas between them. */
  lemma {:induction false} ListReads(ts: seq<string>)
    requires ts != [] && forall t :: t in ts ==> ItemOk(t)
    ensures Items(Join(ts, ",")) == ts && Level(Join(ts, ","), 0) == Some(0)
    decreases |ts|
  {
    hide Level, Items, Join, ItemOk;
    var t := ts[0];
    assert t in ts && ts == [t] + ts[1..] && forall x :: x in ts[1..] ==> x in ts;
    if |ts| == 1 {
      assert ts == [t];
      JoinOne(t);
      ListOne(t);
    } else {
      JoinMore(ts);
      ListReads(ts[1..]);
      ListCons(t, Join(ts[1..], ","));
    }
  }

  lemma JoinOne(t: string)
    ensures Join([t], ",") == t
  {
  }

  lemma JoinMore(ts: seq<string>)
    requires |ts| > 1
    ensures Join(ts, ",") == ts[0] + "," + Join(ts[1..], ",")
  {
  }

  lemma CommaTurn(j: string)
    ensures Parts("," + j, 0) == [""] + Parts(j, 0) && Level("," + j, 0) == Level(j, 0)
  {
    assert ("," + j)[1..] == j && ("," + j)[0] == ',';
  }

  lemma NormalizedCons(t: string, ts: seq<string>)
    requires NormalizeCol(t) != ""
    ensures NormalizedCols([t] + ts) == [NormalizeCol(t)] + NormalizedCols(ts)
  {
    hide NormalizeCol;
    assert ([t] + ts)[1..] == ts;
  }

  lemma ColumnsCons(cols: seq<Column>)
    requires cols != []
    ensures ColumnTexts(cols) == [ColumnText(cols[0])] + ColumnTexts(cols[1..])
    ensures Names(cols) == [cols[0].name] + Names(cols[1..])
  {
    hide ColumnText;
  }

  lemma Named(c: Column)
    requires ColumnOk(c)
    ensures c.name != ""
  {
  }

  lemma {:induction false} NamesRead(cols: seq<Column>)
    requires forall c :: c in cols ==> ColumnOk(c)
    ensures NormalizedCols(ColumnTexts(cols)) == Names(cols)
    decreases |cols|
  {
    if cols == [] {
      assert Names(cols) == [] && ColumnTexts(cols) == [];
    } else {
      hide NormalizeCol, ColumnText, ColumnOk, NormalizedCols;
      assert cols[0] in cols && forall c :: c in cols[1..] ==> c in cols;
      Named(cols[0]);
      ColumnReads(cols[0]);
      NamesRead(cols[1..]);
      hide ColumnTexts, Names;
      ColumnsCons(cols);
      NormalizedCons(ColumnText(cols[0]), ColumnTexts(cols[1..]));
    }
  }

  // ------------------------------------------------------------------ finding the list

  lemma {:induction false} WordsOpen(t: string, x: string)
    requires Words(t)
    ensures FindOpen(t + x) == Longer(FindOpen(x), |t|)
    decreases |t|
  {
    if t == "" {
      assert t + x == x;
    } else {
      assert (t + x)[1..] == t[1..] + x;
      WordsOpen(t[1..], x);
    }
  }

  lemma NameOpen(n: string, x: string)
    requires QuotedName(n) && (x == "" || x[0] != '`')
    ensures FindOpen("`" + n + "`" + x) == Longer(FindOpen(x), |n| + 2)
  {
    NameHead(n, x);
  }

  /** The first parenthesis behind words and a quoted name. */
  lemma LabelledOpens(front: string, name: Option<string>, back: string, y: string)
    requires Words(front) && Words(back) && (name.Some? ==> QuotedName(name.value))
    ensures FindOpen(Labelled(front, name, back) + ("(" + y)) == Some(|Labelled(front, name, back)|)
  {
    var tail := "(" + y;
    hide FindOpen;
    AtParens(tail, 0);
    WordsOpen(back, tail);
    var x := back + tail;
    assert x[0] != '`';
    match name
    case Some(n) =>
      NameOpen(n, x);
      WordsOpen(front, "`" + n + "`" + x);
      assert Labelled(front, name, back) + tail == front + ("`" + n + "`" + x);
    case None =>
      WordsOpen(front, x);
      assert Labelled(front, name, back) + tail == front + x;
  }

  lemma Unlabelled(word: string)
    ensures Labelled(word, None, "") == word
  {
  }

  lemma Slices(front: string, body: string, y: string)
    ensures var t := front + "(" + body + ")" + y;
            && t == front + ("(" + (body + (")" + y)))
            && t[|front| + 1..|front| + 1 + |body|] == body && t[|front| + 1..] == body + (")" + y)
            && t[..|front| + 1] == front + "(" && t[|front| + 1 + |body|..] == ")" + y
  {
  }

  /** The parentheses around a balanced body behind a front without any. */
  lemma Enclosed(front: string, body: string, y: string)
    requires OpensAt(front + ("(" + (body + (")" + y))), |front|) && Balanced(body)
    ensures HasParens(front + "(" + body + ")" + y, Pair(|front|, |front| + 1 + |body|))
  {
    hide *;
    var t := front + "(" + body + ")" + y;
    Slices(front, body, y);
    assert (")" + y)[0] == ')';
    ClosesBehind(body, ")" + y);
    PairFound(t, |front|, body + (")" + y), |body|);
  }

  // ---------------------------------------------------------------------- one item

  /** The columns of a key or a foreign key are found. */
  lemma ColumnsFound(front: string, cols: seq<Column>, y: string)
    requires OpensAt(front + ("(" + (Join(ColumnTexts(cols), ",") + (")" + y))), |front|)
    requires cols != [] && forall c :: c in cols ==> ColumnOk(c)
    ensures IndexColumns(front + "(" + Join(ColumnTexts(cols), ",") + ")" + y) == Some(Names(cols))
  {
    var ts := ColumnTexts(cols);
    var body := Join(ts, ",");
    var t := front + "(" + body + ")" + y;
    hide OpensAt, Join, ColumnOk, Items, NormalizedCols, Outer;
    forall x | x in ts ensures ItemOk(x) {
      var k :| 0 <= k < |cols| && x == ColumnText(cols[k]);
      ColumnSolid(cols[k]);
    }
    hide ItemOk, ColumnText;
    ListReads(ts);
    NamesRead(cols);
    Enclosed(front, body, y);
    Slices(front, body, y);
  }

  /** What stands in front of the columns are words and perhaps a quoted name. */
  lemma FrontIs(it: Item) returns (front: string, name: Option<string>, back: string)
    requires Printed(it) && !it.Other?
    ensures Words(front) && Words(back) && (name.Some? ==> QuotedName(name.value))
    ensures Front(it) == Labelled(front, name, back)
  {
    hide ItemOk, ColumnOk, KeyWord, ItemText, Spells;
    if it.Key? {
      KeyWords(it.word);
      front, name, back := it.word, None, "";
      if it.name.Some? {
        front, name, back := it.word + " ", it.name, " ";
      }
    } else {
      front, name, back := "FOREIGN KEY ", None, "";
      if it.constraint.Some? {
        front, name, back := "CONSTRAINT ", it.constraint, " FOREIGN KEY ";
      }
    }
    Unlabelled(front);
  }

  lemma FrontOpens(it: Item, y: string)
    requires Printed(it) && !it.Other?
    ensures OpensAt(Front(it) + ("(" + y), |Front(it)|)
  {
    hide FindOpen, Printed, Front, Labelled;
    var front, name, back := FrontIs(it);
    LabelledOpens(front, name, back, y);
  }

  /** Letters and blanks spell words. */
  lemma SpelledWords(w: string, word: string)
    requires forall i :: 0 <= i < |word| ==> 'A' <= word[i] <= 'Z' || word[i] == ' '
    ensures Spells(w, word) ==> Words(w)
  {
  }

  lemma KeyWords(w: string)
    requires KeyWord(w)
    ensures Words(w)
  {
    hide Spells, Words;
    SpelledWords(w, "KEY");
    SpelledWords(w, "INDEX");
    SpelledWords(w, "FULLTEXT");
    SpelledWords(w, "FULLTEXT KEY");
    SpelledWords(w, "FULLTEXT INDEX");
    SpelledWords(w, "SPATIAL");
    SpelledWords(w, "SPATIAL KEY");
    SpelledWords(w, "SPATIAL INDEX");
  }

  lemma ItemColumns(it: Item)
    requires Printed(it) && !it.Other?
    ensures IndexColumns(ItemText(it)) == Some(Names(it.cols))
  {
    FrontOpens(it, Join(ColumnTexts(it.cols), ",") + (")" + it.back));
    hide OpensAt, ItemOk, ColumnOk, IndexColumns, Front;
    ColumnsFound(Front(it), it.cols, it.back);
  }

  // ------------------------------------------------------------ what each item counts as

  /** A tight text is looked at from its own first character. */
  lemma Looks(text: string, word: string)
    requires Tight(text)
    ensures Begins(text, word) <==> word <= UpperAll(text)
  {
    TrimEndTight(text);
  }

  lemma FirstUpper(text: string, w: string, word: string)
    requires w <= text && Spells(w, word) && forall i :: 0 <= i < |word| ==> Upper(word[i]) == word[i]
    ensures word <= UpperAll(text)
  {
    assert forall i :: 0 <= i < |w| ==> text[i] == w[i];
  }

  /** An upper-case text that begins like a secondary index. */
  predicate KeyHead(u: string) {
    "KEY " <= u || "KEY(" <= u || "INDEX " <= u || "INDEX(" <= u || "FULLTEXT" <= u || "SPATIAL" <= u
  }

  lemma KeyLetters(u: string)
    requires KeyHead(u)
    ensures u != "" && (u[0] == 'K' || u[0] == 'I' || u[0] == 'S' || (u[0] == 'F' && |u| > 1 && u[1] == 'U'))
  {
    assert "FULLTEXT"[1] == 'U';
  }

  lemma OtherLetters(u: string)
    ensures "PRIMARY" <= u ==> u[0] == 'P'
    ensures "UNIQUE" <= u ==> u[0] == 'U'
    ensures "CONSTRAINT" <= u ==> u[0] == 'C'
    ensures "FOREIGN" <= u ==> u[0] == 'F' && u[1] == 'O'
    ensures "FOREIGN KEY" <= u ==> u[0] == 'F' && u[1] == 'O'
  {
    assert "FOREIGN"[1] == 'O' && "FOREIGN KEY"[1] == 'O';
  }

  /** What can be deferred begins like a secondary index, and that is all there is to it. */
  lemma DeferrableIs(t: string)
    requires Tight(t)
    ensures IsDeferrableKey(t) <==> KeyHead(UpperAll(t))
  {
    var u := UpperAll(t);
    TrimEndTight(t);
    OtherLetters(u);
    hide UpperAll, TrimStart;
    if KeyHead(u) {
      KeyLetters(u);
    }
  }

  lemma KeyBegins(it: Item)
    requires Printed(it) && it.Key?
    ensures KeyHead(UpperAll(ItemText(it)))
  {
    var t, w := ItemText(it), it.word;
    var c := if it.name.None? then "(" else " ";
    assert w + c <= t by { hide Printed, ColumnTexts, Join; }
    assert KeyWord(w);
    hide ItemText, Printed, UpperAll;
    WordBegins(t, w, c);
  }

  lemma WordBegins(t: string, w: string, c: string)
    requires KeyWord(w) && w + c <= t && (c == "(" || c == " ")
    ensures KeyHead(UpperAll(t))
  {
    hide UpperAll;
    if Spells(w, "KEY") {
      FirstUpper(t, w + c, "KEY" + c);
    } else if Spells(w, "INDEX") {
      FirstUpper(t, w + c, "INDEX" + c);
    } else {
      LongWord(w);
      if Opens(w, "FULLTEXT") {
        FirstUpper(t, w[..8], "FULLTEXT");
      } else {
        FirstUpper(t, w[..7], "SPATIAL");
      }
    }
  }

  lemma LongWord(w: string)
    requires KeyWord(w) && !Spells(w, "KEY") && !Spells(w, "INDEX")
    ensures Opens(w, "FULLTEXT") || Opens(w, "SPATIAL")
  {
  }

  lemma KeyCounts(it: Item)
    requires Printed(it) && it.Key?
    ensures IsDeferrableKey(ItemText(it)) && FkOf(ItemText(it)) == []
  {
    KeyBegins(it);
    var t := ItemText(it);
    assert Tight(t);
    hide ItemText, Printed, IndexColumns, UpperAll, KeyHead;
    DeferrableIs(t);
    if IsFkItem(t) {
      FkNotDeferred(t);
    }
  }

  lemma ForeignText(it: Item)
    requires Printed(it) && it.Foreign?
    ensures var u := UpperAll(ItemText(it));
            ("CONSTRAINT" <= u || "FOREIGN KEY" <= u) && Contains(u, "FOREIGN KEY")
  {
    hide ItemOk, ColumnOk, Join, UpperAll, Contains;
    var t := ItemText(it);
    match it.constraint
    case None =>
      assert "FOREIGN KEY " <= t;
      FirstUpper(t, "FOREIGN KEY", "FOREIGN KEY");
      Holds(t, 0);
    case Some(n) =>
      var front := "CONSTRAINT `" + n + "` ";
      assert Front(it) == front + "FOREIGN KEY " by {
        assert "CONSTRAINT `" == "CONSTRAINT " + "`" && "` " == "`" + " " && " FOREIGN KEY " == " " + "FOREIGN KEY ";
      }
      assert "CONSTRAINT" <= t && "FOREIGN KEY" <= t[|front|..];
      FirstUpper(t, "CONSTRAINT", "CONSTRAINT");
      Holds(t, |front|);
  }

  lemma Holds(t: string, i: nat)
    requires i <= |t| && "FOREIGN KEY" <= t[i..]
    ensures Contains(UpperAll(t), "FOREIGN KEY")
  {
    FirstUpper(t[i..], "FOREIGN KEY", "FOREIGN KEY");
    assert UpperAll(t)[i..] == UpperAll(t[i..]);
  }

  lemma ForeignCounts(it: Item)
    requires Printed(it) && it.Foreign?
    ensures !IsDeferrableKey(ItemText(it)) && FkOf(ItemText(it)) == [Names(it.cols)]
  {
    ForeignText(it);
    ItemColumns(it);
    var t := ItemText(it);
    assert Tight(t);
    hide ItemText, Printed, IndexColumns, UpperAll, Begins, Contains;
    Looks(t, "CONSTRAINT");
    Looks(t, "FOREIGN KEY");
    FkNotDeferred(t);
  }

  lemma OtherBegins(t: string)
    requires OtherOk(t)
    ensures var u := UpperAll(t);
            u != "" && (u[0] == '`' || u[0] == 'P' || u[0] == 'U' || (u[0] == 'C' && !Contains(u, "FOREIGN KEY")))
  {
    if Opens(t, "PRIMARY") {
      FirstUpper(t, t[..7], "PRIMARY");
    } else if Opens(t, "UNIQUE") {
      FirstUpper(t, t[..6], "UNIQUE");
    } else if Opens(t, "CONSTRAINT") && !(t != "" && t[0] == '`') {
      FirstUpper(t, t[..10], "CONSTRAINT");
      NoForeign(t);
    }
  }

  lemma OtherCounts(it: Item)
    requires Printed(it) && it.Other?
    ensures !IsDeferrableKey(it.text) && FkOf(it.text) == []
  {
    var t := it.text;
    assert Tight(t);
    OtherBegins(t);
    DeferrableIs(t);
    var u := UpperAll(t);
    hide Printed, IndexColumns, UpperAll, Contains, IsDeferrableKey, Begins;
    Looks(t, "CONSTRAINT");
    Looks(t, "FOREIGN KEY");
    OtherLetters(u);
    if KeyHead(u) {
      KeyLetters(u);
    }
  }

  lemma UpperOpens(t: string, i: nat)
    requires i <= |t|
    ensures "FOREIGN KEY" <= UpperAll(t)[i..] ==> Opens(t[i..], "FOREIGN KEY")
  {
    var u := UpperAll(t)[i..];
    if "FOREIGN KEY" <= u {
      forall k | 0 <= k < 11 ensures Upper(t[i..][k]) == "FOREIGN KEY"[k] {
        assert u[k] == Upper(t[i + k]);
      }
    }
  }

  lemma NoForeign(t: string)
    requires forall i :: 0 <= i <= |t| ==> !Opens(t[i..], "FOREIGN KEY")
    ensures !Contains(UpperAll(t), "FOREIGN KEY")
  {
    hide Opens;
    forall i {:trigger UpperAll(t)[i..]} | 0 <= i <= |t| ensures !("FOREIGN KEY" <= UpperAll(t)[i..]) {
      UpperOpens(t, i);
    }
  }

  // ----------------------------------------------------------------------- the list

  lemma TextsCons(its: seq<Item>)
    requires its != []
    ensures ItemTexts(its)[0] == ItemText(its[0]) && ItemTexts(its)[1..] == ItemTexts(its[1..])
  {
  }

  lemma FkOfItem(it: Item)
    requires Printed(it)
    ensures FkOf(ItemText(it)) == if it.Foreign? then [Names(it.cols)] else []
    ensures it.Foreign? ==> Names(it.cols) != []
  {
    match it
    case Key(_, _, _, _) => KeyCounts(it);
    case Foreign(_, _, _) => ForeignCounts(it);
    case Other(_) => OtherCounts(it);
  }

  /** The column lists of the foreign keys, and nothing else, are what keys are compared with. */
  lemma {:induction false} ForeignColumns(its: seq<Item>, names: seq<string>)
    requires forall it :: it in its ==> Printed(it)
    ensures names in FkCols(ItemTexts(its)) <==> exists f :: f in its && f.Foreign? && Names(f.cols) == names
    ensures [] !in FkCols(ItemTexts(its))
  {
    hide Printed, FkOf, ItemText;
    if its != [] {
      var it, rest := its[0], its[1..];
      assert it in its && forall x :: x in rest ==> x in its;
      assert forall x :: x in its ==> x == it || x in rest;
      TextsCons(its);
      FkOfItem(it);
      ForeignColumns(rest, names);
    }
  }

  lemma BacksIs(it: Item, its: seq<Item>)
    requires it.Key? && Printed(it) && forall x :: x in its ==> Printed(x)
    ensures BacksFk(ItemText(it), FkCols(ItemTexts(its))) <==> Backs(it, its)
  {
    var fk := FkCols(ItemTexts(its));
    ItemColumns(it);
    hide Printed, FkCols, ItemText, IndexColumns;
    if k :| 0 <= k < |fk| && fk[k] != [] && fk[k] <= Names(it.cols) {
      ForeignColumns(its, fk[k]);
    }
    if f :| f in its && f.Foreign? && Names(f.cols) <= Names(it.cols) {
      ForeignColumns(its, Names(f.cols));
      var k :| 0 <= k < |fk| && fk[k] == Names(f.cols);
      assert fk[k] in fk;
    }
  }

  /** An item is deferred exactly when it is a key that backs no foreign key. */
  lemma DefersIs(it: Item, its: seq<Item>)
    requires it in its && forall x :: x in its ==> Printed(x)
    ensures Defers(ItemText(it), FkCols(ItemTexts(its))) <==> Moves(it, its)
  {
    hide Printed, FkCols, BacksFk, IsDeferrableKey, Backs;
    match it
    case Key(_, _, _, _) =>
      KeyCounts(it);
      BacksIs(it, its);
    case Foreign(_, _, _) => ForeignCounts(it);
    case Other(_) => OtherCounts(it);
  }

  lemma {:induction false} SortReads(its: seq<Item>, all: seq<Item>)
    requires forall x :: x in all ==> Printed(x)
    requires forall x :: x in its ==> x in all
    ensures var fk := FkCols(ItemTexts(all));
            KeptOf(ItemTexts(its), fk) == Staying(its, all) && DeferredOf(ItemTexts(its), fk) == Moving(its, all)
  {
    hide FkCols, Defers, Moves, ItemText;
    if its != [] {
      var it := its[0];
      assert it in its && forall x :: x in its[1..] ==> x in its;
      TextsCons(its);
      DefersIs(it, all);
      TrimEndTight(ItemText(it));
      SortReads(its[1..], all);
    }
  }

  /** The statement that builds the keys. */
  function AlterText(table: string, keys: seq<string>): string {
    "ALTER TABLE " + table + " " + Join(seq(|keys|, i requires 0 <= i < |keys| => "ADD " + keys[i]), ", ") + ";"
  }

  /** A CREATE TABLE as a server prints it: one item to a line. */
  function CreateText(front: string, name: string, gap: string, items: seq<string>, tail: string): string {
    front + "`" + name + "`" + gap + "(" + ("\n  " + Join(items, ",\n  ") + "\n") + ")" + tail
  }

  /** What stands in front of its items. */
  function Opening(front: string, name: string, gap: string): string {
    front + "`" + name + "`" + gap
  }

  function ListAt(front: string, name: string, gap: string, items: seq<string>): Pair {
    Pair(|Opening(front, name, gap)|, |Opening(front, name, gap)| + 1 + |Layout(items)|)
  }

  lemma HeadOpens(front: string, name: string, gap: string, y: string)
    requires Words(front) && QuotedName(name) && Words(gap)
    ensures OpensAt(Opening(front, name, gap) + ("(" + y), |Opening(front, name, gap)|)
  {
    LabelledOpens(front, Some(name), gap, y);
    assert front + ("`" + name + "`") + gap == Opening(front, name, gap);
  }

  lemma CreateIs(front: string, name: string, gap: string, items: seq<string>, tail: string)
    ensures CreateText(front, name, gap, items, tail) == Opening(front, name, gap) + "(" + Layout(items) + ")" + tail
  {
  }

  /** Its items are found again. */
  lemma CreateLists(front: string, name: string, gap: string, items: seq<string>, tail: string)
    requires Words(front) && QuotedName(name) && Words(gap) && forall it :: it in items ==> ItemOk(it)
    ensures Lists(CreateText(front, name, gap, items, tail), ListAt(front, name, gap, items), items)
  {
    var head, body := Opening(front, name, gap), Layout(items);
    var p := ListAt(front, name, gap, items);
    assert p == Pair(|head|, |head| + 1 + |body|);
    assert Items(body) == items && Balanced(body) by { LayoutItems(items); }
    HeadOpens(front, name, gap, body + (")" + tail));
    CreateIs(front, name, gap, items, tail);
    hide *;
    Enclosed(head, body, tail);
    Slices(head, body, tail);
    ListsBy(head + "(" + body + ")" + tail, p, body, items);
  }

  lemma ListsBy(t: string, p: Pair, body: string, items: seq<string>)
    requires p.open < p.close < |t| && HasParens(t, p) && t[p.open + 1..p.close] == body && Items(body) == items
    ensures Lists(t, p, items)
  {
    hide HasParens, Items;
  }

  lemma CreateRewritten(front: string, name: string, gap: string, items: seq<string>, tail: string, kept: seq<string>)
    ensures var t, p := CreateText(front, name, gap, items, tail), ListAt(front, name, gap, items);
            p.close < |t| && Rewritten(t, p, kept) == CreateText(front, name, gap, kept, tail)
  {
    hide Layout, Opening, CreateText;
    var head := Opening(front, name, gap);
    CreateIs(front, name, gap, items, tail);
    CreateIs(front, name, gap, kept, tail);
    Slices(head, Layout(items), tail);
    Assoc(head + "(" + Layout(kept), ")", tail);
  }

  /**
    The split of a printed CREATE TABLE: the keys whose leftmost columns are not those
    of a foreign key leave, however their columns are written; all other items stay in
    place and order; and the keys that left are added, in order, by one ALTER. Where
    none leaves, nothing is changed.
  */
  lemma SplitByItems(front: string, name: string, gap: string, its: seq<Item>, tail: string, table: string)
    requires Words(front) && QuotedName(name) && Words(gap) && forall it :: it in its ==> Printed(it)
    ensures var ddl := CreateText(front, name, gap, ItemTexts(its), tail);
            SplitMysql(ddl, table)
            == if Moving(its, its) == [] then Split(ddl, [])
               else Split(CreateText(front, name, gap, Staying(its, its), tail), [AlterText(table, Moving(its, its))])
  {
    forall t | t in ItemTexts(its) ensures ItemOk(t) {
      var k :| 0 <= k < |its| && t == ItemText(its[k]);
      assert its[k] in its && Printed(its[k]);
    }
    hide Printed, ItemOk, QuotedName, Words, CreateText, Layout, FkCols, KeptOf, DeferredOf, ItemsOf, Rewritten,
         Outer, Join, Staying, Moving, ItemText, ListAt;
    CreateLists(front, name, gap, ItemTexts(its), tail);
    CreateRewritten(front, name, gap, ItemTexts(its), tail, Staying(its, its));
    SortReads(its, its);
    var moving := Moving(its, its);
    assert Added(moving) == seq(|moving|, i requires 0 <= i < |moving| => "ADD " + moving[i]);
  }
}
