/**
  Taking plain secondary indexes out of a MySQL CREATE TABLE (`split_mysql` in
  src-tauri/src/defer_index.rs) so that they can be built after the load.
*/
module DeferIndex {
  import opened Text
  import opened DdlScan
  import opened DdlItems

  datatype Split = Split(create: string, deferred: seq<string>)

  // ------------------------------------------------------------ what an item is

  predicate Begins(item: string, word: string) {
    StartsWith(UpperAll(TrimStart(item)), word)
  }

  /** A plain KEY or INDEX, FULLTEXT or SPATIAL; never a PRIMARY or UNIQUE key, a CONSTRAINT or a FOREIGN KEY. */
  predicate IsDeferrableKey(item: string) {
    && !Begins(item, "PRIMARY") && !Begins(item, "UNIQUE") && !Begins(item, "CONSTRAINT") && !Begins(item, "FOREIGN")
    && (Begins(item, "KEY ") || Begins(item, "KEY(") || Begins(item, "INDEX ") || Begins(item, "INDEX(")
        || Begins(item, "FULLTEXT") || Begins(item, "SPATIAL"))
  }

  predicate IsMark(c: char) {
    c == '`' || c == '"' || c == '\'' || c == ' '
  }

  function StripMarks(s: string): string {
    if s == "" then s
    else if IsMark(s[0]) then StripMarks(s[1..])
    else if IsMark(s[|s| - 1]) then StripMarks(s[..|s| - 1])
    else s
  }

  function CutAt(s: string, n: Option<nat>): string {
    match n
    case Some(v) => if v <= |s| then TrimEnd(s[..v]) else s
    case None => s
  }

  /** Without a prefix length and what follows it. */
  function PrefixOff(s: string): string {
    CutAt(s, FindFirst(s, c => c == '('))
  }

  /** Without an order. */
  function OrderOff(s: string): string {
    if EndsWith(UpperAll(s), " ASC") then TrimEnd(s[..|s| - 4])
    else if EndsWith(UpperAll(s), " DESC") then TrimEnd(s[..|s| - 5])
    else s
  }

  function NormalizeCol(raw: string): string {
    StripMarks(OrderOff(PrefixOff(Trim(raw))))
  }

  function NormalizedCols(items: seq<string>): seq<string> {
    if items == [] then []
    else (if NormalizeCol(items[0]) == "" then [] else [NormalizeCol(items[0])]) + NormalizedCols(items[1..])
  }

  /** The columns in the first parentheses of an index or foreign-key item. */
  function IndexColumns(item: string): Option<seq<string>> {
    match Outer(item)
    case None => None
    case Some(p) =>
      var cols := NormalizedCols(Items(item[p.open + 1..p.close]));
      if cols == [] then None else Some(cols)
  }

  predicate IsFkItem(item: string) {
    && (Begins(item, "CONSTRAINT") || Begins(item, "FOREIGN KEY"))
    && Contains(UpperAll(item), "FOREIGN KEY")
  }

  function FkOf(item: string): seq<seq<string>> {
    if IsFkItem(item) && IndexColumns(item).Some? then [IndexColumns(item).value] else []
  }

  /** The column lists of the foreign keys among the items. */
  function FkCols(items: seq<string>): seq<seq<string>> {
    if items == [] then []
    else
      FkOf(items[0]) + FkCols(items[1..])
  }

  /** The key's leftmost columns are the columns of some foreign key. */
  predicate BacksFk(item: string, fkCols: seq<seq<string>>) {
    && IndexColumns(item).Some?
    && exists k :: 0 <= k < |fkCols| && fkCols[k] != [] && fkCols[k] <= IndexColumns(item).value
  }

  predicate Defers(item: string, fkCols: seq<seq<string>>) {
    IsDeferrableKey(item) && !BacksFk(item, fkCols)
  }

  // ------------------------------------------------------------------- the split

  function KeptOf(items: seq<string>, fk: seq<seq<string>>): seq<string> {
    if items == [] then []
    else (if Defers(items[0], fk) then [] else [Trim(items[0])]) + KeptOf(items[1..], fk)
  }

  function DeferredOf(items: seq<string>, fk: seq<seq<string>>): seq<string> {
    if items == [] then []
    else (if Defers(items[0], fk) then [Trim(items[0])] else []) + DeferredOf(items[1..], fk)
  }

  function Added(items: seq<string>): (r: seq<string>)
    ensures |r| == |items|
  {
    seq(|items|, i requires 0 <= i < |items| => "ADD " + items[i])
  }

  /** The items of the CREATE's body. */
  function ItemsOf(ddl: string, p: Pair): seq<string>
    requires p.open < p.close < |ddl|
  {
    Items(ddl[p.open + 1..p.close])
  }

  /** The CREATE with another list of items between the same parentheses. */
  function Rewritten(ddl: string, p: Pair, kept: seq<string>): string
    requires p.open < p.close < |ddl|
  {
    ddl[..p.open + 1] + Layout(kept) + ddl[p.close..]
  }

  function KeptBy(ddl: string, p: Pair): seq<string>
    requires p.open < p.close < |ddl|
  {
    KeptOf(ItemsOf(ddl, p), FkCols(ItemsOf(ddl, p)))
  }

  function DeferredBy(ddl: string, p: Pair): seq<string>
    requires p.open < p.close < |ddl|
  {
    DeferredOf(ItemsOf(ddl, p), FkCols(ItemsOf(ddl, p)))
  }

  function SplitMysql(ddl: string, table: string): Split {
    match Outer(ddl)
    case None => Split(ddl, [])
    case Some(p) =>
      if DeferredBy(ddl, p) == [] then Split(ddl, [])
      else
        Split(Rewritten(ddl, p, KeptBy(ddl, p)),
              ["ALTER TABLE " + table + " " + Join(Added(DeferredBy(ddl, p)), ", ") + ";"])
  }

  /** The kept/deferred loop. */
  method Sort(items: seq<string>, fk: seq<seq<string>>) returns (kept: seq<string>, defer: seq<string>)
    ensures kept == KeptOf(items, fk) && defer == Added(DeferredOf(items, fk))
  {
    kept, defer := [], [];
    ghost var taken: seq<string> := [];
    assert items[0..] == items;
    for k := 0 to |items|
      invariant kept + KeptOf(items[k..], fk) == KeptOf(items, fk)
      invariant taken + DeferredOf(items[k..], fk) == DeferredOf(items, fk)
      invariant defer == Added(taken)
    {
      ghost var rest := items[k + 1..];
      assert items[k..][0] == items[k] && items[k..][1..] == rest;
      var it := Trim(items[k]);
      if IsDeferrableKey(items[k]) && !BacksFk(items[k], fk) {
        Assoc(taken, [it], DeferredOf(rest, fk));
        assert [] + KeptOf(rest, fk) == KeptOf(rest, fk);
        defer := defer + ["ADD " + it];
        taken := taken + [it];
      } else {
        Assoc(kept, [it], KeptOf(rest, fk));
        assert [] + DeferredOf(rest, fk) == DeferredOf(rest, fk);
        kept := kept + [it];
      }
    }
    assert taken + [] == taken && kept + [] == kept;
  }

  method SplitMysqlDdl(ddl: string, table: string) returns (r: Split)
    ensures r == SplitMysql(ddl, table)
  {
    hide OuterFrom, Items, KeptOf, FkCols, Join;
    var p := OuterParens(ddl);
    if p.None? {
      return Split(ddl, []);
    }
    var open, close := p.value.open, p.value.close;
    var items := SplitTopLevel(ddl[open + 1..close]);
    if items == [] {
      return Split(ddl, []);
    }
    var kept, defer := Sort(items, FkCols(items));
    if defer == [] {
      return Split(ddl, []);
    }
    r := Split(ddl[..open + 1] + ("\n  " + Join(kept, ",\n  ") + "\n") + ddl[close..],
               ["ALTER TABLE " + table + " " + Join(defer, ", ") + ";"]);
  }

  // ----------------------------------------------------------------- conservation

  /** `whole` is `a` and `b` interleaved, each in its own order. */
  predicate Interleaves(whole: seq<string>, a: seq<string>, b: seq<string>)
    decreases |whole|
  {
    if whole == [] then a == [] && b == []
    else
      || (a != [] && a[0] == whole[0] && Interleaves(whole[1..], a[1..], b))
      || (b != [] && b[0] == whole[0] && Interleaves(whole[1..], a, b[1..]))
  }

  lemma {:induction false} SplitInterleaves(items: seq<string>, fk: seq<seq<string>>)
    requires forall it :: it in items ==> Tight(it)
    ensures Interleaves(items, KeptOf(items, fk), DeferredOf(items, fk))
  {
    if items != [] {
      assert items[0] in items && forall it :: it in items[1..] ==> it in items;
      SplitInterleaves(items[1..], fk);
      TrimPadded("", items[0], "");
      assert "" + items[0] + "" == items[0];
      var k, d := KeptOf(items[1..], fk), DeferredOf(items[1..], fk);
      if Defers(items[0], fk) {
        assert DeferredOf(items, fk)[1..] == d && KeptOf(items, fk) == k;
      } else {
        assert KeptOf(items, fk)[1..] == k && DeferredOf(items, fk) == d;
      }
    }
  }

  lemma {:induction false} CleanedTight(ps: seq<string>)
    ensures forall it :: it in Cleaned(ps) ==> Tight(it)
  {
    if ps != [] {
      CleanedTight(ps[1..]);
      var left, right := TrimSplits(ps[0]);
    }
  }

  /** Whatever has to stay inline stays: keys, constraints, foreign keys and the indexes behind them. */
  lemma MustStay(items: seq<string>, fk: seq<seq<string>>, it: string)
    requires forall x :: x in items ==> Tight(x)
    requires it in items
    requires Begins(it, "PRIMARY") || Begins(it, "UNIQUE") || Begins(it, "CONSTRAINT") || Begins(it, "FOREIGN")
          || BacksFk(it, fk)
    ensures it in KeptOf(items, fk) && it !in DeferredOf(items, fk)
  {
    assert !Defers(it, fk);
    KeptMembers(items, fk, it);
  }

  /** An item is kept or deferred by what it is, wherever it stands. */
  lemma {:induction false} KeptMembers(items: seq<string>, fk: seq<seq<string>>, it: string)
    requires forall x :: x in items ==> Tight(x)
    ensures it in KeptOf(items, fk) <==> it in items && !Defers(it, fk)
    ensures it in DeferredOf(items, fk) <==> it in items && Defers(it, fk)
  {
    if items != [] {
      assert items[0] in items && forall x :: x in items[1..] ==> x in items;
      TrimPadded("", items[0], "");
      assert "" + items[0] + "" == items[0];
      assert Trim(items[0]) == items[0];
      KeptMembers(items[1..], fk, it);
    }
  }

  // ------------------------------------------------------------------ idempotence

  lemma {:induction false} KeptOk(items: seq<string>, fk: seq<seq<string>>)
    requires forall it :: it in items ==> ItemOk(it)
    ensures forall it :: it in KeptOf(items, fk) ==> ItemOk(it) && it in items && !Defers(it, fk)
  {
    if items != [] {
      assert items[0] in items && forall it :: it in items[1..] ==> it in items;
      TrimPadded("", items[0], "");
      assert "" + items[0] + "" == items[0];
      KeptOk(items[1..], fk);
    }
  }

  lemma {:induction false} NothingDefers(items: seq<string>, fk: seq<seq<string>>)
    requires forall it :: it in items ==> !Defers(it, fk)
    ensures DeferredOf(items, fk) == []
  {
    if items != [] {
      assert items[0] in items && forall it :: it in items[1..] ==> it in items;
      NothingDefers(items[1..], fk);
    }
  }

  lemma FkNotDeferred(it: string)
    requires IsFkItem(it)
    ensures !IsDeferrableKey(it)
  {
    if Begins(it, "FOREIGN KEY") {
      var u := UpperAll(TrimStart(it));
      assert u[..11] == "FOREIGN KEY" && u[..7] == u[..11][..7] == "FOREIGN";
    }
  }

  lemma FkColsCons(it: string, rest: seq<string>)
    ensures FkCols([it] + rest) == FkOf(it) + FkCols(rest)
  {
    assert ([it] + rest)[1..] == rest;
  }

  /** A deferred item names no foreign key. */
  lemma DeferredNamesNone(it: string, fk: seq<seq<string>>)
    requires Defers(it, fk)
    ensures FkOf(it) == []
  {
    if IsFkItem(it) {
      FkNotDeferred(it);
    }
  }

  lemma KeptCons(it: string, rest: seq<string>, fk: seq<seq<string>>)
    requires ItemOk(it)
    ensures KeptOf([it] + rest, fk) == (if Defers(it, fk) then [] else [it]) + KeptOf(rest, fk)
  {
    assert ([it] + rest)[1..] == rest;
    TrimPadded("", it, "");
    assert "" + it + "" == it;
  }

  /** One more item in front: deferred, it names no foreign key; kept, it is in front in both lists. */
  lemma SameFkStep(it: string, rest: seq<string>, fk: seq<seq<string>>)
    requires ItemOk(it) && FkCols(KeptOf(rest, fk)) == FkCols(rest)
    ensures FkCols(KeptOf([it] + rest, fk)) == FkCols([it] + rest)
  {
    hide KeptOf, FkCols, FkOf, Defers, ItemOk;
    var kept := KeptOf(rest, fk);
    KeptCons(it, rest, fk);
    FkColsCons(it, rest);
    if Defers(it, fk) {
      DeferredNamesNone(it, fk);
      assert [] + kept == kept && [] + FkCols(rest) == FkCols(rest);
    } else {
      FkColsCons(it, kept);
    }
  }

  /** Deferring never removes a foreign key, so the kept items name the same ones. */
  lemma {:induction false} SameFkCols(items: seq<string>, fk: seq<seq<string>>)
    requires forall it :: it in items ==> ItemOk(it)
    ensures FkCols(KeptOf(items, fk)) == FkCols(items)
  {
    if items == [] {
      assert KeptOf(items, fk) == items;
    } else {
      hide *;
      var it, rest := items[0], items[1..];
      assert it in items && forall x :: x in rest ==> x in items;
      SameFkCols(rest, fk);
      SameFkStep(it, rest, fk);
      assert [it] + rest == items;
    }
  }

  /** The text opens its column list before it closes anything. */
  predicate OpensFirst(ddl: string) {
    FindOpen(ddl).Some?
  }

  predicate OpensAt(s: string, o: nat) {
    FindOpen(s) == Some(o)
  }

  predicate ClosesAt(rest: string, n: nat) {
    FindClose(rest, 1) == Some(n)
  }

  predicate HasParens(s: string, p: Pair) {
    Outer(s) == Some(p)
  }

  predicate Balanced(s: string) {
    Level(s, 0) == Some(0)
  }

  /** A scan of the CREATE finds the parentheses `q` and between them these items. */
  predicate Lists(create: string, q: Pair, items: seq<string>) {
    q.open < q.close < |create| && HasParens(create, q) && ItemsOf(create, q) == items
  }

  /** The body between the outer parentheses is balanced. */
  lemma BodyBalanced(ddl: string, p: Pair)
    requires OpensFirst(ddl) && HasParens(ddl, p) && p.open < p.close < |ddl|
    ensures OpensAt(ddl, p.open) && ddl[p.close] == ')' && Balanced(ddl[p.open + 1..p.close])
  {
    var o := FindOpen(ddl).value;
    var close := FindClose(ddl[o + 1..], 1);
    assert ClosedAt(o, o + 1, close) == Some(p) by { OuterIs(ddl); }
    CloseBalanced(ddl[o + 1..], 1, close.value);
    assert ddl[o + 1..][..close.value] == ddl[p.open + 1..p.close];
    assert ddl[o + 1..][close.value] == ddl[p.close];
  }

  lemma MiddleSlice(head: string, body: string, suffix: string)
    ensures (head + body + suffix)[|head|..|head| + |body|] == body
    ensures (head + body + suffix)[|head|..] == body + suffix
    ensures head + (body + suffix) == head + body + suffix
  {
  }

  lemma ClosesBehind(body: string, suffix: string)
    requires Balanced(body) && suffix != "" && suffix[0] == ')'
    ensures ClosesAt(body + suffix, |body|)
  {
    BalancedCloses(body, 0, suffix);
  }

  lemma PairIs(found: Option<Pair>, o: nat, close: Option<nat>, n: nat)
    requires found == ClosedAt(o, o + 1, close) && close == Some(n)
    ensures found == Some(Pair(o, o + 1 + n))
  {
  }

  lemma PairFound(create: string, o: nat, rest: string, n: nat)
    requires OpensAt(create, o) && o < |create| && rest == create[o + 1..] && ClosesAt(rest, n)
    ensures HasParens(create, Pair(o, o + 1 + n))
  {
    var found, close := Outer(create), FindClose(rest, 1);
    assert found == ClosedAt(o, o + 1, close) by { OuterIs(create); }
    PairIs(found, o, close, n);
  }

  lemma StillOpens(ddl: string, o: nat, tail: string)
    requires OpensAt(ddl, o) && o < |ddl|
    ensures OpensAt(ddl[..o + 1] + tail, o)
  {
    FindOpenLocal(ddl, o, tail);
  }

  /**
    Scanning the rewritten CREATE finds the same opening parenthesis, the closing one
    right behind the new body, and exactly the kept items between them.
  */
  lemma Rescan(ddl: string, p: Pair, kept: seq<string>)
    requires OpensFirst(ddl) && HasParens(ddl, p) && p.open < p.close < |ddl| && forall it :: it in kept ==> ItemOk(it)
    ensures var create := Rewritten(ddl, p, kept);
            OpensFirst(create) && Lists(create, Pair(p.open, p.open + 1 + |Layout(kept)|), kept)
  {
    hide OpensAt, ClosesAt, HasParens, Level, Items, Layout;
    var head, body, suffix := ddl[..p.open + 1], Layout(kept), ddl[p.close..];
    BodyBalanced(ddl, p);
    MiddleSlice(head, body, suffix);
    StillOpens(ddl, p.open, body + suffix);
    assert Balanced(body) && Items(body) == kept by { LayoutItems(kept); }
    ClosesBehind(body, suffix);
    PairFound(Rewritten(ddl, p, kept), p.open, body + suffix, |body|);
  }

  lemma ItemsTight(ddl: string, p: Pair)
    requires p.open < p.close < |ddl|
    ensures forall it :: it in ItemsOf(ddl, p) ==> Tight(it)
  {
    CleanedTight(Parts(ddl[p.open + 1..p.close], 0));
  }

  /** Conservation: kept and deferred items are the items of the body interleaved, each in order. */
  lemma SplitConserves(ddl: string, p: Pair)
    requires p.open < p.close < |ddl|
    ensures Interleaves(ItemsOf(ddl, p), KeptBy(ddl, p), DeferredBy(ddl, p))
  {
    ItemsTight(ddl, p);
    hide ItemsOf, Tight, KeptOf, DeferredOf, FkCols, Interleaves;
    SplitInterleaves(ItemsOf(ddl, p), FkCols(ItemsOf(ddl, p)));
  }

  /** The new CREATE lists exactly the kept items between the parentheses a scan finds. */
  lemma {:induction false} NewCreateListsKept(ddl: string, p: Pair)
    requires OpensFirst(ddl) && HasParens(ddl, p) && p.open < p.close < |ddl|
    ensures var create := Rewritten(ddl, p, KeptBy(ddl, p));
            OpensFirst(create) && Lists(create, Pair(p.open, p.open + 1 + |Layout(KeptBy(ddl, p))|), KeptBy(ddl, p))
  {
    hide HasParens, OpensFirst, Lists, ItemsOf, FkCols, KeptOf, ItemOk;
    AllItemsOk(ddl, p);
    KeptOk(ItemsOf(ddl, p), FkCols(ItemsOf(ddl, p)));
    Rescan(ddl, p, KeptBy(ddl, p));
  }

  lemma NothingLeft(create: string, q: Pair, kept: seq<string>, table: string)
    requires Lists(create, q, kept) && DeferredOf(kept, FkCols(kept)) == []
    ensures SplitMysql(create, table) == Split(create, [])
  {
  }

  /** Splitting a rewritten CREATE again changes nothing and defers nothing. */
  lemma {:induction false} SecondSplit(ddl: string, p: Pair, table: string)
    requires OpensFirst(ddl) && HasParens(ddl, p) && p.open < p.close < |ddl|
    ensures var create := Rewritten(ddl, p, KeptBy(ddl, p));
            SplitMysql(create, table) == Split(create, [])
  {
    hide HasParens, OpensFirst, Lists, ItemsOf, FkCols, KeptOf, ItemOk, DeferredOf, SplitMysql, Layout, Rewritten;
    var items, kept := ItemsOf(ddl, p), KeptBy(ddl, p);
    AllItemsOk(ddl, p);
    KeptOk(items, FkCols(items));
    SameFkCols(items, FkCols(items));
    NothingDefers(kept, FkCols(items));
    NewCreateListsKept(ddl, p);
    NothingLeft(Rewritten(ddl, p, kept), Pair(p.open, p.open + 1 + |Layout(kept)|), kept, table);
  }

  lemma AllItemsOk(ddl: string, p: Pair)
    requires OpensFirst(ddl) && HasParens(ddl, p) && p.open < p.close < |ddl|
    ensures forall it :: it in ItemsOf(ddl, p) ==> ItemOk(it)
  {
    BodyBalanced(ddl, p);
    ItemsOk(ddl[p.open + 1..p.close]);
  }

  /** Idempotence: a second split of what a split leaves is the identity and defers nothing. */
  lemma SplitTwice(ddl: string, table: string)
    requires Outer(ddl).Some? ==> OpensFirst(ddl)
    ensures SplitMysql(SplitMysql(ddl, table).create, table) == Split(SplitMysql(ddl, table).create, [])
  {
    if SplitMysql(ddl, table).deferred != [] {
      SecondSplit(ddl, Outer(ddl).value, table);
    }
  }
}
