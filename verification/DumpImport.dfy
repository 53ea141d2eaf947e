/**
  A generated dump imported by the parallel path: the writer interleaves the data
  markers of the tables with their DDL, the coordinator gives its workers up at the
  first marker that leaves the data region. Which dumps survive that is decided here.
*/
module DumpImport {
  import opened Text
  import opened Splitter
  import opened Framing
  import opened DumpWriter
  import opened DumpMerge
  import opened DumpRegions
  import opened ParallelImport

  // ------------------------------------------------- the second data run, front to back

  function LeftOn(region: Region, left: bool, next: Region): bool {
    left || (region == DataRegion && next != DataRegion)
  }

  /** Reading on from a region: does a data statement come after the data region was left? */
  predicate Second(region: Region, left: bool, items: seq<Item>)
    decreases |items|
  {
    items != [] &&
    match items[0]
    case Marker(k) => Second(RegionOf(k), LeftOn(region, left, RegionOf(k)), items[1..])
    case Stmt(_) => (region == DataRegion && left) || Second(region, left, items[1..])
  }

  function LeftAfter(region: Region, left: bool, items: seq<Item>): bool
    decreases |items|
  {
    if items == [] then left
    else
      match items[0]
      case Marker(k) => LeftAfter(RegionOf(k), LeftOn(region, left, RegionOf(k)), items[1..])
      case Stmt(_) => LeftAfter(region, left, items[1..])
  }

  lemma {:induction false} SecondAppend(region: Region, left: bool, a: seq<Item>, b: seq<Item>)
    ensures Second(region, left, a + b)
       <==> Second(region, left, a) || Second(RegionAfter(region, a), LeftAfter(region, left, a), b)
    ensures LeftAfter(region, left, a + b) == LeftAfter(RegionAfter(region, a), LeftAfter(region, left, a), b)
    decreases |a|
  {
    if a == [] {
      assert a + b == b;
    } else {
      DropPrefix(a, b, 1);
      match a[0]
      case Marker(k) => SecondAppend(RegionOf(k), LeftOn(region, left, RegionOf(k)), a[1..], b);
      case Stmt(_) => SecondAppend(region, left, a[1..], b);
    }
  }

  /** The two ways of saying it agree. */
  lemma {:induction false} SecondIs(items: seq<Item>, n: nat)
    requires n <= |items|
    ensures Second(RegionAt(items, n), LeftData(items, n), items[n..])
       <==> exists i: nat :: i >= n && InSecondRun(items, i)
    decreases |items| - n
  {
    if n < |items| {
      SecondIs(items, n + 1);
      assert items[n..][0] == items[n] && items[n..][1..] == items[n + 1..];
      assert InSecondRun(items, n) <==> items[n].Stmt? && RegionAt(items, n) == DataRegion && LeftData(items, n);
    }
  }

  lemma SingleRunIs(items: seq<Item>)
    ensures SingleRun(items) <==> !Second(ParallelImport.Header, false, items)
  {
    SecondIs(items, 0);
    assert items[0..] == items;
  }

  // ----------------------------------------------------------------- stretches

  lemma {:induction false} StmtsHold(region: Region, left: bool, texts: seq<string>)
    ensures Second(region, left, Stmts(texts)) <==> region == DataRegion && left && texts != []
    ensures LeftAfter(region, left, Stmts(texts)) == left && RegionAfter(region, Stmts(texts)) == region
  {
    if texts != [] {
      StmtsHold(region, left, texts[1..]);
    }
  }

  /** One marker, then pieces that stay in its region. */
  lemma StretchSecond(region: Region, left: bool, line: string, k: Kind, ps: seq<Piece>)
    requires Classify("--" + line) == Some(k) && AllUnmarked(ps)
    ensures var items := MeaningAll([LineComment(line)] + ps);
            && (Second(region, left, items) <==> RegionOf(k) == DataRegion && left && TextsOf(ps) != [])
            && LeftAfter(region, left, items) == LeftOn(region, left, RegionOf(k))
            && RegionAfter(region, items) == RegionOf(k)
  {
    var all := [LineComment(line)] + ps;
    assert all[1..] == ps && all[0] == LineComment(line) && Meaning(all[0]) == [Marker(k)];
    UnmarkedMeans(ps);
    StmtsHold(RegionOf(k), LeftOn(region, left, RegionOf(k)), TextsOf(ps));
    assert ([Marker(k)] + MeaningAll(ps))[1..] == MeaningAll(ps);
  }

  // ---------------------------------------------------------------------- tables

  /** The table's data region holds at least one statement. */
  predicate DataTable(o: Options, t: Table) {
    HasData(o, t) && t.data.Some? && TextsOf(t.data.value.inserts) != []
  }

  /** The DDL region of a table: no data statement, and the data region is behind us if it was ever entered. */
  lemma DdlSecond(region: Region, left: bool, o: Options, last: Option<string>, t: Table)
    requires TableOk(o, t)
    ensures var items := MeaningAll([MarkerTable(t)] + DdlPart(o, last, t));
            && !Second(region, left, items)
            && LeftAfter(region, left, items) == LeftOn(region, left, Ddl) && RegionAfter(region, items) == Ddl
  {
    hide Second, LeftAfter, RegionAfter, MeaningAll, DdlPart, Classify, AllUnmarked, TableOk, TextsOf, ExpectedDdl;
    TableLine(t);
    DdlReads(o, last, t);
    StretchSecond(region, left, MarkerTable(t).line, Splitter.Table, DdlPart(o, last, t));
  }

  /** Its data region. */
  lemma DataSecond(left: bool, o: Options, t: Table)
    requires TableOk(o, t) && HasData(o, t)
    ensures var items := MeaningAll([MarkerData(t.idx)] + DataPart(o, t));
            && (Second(Ddl, left, items) <==> left && DataTable(o, t))
            && RegionAfter(Ddl, items) == DataRegion
  {
    assert t.data.Some?;
    hide Second, LeftAfter, RegionAfter, MeaningAll, DataPart, Classify, AllUnmarked, TableOk, TextsOf;
    DataLine(t.idx);
    DataReads(o, t);
    StretchSecond(Ddl, left, MarkerData(t.idx).line, Splitter.Data, DataPart(o, t));
  }

  lemma {:induction false} TableSecond(region: Region, left: bool, o: Options, last: Option<string>, t: Table)
    requires TableOk(o, t)
    ensures var items, seen := MeaningAll(TablePieces(o, last, t)), left || region == DataRegion;
            && (Second(region, left, items) <==> seen && DataTable(o, t))
            && (LeftAfter(region, left, items) || RegionAfter(region, items) == DataRegion <==> seen || HasData(o, t))
  {
    assert DataTable(o, t) ==> HasData(o, t);
    hide Second, LeftAfter, RegionAfter, MeaningAll, DdlPart, DataPart, TableOk, HasData, DataTable,
         MarkerTable, MarkerData;
    var first := [MarkerTable(t)] + DdlPart(o, last, t);
    DdlSecond(region, left, o, last, t);
    if HasData(o, t) {
      var second := [MarkerData(t.idx)] + DataPart(o, t);
      DataSecond(LeftOn(region, left, Ddl), o, t);
      MeaningAppend(first, second);
      SecondAppend(region, left, MeaningAll(first), MeaningAll(second));
      ClassifiedAppend(region, MeaningAll(first), MeaningAll(second));
    } else {
      assert first + [] == first;
    }
  }

  /** A data table behind one that opened the data region. */
  predicate Clash(o: Options, seen: bool, ts: seq<Table>)
    decreases |ts|
  {
    ts != [] && ((seen && DataTable(o, ts[0])) || Clash(o, seen || HasData(o, ts[0]), ts[1..]))
  }

  lemma {:induction false} TablesSecond(region: Region, left: bool, o: Options, last: Option<string>, ts: seq<Table>)
    requires forall i :: 0 <= i < |ts| ==> TableOk(o, ts[i])
    ensures Second(region, left, MeaningAll(TablesPieces(o, last, ts))) <==> Clash(o, left || region == DataRegion, ts)
    decreases |ts|
  {
    if ts != [] {
      hide Second, LeftAfter, RegionAfter, MeaningAll, TablePieces, TableOk, DataTable, HasData;
      var a, b := TablePieces(o, last, ts[0]), TablesPieces(o, Some(ts[0].schema), ts[1..]);
      TableSecond(region, left, o, last, ts[0]);
      MeaningAppend(a, b);
      SecondAppend(region, left, MeaningAll(a), MeaningAll(b));
      TablesSecond(RegionAfter(region, MeaningAll(a)), LeftAfter(region, left, MeaningAll(a)),
                   o, Some(ts[0].schema), ts[1..]);
    }
  }

  /** Some table with data statements comes after another one with a data region. */
  ghost predicate TwoDataTables(o: Options, work: seq<Table>) {
    exists j, k :: 0 <= j < k < |work| && HasData(o, work[j]) && DataTable(o, work[k])
  }

  lemma {:induction false} ClashIs(o: Options, seen: bool, ts: seq<Table>)
    ensures Clash(o, seen, ts)
       <==> (exists k :: 0 <= k < |ts| && seen && DataTable(o, ts[k])) || TwoDataTables(o, ts)
    decreases |ts|
  {
    if ts != [] {
      hide DataTable, HasData;
      var rest := ts[1..];
      var now := seen || HasData(o, ts[0]);
      ClashIs(o, now, rest);
      assert forall k :: 0 <= k < |rest| ==> rest[k] == ts[k + 1];
      if k :| 0 <= k < |rest| && now && DataTable(o, rest[k]) {
        assert DataTable(o, ts[k + 1]);
        assert HasData(o, ts[0]) ==> TwoDataTables(o, ts);
      }
      if TwoDataTables(o, rest) {
        var j, k :| 0 <= j < k < |rest| && HasData(o, rest[j]) && DataTable(o, rest[k]);
        assert HasData(o, ts[j + 1]) && DataTable(o, ts[k + 1]);
      }
      if TwoDataTables(o, ts) {
        var j, k :| 0 <= j < k < |ts| && HasData(o, ts[j]) && DataTable(o, ts[k]);
        assert rest[k - 1] == ts[k];
        if j > 0 {
          assert rest[j - 1] == ts[j];
        }
      }
      if k :| 0 <= k < |ts| && seen && DataTable(o, ts[k]) {
        if k > 0 {
          assert rest[k - 1] == ts[k];
        }
      }
    }
  }

  // ---------------------------------------------------------------------- the file

  /** Nothing in front of the tables is in the data region. */
  lemma PreambleQuiet(h: DumpRegions.Header)
    ensures var items := MeaningAll(Preamble(h));
            !Second(ParallelImport.Header, false, items)
            && RegionAfter(ParallelImport.Header, items) == ParallelImport.Header
            && !LeftAfter(ParallelImport.Header, false, items)
  {
    hide Second, LeftAfter, RegionAfter, MeaningAll, Classify, TextsOf, Statements, AllUnmarked;
    FixedLines();
    PreambleTail(h);
    var rest := [BlockComment(h.comment), Space("\n\n")] + Statements(h.session, "\n") + [Space("\n")];
    assert Preamble(h) == [LineComment(" @BM:DUMP v1")] + rest;
    StretchSecond(ParallelImport.Header, false, " @BM:DUMP v1", Dump, rest);
  }

  /** Nor in the index region. */
  lemma IndexesQuiet(o: Options, region: Region, left: bool, d: Deferred)
    ensures !Second(region, left, MeaningAll(IndexRegionPieces(o, d)))
  {
    assert !Second(region, left, MeaningAll([]));
    FixedLines();
    IndexPiecesUnmarked(o, None, d);
    hide Second, LeftAfter, RegionAfter, MeaningAll, Classify, TextsOf, IndexPieces;
    StretchSecond(region, left, " @BM:I", Indexes, IndexPieces(o, None, d) + [Space("\n")]);
    Assoc([LineComment(" @BM:I")], IndexPieces(o, None, d), [Space("\n")]);
  }

  /** Nor in the footer. */
  lemma FooterQuiet(o: Options, region: Region, left: bool)
    ensures !Second(region, left, MeaningAll(FooterPieces(o)))
  {
    FixedLines();
    StatementsRead(FooterTexts(o), "\n");
    FooterIs(o);
    hide Second, LeftAfter, RegionAfter, MeaningAll, Classify, TextsOf, Statements, FooterTexts, FooterPieces;
    var stmts := Statements(FooterTexts(o), "\n");
    StretchSecond(region, left, " @BM:F", Splitter.Footer, [Space("\n")] + stmts);
    assert FooterPieces(o) == [LineComment(" @BM:F")] + ([Space("\n")] + stmts);
  }

  lemma {:induction false} FileSecond(o: Options, h: DumpRegions.Header, d: Deferred, work: seq<Table>)
    requires forall i :: 0 <= i < |work| ==> TableOk(o, work[i])
    ensures Second(ParallelImport.Header, false,
                   MeaningAll(Preamble(h) + TablesPieces(o, None, work) + IndexRegionPieces(o, d) + FooterPieces(o)))
       <==> TwoDataTables(o, work)
  {
    hide Second, LeftAfter, RegionAfter, MeaningAll, TableOk, Preamble, TablesPieces,
         IndexRegionPieces, FooterPieces, Clash;
    var r0 := ParallelImport.Header;
    var a, b, c, e := Preamble(h), TablesPieces(o, None, work), IndexRegionPieces(o, d), FooterPieces(o);
    var ma, mb, mc := MeaningAll(a), MeaningAll(b), MeaningAll(c);
    MeaningAppend(a, b);
    MeaningAppend(a + b, c);
    MeaningAppend(a + b + c, e);
    SecondAppend(r0, false, ma, mb);
    SecondAppend(r0, false, ma + mb, mc);
    SecondAppend(r0, false, ma + mb + mc, MeaningAll(e));
    PreambleQuiet(h);
    IndexesQuiet(o, RegionAfter(r0, ma + mb), LeftAfter(r0, false, ma + mb), d);
    FooterQuiet(o, RegionAfter(r0, ma + mb + mc), LeftAfter(r0, false, ma + mb + mc));
    TablesSecond(r0, false, o, None, work);
    ClashIs(o, false, work);
  }

  /** The item stream of a generated dump has one data run exactly when no two of its tables have data. */
  lemma {:induction false} DumpIsSingleRunIff(o: Options, h: DumpRegions.Header, work: seq<Table>)
    requires !o.zip && IsQuote(o.quote) && HeaderOk(h) && forall i :: 0 <= i < |work| ==> TableOk(o, work[i])
    ensures SingleRun(Whole(START, PrintAll(File(o, h, SerialAll(o, EMPTY, work))))) <==> !TwoDataTables(o, work)
  {
    hide Second, SingleRun, Whole, TableOk, HeaderOk, WellLaid, TwoDataTables, SerialAll;
    var s := SerialAll(o, EMPTY, work);
    SerialPieces(o, EMPTY, work);
    assert PiecesOf(s.ops) == TablesPieces(o, None, work);
    FileLaid(o, h, work);
    assert START == Between("") && Blank("");
    ReadsScript("", File(o, h, s));
    SingleRunIs(MeaningAll(File(o, h, s)));
    FileSecond(o, h, s.deferred, work);
  }

  /**
    Importing a generated dump in parallel: a run that ends without abort or stop has
    executed every statement of the dump exactly when no two tables have data.
  */
  lemma {:induction false} ParallelImportOfDump(
      o: Options, h: DumpRegions.Header, work: seq<Table>, c: Conf, run: seq<ParallelImport.State>, i: nat)
    requires !o.zip && IsQuote(o.quote) && HeaderOk(h) && forall k :: 0 <= k < |work| ==> TableOk(o, work[k])
    requires c.items == Whole(START, PrintAll(File(o, h, SerialAll(o, EMPTY, work))))
    requires IsRun(c, run) && c.workers > 0 && i < |run| && CleanEnd(run[i])
    ensures (forall d: nat :: d < |c.items| && c.items[d].Stmt? ==> Ran(run[i].log, d) == 1)
       <==> !TwoDataTables(o, work)
  {
    hide SingleRun, Whole, TableOk, HeaderOk, TwoDataTables, IsRun, CleanEnd, Ran;
    DumpIsSingleRunIff(o, h, work);
    CompleteIffSingleRun(c, run, i);
  }
}
