/**
  A generated dump imported by the sequential path, from the bytes of the file to the
  database: the splitter reads it chunk by chunk, the importer batches and executes.
*/
module DumpInline {
  import opened Text
  import opened Splitter
  import opened ChunkIndependence
  import opened Framing
  import opened DumpWriter
  import opened DumpMerge
  import opened DumpRegions
  import opened DumpSelection
  import opened InlineImport
  import P = ParallelImport

  /** The texts of classified statements. */
  function TextsIn(pairs: seq<(P.Region, string)>): seq<string> {
    if pairs == [] then [] else [pairs[0].1] + TextsIn(pairs[1..])
  }

  /** What the statement filter leaves of some statements. */
  function Selected<Db>(c: Config<Db>, texts: seq<string>): seq<string> {
    if texts == [] then []
    else
      match c.prepare(texts[0])
      case Some(sql) => [sql] + Selected(c, texts[1..])
      case None => Selected(c, texts[1..])
  }

  /** The statements of a table after another: its DDL, then its INSERTs. */
  function TableStatements(o: Options, last: Option<string>, ts: seq<Table>): seq<string>
    decreases |ts|
  {
    if ts == [] then []
    else
      ExpectedDdl(o, last, ts[0])
        + (if HasData(o, ts[0]) && ts[0].data.Some? then TextsOf(ts[0].data.value.inserts) else [])
        + TableStatements(o, Some(ts[0].schema), ts[1..])
  }

  /** The statements of a dump, in the order of the file. */
  function DumpStatements(o: Options, h: Header, work: seq<Table>): seq<string> {
    h.session + TableStatements(o, None, work)
      + IndexTexts(o, None, LaterAll(o, work, true)) + FooterTexts(o)
  }

  lemma {:induction false} TextsInAppend(a: seq<(P.Region, string)>, b: seq<(P.Region, string)>)
    ensures TextsIn(a + b) == TextsIn(a) + TextsIn(b)
  {
    if a == [] {
      assert a + b == b;
    } else {
      DropPrefix(a, b, 1);
      TextsInAppend(a[1..], b);
    }
  }

  lemma {:induction false} TextsOfRegion(region: P.Region, texts: seq<string>)
    ensures TextsIn(In(region, texts)) == texts
  {
    if texts != [] {
      TextsOfRegion(region, texts[1..]);
      assert texts == [texts[0]] + texts[1..];
    }
  }

  lemma {:induction false} TablesHold(o: Options, last: Option<string>, ts: seq<Table>)
    ensures TextsIn(Expected(o, last, ts)) == TableStatements(o, last, ts)
    decreases |ts|
  {
    if ts != [] {
      hide ExpectedDdl, HasData, TextsOf, In, TextsIn;
      var t := ts[0];
      var ddl := ExpectedDdl(o, last, t);
      var data := if HasData(o, t) && t.data.Some? then In(P.DataRegion, TextsOf(t.data.value.inserts)) else [];
      TablesHold(o, Some(t.schema), ts[1..]);
      TextsOfRegion(P.Ddl, ddl);
      if HasData(o, t) && t.data.Some? {
        TextsOfRegion(P.DataRegion, TextsOf(t.data.value.inserts));
      }
      NoPairs();
      TextsInAppend(In(P.Ddl, ddl) + data, Expected(o, Some(t.schema), ts[1..]));
      TextsInAppend(In(P.Ddl, ddl), data);
    }
  }

  lemma NoPairs()
    ensures TextsIn([]) == []
  {
  }

  /** Whatever the regions, what is left to run of a stream is what is left of its statements. */
  lemma {:induction false} PreparedIs<Db>(c: Config<Db>, region: P.Region, items: seq<Item>)
    ensures Prepared(c, items) == Selected(c, TextsIn(Classified(region, items)))
    decreases |items|
  {
    if items != [] {
      hide PreparedOne;
      match items[0]
      case Marker(k) =>
        PreparedIs(c, P.RegionOf(k), items[1..]);
        assert PreparedOne(c, items[0]) == [] by { MarkerPrepares(c, k); }
      case Stmt(s) =>
        PreparedIs(c, region, items[1..]);
        var all, more := Classified(region, items), Classified(region, items[1..]);
        assert all[0] == (region, s) && all[1..] == more;
        assert TextsIn(all)[0] == s && TextsIn(all)[1..] == TextsIn(more);
        StatementPrepares(c, s);
        assert [] + Selected(c, TextsIn(more)) == Selected(c, TextsIn(more));
    }
  }

  lemma StatementPrepares<Db>(c: Config<Db>, s: string)
    ensures PreparedOne(c, Stmt(s)) == match c.prepare(s) case Some(sql) => [sql] case None => []
  {
  }

  lemma MarkerPrepares<Db>(c: Config<Db>, k: Kind)
    ensures PreparedOne(c, Marker(k)) == []
  {
  }

  /** Reading a generated dump leaves to run exactly its statements, in the order of the file. */
  lemma {:induction false} DumpPrepares<Db>(c: Config<Db>, o: Options, h: Header, work: seq<Table>)
    requires !o.zip && IsQuote(o.quote) && HeaderOk(h) && forall i :: 0 <= i < |work| ==> TableOk(o, work[i])
    ensures Prepared(c, Whole(START, PrintAll(File(o, h, SerialAll(o, EMPTY, work)))))
         == Selected(c, DumpStatements(o, h, work))
  {
    hide Whole, Prepared, Classified, TextsIn, In, TableOk, HeaderOk, Expected, TableStatements, IndexTexts,
         FooterTexts, File;
    var s := SerialAll(o, EMPTY, work);
    var items := Whole(START, PrintAll(File(o, h, s)));
    PreparedIs(c, P.Header, items);
    RegionFidelity(o, h, work);
    var head, tables := In(P.Header, h.session), Expected(o, None, work);
    var indexes, foot := ExpectedIndexes(o, s.deferred), In(P.FooterRegion, FooterTexts(o));
    TextsInAppend(head + tables + indexes, foot);
    TextsInAppend(head + tables, indexes);
    TextsInAppend(head, tables);
    TextsOfRegion(P.Header, h.session);
    TablesHold(o, None, work);
    DumpTotals(o, work);
    TextsOfRegion(P.IndexRegion, IndexTexts(o, None, s.deferred));
    TextsOfRegion(P.FooterRegion, FooterTexts(o));
  }

  /**
    The inline import of a dump, in whatever chunks its file is read: the database and
    the counters end as if the session statements, each table's DDL and INSERTs, the
    deferred indexes and the footer had been executed one by one in that order.
  */
  method ImportDump<Db>(sp: StreamSplitter, imp: Importer<Db>, chunks: seq<string>,
                        ghost o: Options, ghost h: Header, ghost work: seq<Table>)
    requires !o.zip && IsQuote(o.quote) && HeaderOk(h) && forall i :: 0 <= i < |work| ==> TableOk(o, work[i])
    requires Flatten(chunks) == PrintAll(File(o, h, SerialAll(o, EMPTY, work))) && SafeRun(START, Flatten(chunks))
    requires sp.Valid() && sp.Snapshot() == START && sp.carry == "" && !imp.abort && imp.batch == [] && imp.Small()
    modifies sp, imp
    ensures imp.Shown() == RunAll(imp.config, old(imp.Shown()), Selected(imp.config, DumpStatements(o, h, work)))
    ensures imp.batch == []
  {
    hide Whole, Prepared, RunAll, Selected, DumpStatements, TableOk, HeaderOk, File, SerialAll, SafeRun;
    DumpPrepares(imp.config, o, h, work);
    var items := FeedStream(sp, chunks);
    imp.Run(items, |items|);
    assert items[..|items|] == items;
  }
}
