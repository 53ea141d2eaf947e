/**
  A single-file dump read back by the importer (src-tauri/src/sql_dump.rs against
  the marker fold of src-tauri/src/sql_import.rs): every statement lands in the
  region the writer meant it for.
*/
module DumpRegions {
  import opened Text
  import opened Splitter
  import opened Framing
  import opened DumpWriter
  import opened DumpMerge
  import opened ParallelImport

  /** What surrounds the tables: the free text of the header comment and the session statements. */
  datatype Header = Header(comment: string, session: seq<string>)

  // ------------------------------------------------------------------ the whole file

  function Statements(texts: seq<string>, gap: string): seq<Piece> {
    if texts == [] then [] else [Sql(texts[0], gap)] + Statements(texts[1..], gap)
  }

  function Preamble(h: Header): seq<Piece> {
    [LineComment(" @BM:DUMP v1"), BlockComment(h.comment), Space("\n\n")] + Statements(h.session, "\n") + [Space("\n")]
  }

  function SchemaContext(o: Options, schema: string): Piece {
    Sql((if o.pg then "SET search_path TO " else "USE ") + Ident(schema, o.quote), "\n")
  }

  function IndexPieces(o: Options, last: Option<string>, d: Deferred): seq<Piece>
    decreases |d|
  {
    if d == [] then []
    else
      (if o.createSchema && last != Some(d[0].0) then [SchemaContext(o, d[0].0)] else [])
        + [Free(d[0].1, "\n")]
        + IndexPieces(o, if o.createSchema then Some(d[0].0) else last, d[1..])
  }

  function IndexRegionPieces(o: Options, d: Deferred): seq<Piece> {
    if d == [] then []
    else [LineComment(" @BM:I")] + IndexPieces(o, None, d) + [Space("\n")]
  }

  function FooterPieces(o: Options): seq<Piece> {
    [LineComment(" @BM:F"), Space("\n")]
      + if o.pg then [] else [Sql("SET FOREIGN_KEY_CHECKS = 1", "\n"), Sql("SET UNIQUE_CHECKS = 1", "\n")]
  }

  function PiecesOf(ops: seq<Op>): seq<Piece> {
    if ops == [] then []
    else (match ops[0] case Put(p) => [p] case _ => []) + PiecesOf(ops[1..])
  }

  /** The file a finished assembly becomes. */
  function File(o: Options, h: Header, s: Assembly): seq<Piece> {
    Preamble(h) + PiecesOf(s.ops) + IndexRegionPieces(o, s.deferred) + FooterPieces(o)
  }

  // -------------------------------------------------------------------- the fold

  /** Each statement with the region in force where it stands. */
  function Classified(region: Region, items: seq<Item>): seq<(Region, string)>
    decreases |items|
  {
    if items == [] then []
    else
      match items[0]
      case Marker(k) => Classified(RegionOf(k), items[1..])
      case Stmt(s) => [(region, s)] + Classified(region, items[1..])
  }

  function RegionAfter(region: Region, items: seq<Item>): Region
    decreases |items|
  {
    if items == [] then region
    else RegionAfter(if items[0].Marker? then RegionOf(items[0].kind) else region, items[1..])
  }

  lemma {:induction false} ClassifiedAppend(region: Region, a: seq<Item>, b: seq<Item>)
    ensures Classified(region, a + b) == Classified(region, a) + Classified(RegionAfter(region, a), b)
    ensures RegionAfter(region, a + b) == RegionAfter(RegionAfter(region, a), b)
    decreases |a|
  {
    if a == [] {
      assert a + b == b;
    } else {
      DropPrefix(a, b, 1);
      match a[0]
      case Marker(k) => ClassifiedAppend(RegionOf(k), a[1..], b);
      case Stmt(s) => ClassifiedAppend(region, a[1..], b);
    }
  }

  /** The statements of pieces, read in a region they do not change. */
  function PieceTexts(p: Piece): seq<string> {
    match p
    case Sql(text, _) => [text]
    case Free(text, _) => FreeTexts(text)
    case _ => []
  }

  function TextsOf(ps: seq<Piece>): seq<string> {
    if ps == [] then [] else PieceTexts(ps[0]) + TextsOf(ps[1..])
  }

  function In(region: Region, texts: seq<string>): seq<(Region, string)> {
    if texts == [] then [] else [(region, texts[0])] + In(region, texts[1..])
  }

  /** Pieces that are not region markers. */
  predicate Unmarked(p: Piece) {
    p.LineComment? ==> Classify("--" + p.line).None?
  }

  predicate AllUnmarked(ps: seq<Piece>) {
    forall p :: p in ps ==> Unmarked(p)
  }

  lemma {:induction false} StmtsAppend(a: seq<string>, b: seq<string>)
    ensures Stmts(a + b) == Stmts(a) + Stmts(b)
  {
    if a == [] {
      assert a + b == b;
    } else {
      DropPrefix(a, b, 1);
      StmtsAppend(a[1..], b);
    }
  }

  lemma PieceMeans(p: Piece)
    requires Unmarked(p)
    ensures Meaning(p) == Stmts(PieceTexts(p))
  {
    if p.Sql? {
      assert [p.text][1..] == [] && [Stmt(p.text)] + [] == [Stmt(p.text)];
    }
  }

  lemma {:induction false} UnmarkedMeans(ps: seq<Piece>)
    requires AllUnmarked(ps)
    ensures MeaningAll(ps) == Stmts(TextsOf(ps))
  {
    if ps != [] {
      assert ps[0] in ps && forall p :: p in ps[1..] ==> p in ps;
      UnmarkedMeans(ps[1..]);
      PieceMeans(ps[0]);
      StmtsAppend(PieceTexts(ps[0]), TextsOf(ps[1..]));
    }
  }

  lemma {:induction false} StmtsStay(region: Region, texts: seq<string>)
    ensures Classified(region, Stmts(texts)) == In(region, texts)
    ensures RegionAfter(region, Stmts(texts)) == region
  {
    if texts != [] {
      StmtsStay(region, texts[1..]);
    }
  }

  lemma UnmarkedStays(region: Region, ps: seq<Piece>)
    requires AllUnmarked(ps)
    ensures Classified(region, MeaningAll(ps)) == In(region, TextsOf(ps))
    ensures RegionAfter(region, MeaningAll(ps)) == region
  {
    UnmarkedMeans(ps);
    StmtsStay(region, TextsOf(ps));
  }

  lemma {:induction false} MeaningAppend(a: seq<Piece>, b: seq<Piece>)
    ensures MeaningAll(a + b) == MeaningAll(a) + MeaningAll(b)
  {
    if a == [] {
      assert a + b == b;
    } else {
      DropPrefix(a, b, 1);
      MeaningAppend(a[1..], b);
      Assoc(Meaning(a[0]), MeaningAll(a[1..]), MeaningAll(b));
    }
  }

  /** A stretch of the file: one marker, then pieces that stay in its region. */
  lemma StretchReads(region: Region, line: string, k: Kind, ps: seq<Piece>)
    requires Classify("--" + line) == Some(k) && AllUnmarked(ps)
    ensures Classified(region, MeaningAll([LineComment(line)] + ps)) == In(RegionOf(k), TextsOf(ps))
    ensures RegionAfter(region, MeaningAll([LineComment(line)] + ps)) == RegionOf(k)
  {
    var all := [LineComment(line)] + ps;
    assert all[1..] == ps && all[0] == LineComment(line);
    assert Meaning(all[0]) == [Marker(k)];
    UnmarkedStays(RegionOf(k), ps);
    assert ([Marker(k)] + MeaningAll(ps))[1..] == MeaningAll(ps);
  }

  // ------------------------------------------------------------------- the markers

  lemma MarkedLine(rest: string)
    ensures TrimStart("-- @BM:" + rest) == "-- @BM:" + rest
    ensures StartsWith("-- @BM:" + rest, "-- @BM:") && ("-- @BM:" + rest)[7..] == rest
  {
  }

  /** The three markers that never vary. */
  lemma FixedLines()
    ensures Classify("--" + " @BM:DUMP v1") == Some(Dump)
    ensures Classify("--" + " @BM:I") == Some(Indexes)
    ensures Classify("--" + " @BM:F") == Some(Splitter.Footer)
  {
    MarkedLine("DUMP v1");
    assert "--" + " @BM:DUMP v1" == "-- @BM:" + "DUMP v1";
    MarkedLine("I");
    assert "--" + " @BM:I" == "-- @BM:" + "I" && TrimEnd("I") == "I";
    MarkedLine("F");
    assert "--" + " @BM:F" == "-- @BM:" + "F" && TrimEnd("F") == "F";
  }

  lemma TableRest(info: string)
    ensures Classify("-- @BM:" + ("T " + info)) == Some(Splitter.Table)
  {
    var rest := "T " + info;
    MarkedLine(rest);
    assert rest[0] == 'T' && "DUMP"[0] == 'D' && "T " <= rest;
  }

  lemma Fiveway(digits: string, schema: string, name: string)
    ensures "--" + (" @BM:T idx=" + digits + " schema=" + schema + " table=" + name)
         == "-- @BM:" + ("T " + ("idx=" + digits + " schema=" + schema + " table=" + name))
  {
    assert "--" + " @BM:T idx=" == "-- @BM:" + ("T " + "idx=");
  }

  lemma TableLine(t: Table)
    ensures Classify("--" + MarkerTable(t).line) == Some(Splitter.Table)
  {
    TableRest("idx=" + Digits(t.idx) + " schema=" + t.schema + " table=" + t.name);
    Fiveway(Digits(t.idx), t.schema, t.name);
  }

  lemma DataLine(idx: nat)
    ensures Classify("--" + MarkerData(idx).line) == Some(Splitter.Data)
  {
    var rest := "D " + ("idx=" + Digits(idx));
    MarkedLine(rest);
    assert "--" + MarkerData(idx).line == "-- @BM:" + rest;
    assert rest[1] == ' ' && "DUMP"[1] == 'U' && rest[0] == 'D' && "T "[0] == 'T' && "T\t"[0] == 'T' && "D " <= rest;
  }

  lemma OrdinaryLine(line: string)
    requires |line| > 1 && line[0] == ' ' && line[1] != '@'
    ensures Unmarked(LineComment(line))
  {
    var t := "--" + line;
    assert TrimStart(t) == t;
    assert t[3] == line[1] && "-- @BM:"[3] == '@';
  }

  // ----------------------------------------------------------------- what is expected

  /** What sets a schema up and makes it the current one. */
  function SchemaTexts(o: Options, schema: string): seq<string> {
    var name := Ident(schema, o.quote);
    if o.pg then ["CREATE SCHEMA IF NOT EXISTS " + name, "SET search_path TO " + name]
    else ["CREATE DATABASE IF NOT EXISTS " + name, "USE " + name]
  }

  /** The statements meant for each region, table by table: schema, DROP and CREATE. */
  function ExpectedDdl(o: Options, last: Option<string>, t: Table): seq<string> {
    (if o.createSchema && last != Some(t.schema) then SchemaTexts(o, t.schema) else [])
      + (match o.content
         case Data => []
         case _ =>
           (if o.dropBefore then
              ["DROP TABLE IF EXISTS " + Ident(t.name, o.quote) + (if o.pg then " CASCADE" else "")]
            else [])
             + (if t.ddl.Some? then FreeTexts(t.ddl.value) else []))
  }

  predicate HasData(o: Options, t: Table) {
    o.content != Structure && t.count.Some? && t.count.value > 0
  }

  function Expected(o: Options, last: Option<string>, ts: seq<Table>): seq<(Region, string)>
    decreases |ts|
  {
    if ts == [] then []
    else
      In(Ddl, ExpectedDdl(o, last, ts[0]))
        + (if HasData(o, ts[0]) && ts[0].data.Some? then In(DataRegion, TextsOf(ts[0].data.value.inserts)) else [])
        + Expected(o, Some(ts[0].schema), ts[1..])
  }

  // ------------------------------------------------------------------- well-formedness

  predicate NoNewline(s: string) {
    '\n' !in s
  }

  /** A statement of the data region, as the INSERT writer lays it out. */
  predicate InsertPiece(p: Piece) {
    p.Sql? && WellLaid(p) && Broken(p)
  }

  /** DDL and deferred statements may be any text that the splitter reads to its end. */
  predicate TableOk(o: Options, t: Table) {
    && NoNewline(t.schema) && NoNewline(t.name)
    && IdentOk(t.schema, o.quote) && IdentOk(t.name, o.quote)
    && (WantsStructure(o) ==> t.ddl.Some? && Settles(t.ddl.value))
    && (WantsData(o) ==> t.count.Some?)
    && (HasData(o, t) ==> t.data.Some? && forall p :: p in t.data.value.inserts ==> InsertPiece(p))
    && (forall d :: d in t.indexes ==> Settles(d))
  }

  predicate HeaderOk(h: Header) {
    && WellLaid(BlockComment(h.comment))
    && forall s :: s in h.session ==> WellLaid(Sql(s, "\n"))
  }

  // -------------------------------------------------------------- the tables' pieces

  function DdlPart(o: Options, last: Option<string>, t: Table): seq<Piece> {
    (if o.createSchema && last != Some(t.schema) then CreateSchema(o, t.schema) else [])
      + (if WantsStructure(o) && t.ddl.Some? then StructureHeader(o, t.name) + [DdlPiece(t.ddl.value)] else [])
  }

  function DataPart(o: Options, t: Table): seq<Piece> {
    Section("Records of", t.name) + if t.data.Some? then t.data.value.inserts else []
  }

  function TablePieces(o: Options, last: Option<string>, t: Table): seq<Piece> {
    [MarkerTable(t)] + DdlPart(o, last, t) + if HasData(o, t) then [MarkerData(t.idx)] + DataPart(o, t) else []
  }

  function TablesPieces(o: Options, last: Option<string>, ts: seq<Table>): seq<Piece>
    decreases |ts|
  {
    if ts == [] then [] else TablePieces(o, last, ts[0]) + TablesPieces(o, Some(ts[0].schema), ts[1..])
  }

  lemma {:induction false} PiecesAppend(a: seq<Op>, b: seq<Op>)
    ensures PiecesOf(a + b) == PiecesOf(a) + PiecesOf(b)
  {
    if a == [] {
      assert a + b == b;
    } else {
      DropPrefix(a, b, 1);
      PiecesAppend(a[1..], b);
      Assoc(PiecesOf([a[0]]), PiecesOf(a[1..]), PiecesOf(b));
      assert [a[0]][1..] == [] && PiecesOf([a[0]]) == match a[0] case Put(p) => [p] case _ => [];
    }
  }

  lemma PiecesCons(p: Piece, ops: seq<Op>)
    ensures PiecesOf([Put(p)] + ops) == [p] + PiecesOf(ops)
  {
    assert ([Put(p)] + ops)[1..] == ops;
  }

  lemma {:induction false} PiecesOfPuts(ps: seq<Piece>)
    ensures PiecesOf(Puts(ps)) == ps
  {
    if ps != [] {
      PiecesOfPuts(ps[1..]);
      PiecesCons(ps[0], Puts(ps[1..]));
      assert ps == [ps[0]] + ps[1..];
    }
  }

  /** The operations on one table's own sink, as pieces. */
  lemma DirectPieces(o: Options, t: Table)
    requires TableOk(o, t)
    ensures PiecesOf(DumpTableDirect(o, t).ops)
         == (if WantsStructure(o) then StructureHeader(o, t.name) + [DdlPiece(t.ddl.value)] else [])
            + (if HasData(o, t) then [MarkerData(t.idx)] + DataPart(o, t) else [])
  {
    var hp := if WantsStructure(o) then StructureHeader(o, t.name) + [DdlPiece(t.ddl.value)] else [];
    PiecesOfPuts(hp);
    assert WantsStructure(o) || Puts(hp) == [];
    if HasData(o, t) {
      var marks := [MarkerData(t.idx)] + Section("Records of", t.name);
      PiecesOfPuts(marks);
      PiecesOfPuts(t.data.value.inserts);
      PiecesAppend(Puts(hp), Puts(marks));
      PiecesAppend(Puts(hp) + Puts(marks), Puts(t.data.value.inserts));
      Assoc(hp, marks, t.data.value.inserts);
      Assoc([MarkerData(t.idx)], Section("Records of", t.name), t.data.value.inserts);
    } else {
      assert hp + [] == hp;
    }
  }

  lemma FramedPieces(o: Options, last: Option<string>, t: Table)
    requires TableOk(o, t) && !o.zip
    ensures PiecesOf(Framed(o, last, t, DumpTableDirect(o, t).ops)) == TablePieces(o, last, t)
  {
    var body := DumpTableDirect(o, t).ops;
    var cs := if o.createSchema && last != Some(t.schema) then CreateSchema(o, t.schema) else [];
    var hp := if WantsStructure(o) then StructureHeader(o, t.name) + [DdlPiece(t.ddl.value)] else [];
    var dp := if HasData(o, t) then [MarkerData(t.idx)] + DataPart(o, t) else [];
    DirectPieces(o, t);
    PiecesOfPuts(cs);
    PiecesAppend([Put(MarkerTable(t))], Puts(cs));
    PiecesAppend([Put(MarkerTable(t))] + Puts(cs), body);
    NoEntries([Put(MarkerTable(t))], Puts(cs), body);
    assert [Put(MarkerTable(t))][1..] == [] && PiecesOf([Put(MarkerTable(t))]) == [MarkerTable(t)];
    Assoc([MarkerTable(t)] + cs, hp, dp);
    Assoc([MarkerTable(t)], cs, hp);
  }

  lemma NoEntries(marker: seq<Op>, schema: seq<Op>, body: seq<Op>)
    ensures [] + [] + marker + schema + body + [] == marker + schema + body
  {
  }

  lemma {:induction false} SerialPieces(o: Options, s: Assembly, ts: seq<Table>)
    requires !o.zip && forall i :: 0 <= i < |ts| ==> TableOk(o, ts[i])
    ensures PiecesOf(SerialAll(o, s, ts).ops) == PiecesOf(s.ops) + TablesPieces(o, s.lastSchema, ts)
    decreases |ts|
  {
    if ts == [] {
      assert PiecesOf(s.ops) + [] == PiecesOf(s.ops);
    } else {
      var next := SerialStep(o, s, ts[0]);
      FramedPieces(o, s.lastSchema, ts[0]);
      PiecesAppend(s.ops, Framed(o, s.lastSchema, ts[0], DumpTableDirect(o, ts[0]).ops));
      SerialPieces(o, next, ts[1..]);
      Assoc(PiecesOf(s.ops), TablePieces(o, s.lastSchema, ts[0]), TablesPieces(o, next.lastSchema, ts[1..]));
    }
  }

  // ---------------------------------------------------------------- reading the tables

  lemma {:induction false} TextsAppend(a: seq<Piece>, b: seq<Piece>)
    ensures TextsOf(a + b) == TextsOf(a) + TextsOf(b)
  {
    if a == [] {
      assert a + b == b;
    } else {
      hide PieceTexts;
      DropPrefix(a, b, 1);
      TextsAppend(a[1..], b);
      Assoc(PieceTexts(a[0]), TextsOf(a[1..]), TextsOf(b));
    }
  }

  lemma {:induction false} CommentsOnly(ps: seq<Piece>)
    requires forall p :: p in ps ==> p.LineComment?
    ensures TextsOf(ps) == []
  {
    if ps != [] {
      assert ps[0] in ps && forall p :: p in ps[1..] ==> p in ps;
      CommentsOnly(ps[1..]);
    }
  }

  lemma SectionReads(kind: string, name: string)
    requires kind == "Records of" || kind == "Table structure for"
    ensures AllUnmarked(Section(kind, name)) && TextsOf(Section(kind, name)) == []
  {
    CommentsOnly(Section(kind, name));
    OrdinaryLine(" ----------------------------");
    var line := " " + kind + " of `" + name + "`";
    assert line[1] == kind[0];
    OrdinaryLine(line);
  }

  function DropPieces(o: Options, t: Table): seq<Piece> {
    if o.dropBefore then [Sql("DROP TABLE IF EXISTS " + Ident(t.name, o.quote) + Cascade(o), "\n")] else []
  }

  lemma StructureReads(o: Options, t: Table)
    requires t.ddl.Some?
    ensures var ps := StructureHeader(o, t.name) + [DdlPiece(t.ddl.value)];
            AllUnmarked(ps) && TextsOf(ps) == TextsOf(DropPieces(o, t)) + FreeTexts(t.ddl.value)
  {
    var sec, drop, ddl := Section("Table structure for", t.name), DropPieces(o, t), [DdlPiece(t.ddl.value)];
    SectionReads("Table structure for", t.name);
    TextsAppend(sec, drop);
    TextsAppend(sec + drop, ddl);
    hide FreeTexts;
    assert ddl[1..] == [] && FreeTexts(t.ddl.value) + [] == FreeTexts(t.ddl.value);
    assert [] + TextsOf(drop) == TextsOf(drop);
  }

  lemma TwoStatements(a: string, b: string, gapA: string, gapB: string)
    ensures TextsOf([Sql(a, gapA), Sql(b, gapB)]) == [a, b]
    ensures Statements([a, b], gapA) == [Sql(a, gapA), Sql(b, gapA)]
  {
    var ps := [Sql(a, gapA), Sql(b, gapB)];
    assert ps[1..] == [Sql(b, gapB)] && ps[1..][1..] == [];
    assert PieceTexts(ps[0]) == [a] && PieceTexts(ps[1]) == [b];
    assert TextsOf(ps[1..]) == [b] + [] == [b];
    assert [a, b][1..] == [b] && [b][1..] == [];
    assert Statements([b], gapA) == [Sql(b, gapA)];
  }

  lemma SchemaReads(o: Options, schema: string)
    ensures AllUnmarked(CreateSchema(o, schema)) && TextsOf(CreateSchema(o, schema)) == SchemaTexts(o, schema)
  {
    hide Ident, TextsOf;
    var cs := CreateSchema(o, schema);
    TwoStatements(cs[0].text, cs[1].text, "\n", "\n\n");
  }

  lemma DdlReads(o: Options, last: Option<string>, t: Table)
    requires TableOk(o, t)
    ensures AllUnmarked(DdlPart(o, last, t)) && TextsOf(DdlPart(o, last, t)) == ExpectedDdl(o, last, t)
  {
    hide WellLaid, IdentOk, Ident, Classify, FreeTexts, Settles;
    var cs := if o.createSchema && last != Some(t.schema) then CreateSchema(o, t.schema) else [];
    SchemaReads(o, t.schema);
    if WantsStructure(o) {
      StructureReads(o, t);
      TextsAppend(cs, StructureHeader(o, t.name) + [DdlPiece(t.ddl.value)]);
      var drop := DropPieces(o, t);
      assert o.dropBefore ==> drop[1..] == [] && TextsOf(drop) == [drop[0].text];
    } else {
      assert cs + [] == cs && TextsOf(cs) + [] == TextsOf(cs);
    }
  }

  lemma DataReads(o: Options, t: Table)
    requires TableOk(o, t) && HasData(o, t)
    ensures AllUnmarked(DataPart(o, t)) && TextsOf(DataPart(o, t)) == TextsOf(t.data.value.inserts)
  {
    SectionReads("Records of", t.name);
    TextsAppend(Section("Records of", t.name), t.data.value.inserts);
  }

  lemma {:induction false} DdlStretch(region: Region, o: Options, last: Option<string>, t: Table)
    requires TableOk(o, t)
    ensures var items := MeaningAll([MarkerTable(t)] + DdlPart(o, last, t));
            Classified(region, items) == In(Ddl, ExpectedDdl(o, last, t)) && RegionAfter(region, items) == Ddl
  {
    hide Classified, MeaningAll, TableOk, DdlPart, ExpectedDdl, Classify, RegionAfter;
    TableLine(t);
    DdlReads(o, last, t);
    StretchReads(region, MarkerTable(t).line, Splitter.Table, DdlPart(o, last, t));
  }

  lemma DataStretch(o: Options, t: Table)
    requires TableOk(o, t) && HasData(o, t)
    ensures t.data.Some?
    ensures Classified(Ddl, MeaningAll([MarkerData(t.idx)] + DataPart(o, t)))
         == In(DataRegion, TextsOf(t.data.value.inserts))
  {
    assert t.data.Some?;
    hide Classified, MeaningAll, TableOk, DataPart, Classify, HasData;
    DataLine(t.idx);
    DataReads(o, t);
    StretchReads(Ddl, MarkerData(t.idx).line, Splitter.Data, DataPart(o, t));
  }

  lemma TableReads(region: Region, o: Options, last: Option<string>, t: Table)
    requires TableOk(o, t)
    ensures Classified(region, MeaningAll(TablePieces(o, last, t)))
         == In(Ddl, ExpectedDdl(o, last, t))
            + if HasData(o, t) then In(DataRegion, TextsOf(t.data.value.inserts)) else []
  {
    hide Classified, MeaningAll, DdlPart, DataPart, ExpectedDdl, RegionAfter, In;
    var first := [MarkerTable(t)] + DdlPart(o, last, t);
    DdlStretch(region, o, last, t);
    if HasData(o, t) {
      var second := [MarkerData(t.idx)] + DataPart(o, t);
      DataStretch(o, t);
      MeaningAppend(first, second);
      ClassifiedAppend(region, MeaningAll(first), MeaningAll(second));
    } else {
      assert first + [] == first;
      assert In(Ddl, ExpectedDdl(o, last, t)) + [] == In(Ddl, ExpectedDdl(o, last, t));
    }
  }

  lemma {:induction false} TablesRead(region: Region, o: Options, last: Option<string>, ts: seq<Table>)
    requires forall i :: 0 <= i < |ts| ==> TableOk(o, ts[i])
    ensures Classified(region, MeaningAll(TablesPieces(o, last, ts))) == Expected(o, last, ts)
    decreases |ts|
  {
    if ts != [] {
      var a, b := TablePieces(o, last, ts[0]), TablesPieces(o, Some(ts[0].schema), ts[1..]);
      TableReads(region, o, last, ts[0]);
      MeaningAppend(a, b);
      ClassifiedAppend(region, MeaningAll(a), MeaningAll(b));
      TablesRead(RegionAfter(region, MeaningAll(a)), o, Some(ts[0].schema), ts[1..]);
    }
  }

  lemma {:induction false} StatementsRead(texts: seq<string>, gap: string)
    ensures AllUnmarked(Statements(texts, gap)) && TextsOf(Statements(texts, gap)) == texts
  {
    if texts != [] {
      StatementsRead(texts[1..], gap);
      assert Statements(texts, gap)[1..] == Statements(texts[1..], gap);
      assert texts == [texts[0]] + texts[1..];
    }
  }

  lemma {:induction false} IndexPiecesUnmarked(o: Options, last: Option<string>, d: Deferred)
    ensures AllUnmarked(IndexPieces(o, last, d))
    decreases |d|
  {
    if d != [] {
      IndexPiecesUnmarked(o, if o.createSchema then Some(d[0].0) else last, d[1..]);
    }
  }

  /** The deferred statements, each schema's group behind the statement that makes it current. */
  function IndexTexts(o: Options, last: Option<string>, d: Deferred): seq<string>
    decreases |d|
  {
    if d == [] then []
    else
      var (schema, statement) := d[0];
      (if o.createSchema && last != Some(schema) then
         [(if o.pg then "SET search_path TO " else "USE ") + Ident(schema, o.quote)]
       else [])
        + FreeTexts(statement)
        + IndexTexts(o, if o.createSchema then Some(schema) else last, d[1..])
  }

  lemma {:induction false} IndexPiecesRead(o: Options, last: Option<string>, d: Deferred)
    ensures TextsOf(IndexPieces(o, last, d)) == IndexTexts(o, last, d)
    decreases |d|
  {
    if d != [] {
      hide Ident, FreeTexts;
      var next := if o.createSchema then Some(d[0].0) else last;
      var context := if o.createSchema && last != Some(d[0].0) then [SchemaContext(o, d[0].0)] else [];
      IndexPiecesRead(o, next, d[1..]);
      TextsAppend(context + [Free(d[0].1, "\n")], IndexPieces(o, next, d[1..]));
      TextsAppend(context, [Free(d[0].1, "\n")]);
      assert context != [] ==> context[1..] == [];
      assert [Free(d[0].1, "\n")][1..] == [] && FreeTexts(d[0].1) + [] == FreeTexts(d[0].1);
    }
  }

  function ExpectedIndexes(o: Options, d: Deferred): seq<(Region, string)> {
    In(IndexRegion, IndexTexts(o, None, d))
  }

  /** What a MySQL dump restores at its end. */
  function FooterTexts(o: Options): seq<string> {
    if o.pg then [] else ["SET FOREIGN_KEY_CHECKS = 1", "SET UNIQUE_CHECKS = 1"]
  }

  lemma NoStatements()
    ensures Statements([], "\n") == []
  {
  }

  lemma FooterIs(o: Options)
    ensures FooterPieces(o) == [LineComment(" @BM:F"), Space("\n")] + Statements(FooterTexts(o), "\n")
  {
    hide Statements;
    if o.pg {
      NoStatements();
    } else {
      TwoStatements("SET FOREIGN_KEY_CHECKS = 1", "SET UNIQUE_CHECKS = 1", "\n", "\n");
    }
  }

  lemma SpaceTexts(gap: string)
    ensures TextsOf([Space(gap)]) == [] && AllUnmarked([Space(gap)])
    ensures forall comment: string :: TextsOf([BlockComment(comment), Space(gap)]) == []
  {
    assert [Space(gap)][1..] == [];
    forall comment: string ensures TextsOf([BlockComment(comment), Space(gap)]) == [] {
      assert [BlockComment(comment), Space(gap)][1..] == [Space(gap)];
      assert [] + TextsOf([Space(gap)]) == [];
    }
  }

  lemma PreambleTail(h: Header)
    ensures var rest := [BlockComment(h.comment), Space("\n\n")] + Statements(h.session, "\n") + [Space("\n")];
            AllUnmarked(rest) && TextsOf(rest) == h.session
  {
    hide TextsOf;
    var head, stmts, gap := [BlockComment(h.comment), Space("\n\n")], Statements(h.session, "\n"), [Space("\n")];
    StatementsRead(h.session, "\n");
    TextsAppend(head + stmts, gap);
    TextsAppend(head, stmts);
    SpaceTexts("\n\n");
    SpaceTexts("\n");
    assert [] + h.session == h.session && h.session + [] == h.session;
  }

  lemma PreambleReads(h: Header)
    ensures Classified(ParallelImport.Header, MeaningAll(Preamble(h))) == In(ParallelImport.Header, h.session)
  {
    hide Classified, MeaningAll, TextsOf, Statements, AllUnmarked, Classify;
    var rest := [BlockComment(h.comment), Space("\n\n")] + Statements(h.session, "\n") + [Space("\n")];
    FixedLines();
    PreambleTail(h);
    StretchReads(ParallelImport.Header, " @BM:DUMP v1", Dump, rest);
    assert Preamble(h) == [LineComment(" @BM:DUMP v1")] + rest;
  }

  lemma IndexRegionReads(region: Region, o: Options, d: Deferred)
    ensures Classified(region, MeaningAll(IndexRegionPieces(o, d))) == ExpectedIndexes(o, d)
  {
    if d != [] {
      var body := IndexPieces(o, None, d);
      FixedLines();
      IndexPiecesUnmarked(o, None, d);
      IndexPiecesRead(o, None, d);
      TextsAppend(body, [Space("\n")]);
      SpaceTexts("\n");
      assert TextsOf(body) + [] == TextsOf(body);
      StretchReads(region, " @BM:I", Indexes, body + [Space("\n")]);
      Assoc([LineComment(" @BM:I")], body, [Space("\n")]);
    }
  }

  lemma FooterReads(region: Region, o: Options)
    ensures Classified(region, MeaningAll(FooterPieces(o))) == In(FooterRegion, FooterTexts(o))
  {
    FooterIs(o);
    FixedLines();
    hide Classified, MeaningAll, TextsOf, Statements, FooterPieces, FooterTexts, Classify, In;
    var stmts := Statements(FooterTexts(o), "\n");
    StatementsRead(FooterTexts(o), "\n");
    TextsAppend([Space("\n")], stmts);
    SpaceTexts("\n");
    assert [] + FooterTexts(o) == FooterTexts(o);
    StretchReads(region, " @BM:F", Splitter.Footer, [Space("\n")] + stmts);
    assert FooterPieces(o) == [LineComment(" @BM:F")] + ([Space("\n")] + stmts);
  }

  // --------------------------------------------------------------- every piece is well laid

  predicate AllLaid(ps: seq<Piece>) {
    forall p :: p in ps ==> WellLaid(p) && Broken(p)
  }

  lemma {:induction false} DigitsClean(n: nat)
    ensures forall i :: 0 <= i < |Digits(n)| ==> Digits(n)[i] != '\n'
  {
    if n >= 10 {
      DigitsClean(n / 10);
    }
  }

  lemma MarkersLaid(t: Table)
    requires NoNewline(t.schema) && NoNewline(t.name)
    ensures WellLaid(MarkerTable(t)) && WellLaid(MarkerData(t.idx))
  {
    DigitsClean(t.idx);
    assert NoNewline(Digits(t.idx));
    assert NoNewline(" @BM:T idx=" + Digits(t.idx) + " schema=");
    assert NoNewline(" @BM:T idx=" + Digits(t.idx) + " schema=" + t.schema + " table=");
  }

  lemma SectionLaid(kind: string, name: string)
    requires NoNewline(kind) && NoNewline(name)
    ensures AllLaid(Section(kind, name))
  {
    assert NoNewline(" ----------------------------");
    assert NoNewline(" " + kind + " of `" + name + "`");
  }

  predicate Keywords(head: string) {
    |head| > 1 && NotDirective(head) && !IsSpace(head[0]) && forall i :: 0 <= i < |head| ==> Plain(head[i])
  }

  lemma NamedQuiet(head: string, name: string, q: char, tail: string)
    requires IsQuote(q) && IdentOk(name, q) && Keywords(head) && (tail == "" || tail == " CASCADE")
    ensures Framing.Complete(None, head + Ident(name, q) + tail)
  {
    PlainIsQuiet(tail + ")");
    IdentSealed(name, q);
    PlainIsQuiet(head);
    assert head[|head| - 1] != '\n';
    hide QuietFrom, Ident, IdentOk;
    if tail == "" {
      assert tail + ")" == ")";
    } else {
      NameIsQuiet(name, q, tail + ")");
    }
    QuietAppend(None, head, Ident(name, q) + (tail + ")"));
    assert head + Ident(name, q) + tail + ")" == head + (Ident(name, q) + (tail + ")"));
  }

  lemma NamedTight(head: string, quoted: string, q: char, tail: string)
    requires IsQuote(q) && Keywords(head) && (tail == "" || tail == " CASCADE")
    requires quoted != "" && quoted[|quoted| - 1] == q
    ensures Tight(head + quoted + tail) && NotDirective(head + quoted + tail)
  {
    var text := head + quoted + tail;
    assert text[0] == head[0] && text[1] == head[1];
    assert tail == "" ==> text[|text| - 1] == quoted[|quoted| - 1];
    assert tail != "" ==> text[|text| - 1] == tail[|tail| - 1];
  }

  /** Keywords, a quoted name, perhaps more keywords. */
  lemma {:induction false} NamedLaid(head: string, name: string, q: char, tail: string, gap: string)
    requires IsQuote(q) && IdentOk(name, q) && Blank(gap) && LineStart(gap)
    requires Keywords(head) && (tail == "" || tail == " CASCADE")
    ensures WellLaid(Sql(head + Ident(name, q) + tail, gap))
  {
    NamedQuiet(head, name, q, tail);
    NamedTight(head, Ident(name, q), q, tail);
  }

  lemma DropsLaid(o: Options, t: Table)
    requires IsQuote(o.quote) && IdentOk(t.name, o.quote)
    ensures AllLaid(DropPieces(o, t))
  {
    hide WellLaid, IdentOk, Ident;
    NamedLaid("DROP TABLE IF EXISTS ", t.name, o.quote, Cascade(o), "\n");
  }

  lemma DdlLaid(ddl: string)
    requires Settles(ddl)
    ensures AllLaid([DdlPiece(ddl)])
  {
    hide Settles;
  }

  lemma StructureLaid(o: Options, t: Table)
    requires IsQuote(o.quote) && TableOk(o, t) && WantsStructure(o)
    ensures AllLaid(StructureHeader(o, t.name) + [DdlPiece(t.ddl.value)])
  {
    hide WellLaid, IdentOk, Ident, Section, Settles, Broken, AllLaid, DdlPiece;
    SectionLaid("Table structure for", t.name);
    DropsLaid(o, t);
    DdlLaid(t.ddl.value);
    LaidAppend(Section("Table structure for", t.name), DropPieces(o, t));
    LaidAppend(StructureHeader(o, t.name), [DdlPiece(t.ddl.value)]);
  }

  lemma DdlPartLaid(o: Options, last: Option<string>, t: Table)
    requires IsQuote(o.quote) && TableOk(o, t)
    ensures AllLaid(DdlPart(o, last, t))
  {
    SchemaLaid(o, t.schema);
    if WantsStructure(o) {
      StructureLaid(o, t);
    }
    hide WellLaid, CreateSchema, StructureHeader;
    LaidAppend(if o.createSchema && last != Some(t.schema) then CreateSchema(o, t.schema) else [],
               if WantsStructure(o) && t.ddl.Some? then StructureHeader(o, t.name) + [DdlPiece(t.ddl.value)] else []);
  }

  /** A statement of keywords and one quoted name, with each gap the writer uses. */
  lemma NameStatementLaid(head: string, name: string, q: char)
    requires IsQuote(q) && IdentOk(name, q) && Keywords(head)
    ensures WellLaid(Sql(head + Ident(name, q), "\n")) && WellLaid(Sql(head + Ident(name, q), "\n\n"))
  {
    hide WellLaid, IdentOk, Ident;
    NamedLaid(head, name, q, "", "\n");
    NamedLaid(head, name, q, "", "\n\n");
    assert head + Ident(name, q) + "" == head + Ident(name, q);
  }

  lemma {:induction false} SchemaLaid(o: Options, schema: string)
    requires IsQuote(o.quote) && IdentOk(schema, o.quote)
    ensures AllLaid(CreateSchema(o, schema)) && WellLaid(SchemaContext(o, schema))
  {
    hide WellLaid, IdentOk, Ident;
    if o.pg {
      NameStatementLaid("CREATE SCHEMA IF NOT EXISTS ", schema, o.quote);
      NameStatementLaid("SET search_path TO ", schema, o.quote);
    } else {
      NameStatementLaid("CREATE DATABASE IF NOT EXISTS ", schema, o.quote);
      NameStatementLaid("USE ", schema, o.quote);
    }
  }

  lemma {:induction false} TablesLaid(o: Options, last: Option<string>, ts: seq<Table>)
    requires IsQuote(o.quote) && forall i :: 0 <= i < |ts| ==> TableOk(o, ts[i])
    ensures AllLaid(TablesPieces(o, last, ts))
    decreases |ts|
  {
    if ts != [] {
      var t := ts[0];
      MarkersLaid(t);
      DdlPartLaid(o, last, t);
      SectionLaid("Records of", t.name);
      TablesLaid(o, Some(t.schema), ts[1..]);
    }
  }

  predicate DeferredOk(o: Options, d: Deferred) {
    forall x :: x in d ==> IdentOk(x.0, o.quote) && Settles(x.1)
  }

  lemma {:induction false} IndexesLaid(o: Options, last: Option<string>, d: Deferred)
    requires IsQuote(o.quote) && DeferredOk(o, d)
    ensures AllLaid(IndexPieces(o, last, d))
    decreases |d|
  {
    if d != [] {
      assert d[0] in d;
      SchemaLaid(o, d[0].0);
      IndexesLaid(o, if o.createSchema then Some(d[0].0) else last, d[1..]);
    }
  }

  lemma {:induction false} OwnedOk(o: Options, schema: string, stmts: seq<string>)
    requires IdentOk(schema, o.quote) && forall d :: d in stmts ==> Settles(d)
    ensures DeferredOk(o, Owned(schema, stmts))
  {
    if stmts != [] {
      assert stmts[0] in stmts && forall d :: d in stmts[1..] ==> d in stmts;
      OwnedOk(o, schema, stmts[1..]);
    }
  }

  lemma {:induction false} SerialDeferredOk(o: Options, s: Assembly, ts: seq<Table>)
    requires DeferredOk(o, s.deferred) && forall i :: 0 <= i < |ts| ==> TableOk(o, ts[i])
    ensures DeferredOk(o, SerialAll(o, s, ts).deferred)
    decreases |ts|
  {
    if ts != [] {
      var d := DumpTableDirect(o, ts[0]).deferred;
      assert d == [] || d == ts[0].indexes;
      OwnedOk(o, ts[0].schema, d);
      SerialDeferredOk(o, SerialStep(o, s, ts[0]), ts[1..]);
    }
  }

  lemma {:induction false} StatementsLaid(texts: seq<string>, gap: string)
    requires LineStart(gap) && forall s :: s in texts ==> WellLaid(Sql(s, gap))
    ensures AllLaid(Statements(texts, gap))
  {
    if texts != [] {
      assert texts[0] in texts;
      StatementsLaid(texts[1..], gap);
    }
  }

  lemma FooterLaid(o: Options)
    ensures AllLaid(FooterPieces(o))
  {
    hide WellLaid;
    FooterStatementsLaid();
    MarkLaid();
  }

  lemma FooterStatementsLaid()
    ensures WellLaid(Sql("SET FOREIGN_KEY_CHECKS = 1", "\n")) && WellLaid(Sql("SET UNIQUE_CHECKS = 1", "\n"))
  {
    KeywordsLaid("SET FOREIGN_KEY_CHECKS = 1");
    KeywordsLaid("SET UNIQUE_CHECKS = 1");
  }

  lemma MarkLaid()
    ensures WellLaid(LineComment(" @BM:F")) && WellLaid(Space("\n"))
  {
  }

  lemma KeywordsLaid(text: string)
    requires Tight(text) && NotDirective(text) && forall i :: 0 <= i < |text| ==> Plain(text[i])
    ensures WellLaid(Sql(text, "\n"))
  {
    PlainIsQuiet(text);
    QuietCompletes(text);
  }

  lemma FileLaid(o: Options, h: Header, work: seq<Table>)
    requires !o.zip && IsQuote(o.quote) && HeaderOk(h) && forall i :: 0 <= i < |work| ==> TableOk(o, work[i])
    ensures AllLaid(File(o, h, SerialAll(o, EMPTY, work)))
  {
    var s := SerialAll(o, EMPTY, work);
    SerialPieces(o, EMPTY, work);
    assert [] + TablesPieces(o, None, work) == TablesPieces(o, None, work);
    TablesLaid(o, None, work);
    SerialDeferredOk(o, EMPTY, work);
    IndexRegionLaid(o, s.deferred);
    FooterLaid(o);
    PreambleLaid(h);
    LaidAppend(Preamble(h), PiecesOf(s.ops));
    LaidAppend(Preamble(h) + PiecesOf(s.ops), IndexRegionPieces(o, s.deferred));
    LaidAppend(Preamble(h) + PiecesOf(s.ops) + IndexRegionPieces(o, s.deferred), FooterPieces(o));
  }

  lemma LaidAppend(a: seq<Piece>, b: seq<Piece>)
    requires AllLaid(a) && AllLaid(b)
    ensures AllLaid(a + b)
  {
  }

  lemma PreambleLaid(h: Header)
    requires HeaderOk(h)
    ensures AllLaid(Preamble(h))
  {
    StatementsLaid(h.session, "\n");
  }

  lemma IndexRegionLaid(o: Options, d: Deferred)
    requires IsQuote(o.quote) && DeferredOk(o, d)
    ensures AllLaid(IndexRegionPieces(o, d))
  {
    IndexesLaid(o, None, d);
  }

  // ----------------------------------------------------------------------- the theorem

  /**
    Region fidelity: reading a generated single-file dump, the importer's marker
    fold finds the session statements in the header region, each table's schema,
    DROP and CREATE statements in the DDL region and its inserts in the data region,
    the deferred indexes in the index region and the restoring statements in the
    footer region, all in the order they were written.
  */
  lemma {:induction false} RegionFidelity(o: Options, h: Header, work: seq<Table>)
    requires !o.zip && IsQuote(o.quote) && HeaderOk(h) && forall i :: 0 <= i < |work| ==> TableOk(o, work[i])
    ensures var s := SerialAll(o, EMPTY, work);
            Classified(ParallelImport.Header, Whole(START, PrintAll(File(o, h, s))))
            == In(ParallelImport.Header, h.session) + Expected(o, None, work)
               + ExpectedIndexes(o, s.deferred) + In(FooterRegion, FooterTexts(o))
  {
    var s := SerialAll(o, EMPTY, work);
    var tables := PiecesOf(s.ops);
    SerialPieces(o, EMPTY, work);
    assert tables == TablesPieces(o, None, work);
    FileLaid(o, h, work);
    assert START == Between("") && Blank("");
    ReadsScript("", File(o, h, s));
    FileMeans(o, h, tables, s.deferred, work);
  }

  lemma {:induction false} FileMeans(o: Options, h: Header, tables: seq<Piece>, d: Deferred, work: seq<Table>)
    requires tables == TablesPieces(o, None, work) && forall i :: 0 <= i < |work| ==> TableOk(o, work[i])
    ensures Classified(ParallelImport.Header,
                       MeaningAll(Preamble(h) + tables + IndexRegionPieces(o, d) + FooterPieces(o)))
         == In(ParallelImport.Header, h.session) + Expected(o, None, work)
            + ExpectedIndexes(o, d) + In(FooterRegion, FooterTexts(o))
  {
    var r0 := ParallelImport.Header;
    var a, b, c, e := Preamble(h), tables, IndexRegionPieces(o, d), FooterPieces(o);
    var ma, mb, mc := MeaningAll(a), MeaningAll(b), MeaningAll(c);
    MeaningAppend(a, b);
    MeaningAppend(a + b, c);
    MeaningAppend(a + b + c, e);
    ClassifiedAppend(r0, ma, mb);
    ClassifiedAppend(r0, ma + mb, mc);
    ClassifiedAppend(r0, ma + mb + mc, MeaningAll(e));
    PreambleReads(h);
    TablesRead(RegionAfter(r0, ma), o, None, work);
    IndexRegionReads(RegionAfter(r0, ma + mb), o, d);
    FooterReads(RegionAfter(r0, ma + mb + mc), o);
  }
}
