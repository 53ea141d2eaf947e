/**
  What a dump holds, table by table, for each content the user can ask for, and how a
  zip dump files it (src-tauri/src/sql_dump.rs): said on the operations that reach the
  sink, for the serial writer and for the merge of staged tables.
*/
module DumpSelection {
  import opened Text
  import opened Framing
  import opened DumpWriter
  import opened DumpMerge
  import opened DumpRegions

  // ----------------------------------------------------------- the pieces that matter

  /** A CREATE, or the DROP in front of it. */
  predicate IsStructure(p: Piece) {
    p.Free? || (p.Sql? && StartsWith(p.text, "DROP TABLE "))
  }

  /** A data marker or an INSERT. */
  predicate IsRecord(p: Piece) {
    (p.LineComment? && StartsWith(p.line, " @BM:D ")) || (p.Sql? && StartsWith(p.text, "INSERT INTO "))
  }

  /** The structure pieces of a script, or its record pieces, in order. */
  function Only(records: bool, ps: seq<Piece>): seq<Piece> {
    if ps == [] then []
    else (if (if records then IsRecord(ps[0]) else IsStructure(ps[0])) then [ps[0]] else []) + Only(records, ps[1..])
  }

  /** What the data query of a table yields are INSERTs, whether it ends well or not. */
  predicate YieldsInserts(t: Table) {
    && (forall p :: p in t.partial ==> InsertText(p))
    && (t.data.Some? ==> forall p :: p in t.data.value.inserts ==> InsertText(p))
  }

  predicate InsertText(p: Piece) {
    p.Sql? && StartsWith(p.text, "INSERT INTO ")
  }

  /** As the INSERT writer's pieces are. */
  lemma WriterYieldsInserts(b: Batch, style: Style, groups: seq<seq<string>>, gap: string)
    ensures forall p :: p in Pieces(b, style, groups, gap) ==> InsertText(p)
  {
    var pieces := Pieces(b, style, groups, gap);
    forall p | p in pieces ensures InsertText(p) {
      var k :| 0 <= k < |pieces| && pieces[k] == p;
      var s, t := Ident(b.schema, style.quote), Ident(b.table, style.quote);
      Regroup("INSERT INTO ", s, ".", t, ColumnList(b, style), style.overriding, " VALUES\n");
      Assoc("INSERT INTO ", s + ("." + (t + PrefixTail(b, style))), Join(groups[k], SEP));
    }
  }

  // ------------------------------------------------------------------- what is wanted

  /** The structure of a table whose CREATE could be fetched. */
  function Created(o: Options, t: Table): seq<Piece> {
    match t.ddl
    case None => []
    case Some(ddl) =>
      (if o.dropBefore then
         [Sql("DROP TABLE IF EXISTS " + Ident(t.name, o.quote) + (if o.pg then " CASCADE" else ""), "\n")]
       else [])
        + [Free(ddl, "\n\n")]
  }

  /**
    The records of a table with counted rows. The serial writer keeps what a failed
    query had yielded, and opens the region even if the rows have gone by then.
  */
  function Records(t: Table, serial: bool): seq<Piece> {
    var marker := LineComment(" @BM:D idx=" + Digits(t.idx));
    if t.count.None? || t.count.value == 0 then []
    else
      match t.data
      case None => if serial then [marker] + t.partial else []
      case Some(f) => if serial || f.rows > 0 then [marker] + f.inserts else []
  }

  /** What is to be put for one table. Its data go with a structure that failed. */
  function Wanted(records: bool, o: Options, t: Table, serial: bool): seq<Piece> {
    match o.content
    case Structure => if records then [] else Created(o, t)
    case Data => if records then Records(t, serial) else []
    case Both => if !records then Created(o, t) else if t.ddl.None? then [] else Records(t, serial)
  }

  function WantedAll(records: bool, o: Options, ts: seq<Table>, serial: bool): seq<Piece> {
    if ts == [] then [] else Wanted(records, o, ts[0], serial) + WantedAll(records, o, ts[1..], serial)
  }

  // --------------------------------------------------------------------------- proofs

  lemma {:induction false} OnlyAppend(records: bool, a: seq<Piece>, b: seq<Piece>)
    ensures Only(records, a + b) == Only(records, a) + Only(records, b)
  {
    if a == [] {
      assert a + b == b;
    } else {
      hide IsStructure, IsRecord;
      DropPrefix(a, b, 1);
      OnlyAppend(records, a[1..], b);
      Assoc(Only(records, [a[0]]), Only(records, a[1..]), Only(records, b));
      assert [a[0]][1..] == [];
    }
  }

  lemma {:induction false} NoneOf(records: bool, ps: seq<Piece>)
    requires forall p :: p in ps ==> if records then !IsRecord(p) else !IsStructure(p)
    ensures Only(records, ps) == []
  {
    if ps != [] {
      assert ps[0] in ps;
      NoneOf(records, ps[1..]);
    }
  }

  lemma {:induction false} AllInserts(ps: seq<Piece>)
    requires forall p :: p in ps ==> InsertText(p)
    ensures Only(true, ps) == ps && Only(false, ps) == []
  {
    if ps != [] {
      assert ps[0] in ps && ps[0].text[0] == 'I';
      AllInserts(ps[1..]);
    }
  }

  /** The statements that set a schema up are neither. */
  lemma SchemaIsNeither(records: bool, o: Options, schema: string)
    ensures Only(records, CreateSchema(o, schema)) == []
  {
    var q := Ident(schema, o.quote);
    assert ("CREATE SCHEMA IF NOT EXISTS " + q)[0] == 'C' && ("CREATE DATABASE IF NOT EXISTS " + q)[0] == 'C';
    assert ("SET search_path TO " + q)[0] == 'S' && ("USE " + q)[0] == 'U';
    hide Ident;
    NoneOf(records, CreateSchema(o, schema));
  }

  lemma SectionIsNeither(records: bool, kind: string, name: string)
    requires kind == "Records of" || kind == "Table structure for"
    ensures Only(records, Section(kind, name)) == []
  {
    var line := " " + kind + " of `" + name + "`";
    assert line[1] == kind[0] && " @BM:D "[1] == '@';
    assert !StartsWith(line, " @BM:D ") && !StartsWith(" ----------------------------", " @BM:D ");
    NoneOf(records, Section(kind, name));
  }

  lemma MarkerIsNeither(records: bool, t: Table)
    ensures Only(records, [MarkerTable(t)]) == []
  {
    assert MarkerTable(t).line[5] == 'T';
    NoneOf(records, [MarkerTable(t)]);
  }

  /** What frames a table's own operations holds neither structure nor records. */
  lemma FrameIsNeither(records: bool, o: Options, last: Option<string>, t: Table, body: seq<Op>)
    ensures Only(records, PiecesOf(Framed(o, last, t, body))) == Only(records, PiecesOf(body))
  {
    hide Only, CreateSchema, MarkerTable, PiecesOf, Puts;
    var isNew := o.createSchema && last != Some(t.schema);
    var cs := Puts(CreateSchema(o, t.schema));
    var a := if o.zip && isNew then [Open(t.schema + "/00_schema.sql")] + cs + [Close] else [];
    var b: seq<Op> := if o.zip then [Open(t.schema + "/" + t.name + ".sql")] else [];
    var c := [Put(MarkerTable(t))];
    var d := if !o.zip && isNew then cs else [];
    var e: seq<Op> := if o.zip then [Close] else [];
    NothingHeld(records, o, t);
    PiecesAppend([Open(t.schema + "/00_schema.sql")] + cs, [Close]);
    PiecesAppend([Open(t.schema + "/00_schema.sql")], cs);
    assert [] + PiecesOf(cs) + [] == PiecesOf(cs);
    Spread(records, a, b);
    Spread(records, a + b, c);
    Spread(records, a + b + c, d);
    Spread(records, a + b + c + d, body);
    Spread(records, a + b + c + d + body, e);
  }

  lemma Spread(records: bool, a: seq<Op>, b: seq<Op>)
    ensures Only(records, PiecesOf(a + b)) == Only(records, PiecesOf(a)) + Only(records, PiecesOf(b))
  {
    PiecesAppend(a, b);
    OnlyAppend(records, PiecesOf(a), PiecesOf(b));
  }

  lemma NothingHeld(records: bool, o: Options, t: Table)
    ensures Only(records, PiecesOf(Puts(CreateSchema(o, t.schema)))) == []
    ensures Only(records, PiecesOf([Put(MarkerTable(t))])) == []
    ensures forall name :: PiecesOf([Open(name)]) == []
    ensures PiecesOf([Close]) == [] && PiecesOf([]) == [] && Only(records, []) == []
  {
    hide CreateSchema, MarkerTable;
    PiecesOfPuts(CreateSchema(o, t.schema));
    SchemaIsNeither(records, o, t.schema);
    MarkerIsNeither(records, t);
    PiecesCons(MarkerTable(t), []);
    assert [Put(MarkerTable(t))] + [] == [Put(MarkerTable(t))] && [MarkerTable(t)] + [] == [MarkerTable(t)];
    forall name ensures PiecesOf([Open(name)]) == [] {
      assert [Open(name)][1..] == [];
    }
    assert [Close][1..] == [];
  }

  /** The structure part as it is put. */
  lemma StructureHeld(records: bool, o: Options, t: Table)
    requires t.ddl.Some?
    ensures Only(records, StructureHeader(o, t.name) + [DdlPiece(t.ddl.value)]) == if records then [] else Created(o, t)
  {
    var section, drops, ddl := Section("Table structure for", t.name), DropPieces(o, t), [DdlPiece(t.ddl.value)];
    SectionIsNeither(records, "Table structure for", t.name);
    OnlyAppend(records, section, drops);
    OnlyAppend(records, section + drops, ddl);
    assert ddl[1..] == [] && drops[..] == drops;
    if o.dropBefore {
      assert drops[1..] == [];
      var text := "DROP TABLE IF EXISTS " + Ident(t.name, o.quote) + Cascade(o);
      assert text[0] == 'D' && text[..11] == "DROP TABLE ";
    }
  }

  lemma MarkerHeld(records: bool, idx: nat)
    ensures Only(records, [MarkerData(idx)]) == if records then [LineComment(" @BM:D idx=" + Digits(idx))] else []
  {
    hide Digits;
    var marker := [MarkerData(idx)];
    assert marker[1..] == [] && MarkerData(idx).line[..4] == " @BM" && MarkerData(idx).line[..7] == " @BM:D ";
    assert Only(records, marker[1..]) == [];
  }

  /** The records part as it is put. */
  lemma RecordsHeld(records: bool, t: Table, inserts: seq<Piece>)
    requires forall p :: p in inserts ==> InsertText(p)
    ensures var ps := [MarkerData(t.idx)] + Section("Records of", t.name) + inserts;
            Only(records, ps) == if records then [LineComment(" @BM:D idx=" + Digits(t.idx))] + inserts else []
  {
    hide Only, Digits, Section, InsertText, MarkerData;
    var marker, section := [MarkerData(t.idx)], Section("Records of", t.name);
    MarkerHeld(records, t.idx);
    SectionIsNeither(records, "Records of", t.name);
    OnlyAppend(records, marker, section);
    OnlyAppend(records, marker + section, inserts);
    AllInserts(inserts);
  }

  lemma PutsAppend(a: seq<Piece>, b: seq<Piece>)
    ensures PiecesOf(Puts(a) + Puts(b)) == a + b
  {
    PiecesOfPuts(a);
    PiecesOfPuts(b);
    PiecesAppend(Puts(a), Puts(b));
  }

  /** The pieces put for one table, structure first. */
  function BodyPieces(o: Options, t: Table, structure: bool, inserts: Option<seq<Piece>>): seq<Piece>
    requires structure ==> t.ddl.Some?
  {
    (if structure then StructureHeader(o, t.name) + [DdlPiece(t.ddl.value)] else [])
      + (match inserts
         case Some(ps) => [MarkerData(t.idx)] + Section("Records of", t.name) + ps
         case None => [])
  }

  lemma BodyHeld(records: bool, o: Options, t: Table, structure: bool, inserts: Option<seq<Piece>>)
    requires structure ==> t.ddl.Some?
    requires inserts.Some? ==> forall p :: p in inserts.value ==> InsertText(p)
    ensures Only(records, BodyPieces(o, t, structure, inserts))
         == if records then
              (match inserts case Some(ps) => [LineComment(" @BM:D idx=" + Digits(t.idx))] + ps case None => [])
            else if structure then Created(o, t) else []
  {
    hide Only, StructureHeader, DdlPiece, Created, MarkerData, Section;
    var a := if structure then StructureHeader(o, t.name) + [DdlPiece(t.ddl.value)] else [];
    var b := match inserts
             case Some(ps) => [MarkerData(t.idx)] + Section("Records of", t.name) + ps
             case None => [];
    OnlyAppend(records, a, b);
    assert Only(records, []) == [] by { NoneOf(records, []); }
    if structure {
      StructureHeld(records, o, t);
    }
    if inserts.Some? {
      RecordsHeld(records, t, inserts.value);
    }
  }

  // -------------------------------------------------------------- what either path puts

  lemma BodyOps(o: Options, t: Table, structure: bool, inserts: Option<seq<Piece>>)
    requires structure ==> t.ddl.Some?
    ensures PiecesOf((if structure then Puts(StructureHeader(o, t.name) + [DdlPiece(t.ddl.value)]) else [])
                     + match inserts
                       case Some(ps) => Puts([MarkerData(t.idx)] + Section("Records of", t.name)) + Puts(ps)
                       case None => [])
         == BodyPieces(o, t, structure, inserts)
  {
    hide StructureHeader, DdlPiece, Section, MarkerData, PiecesOf, Puts;
    var hp := if structure then StructureHeader(o, t.name) + [DdlPiece(t.ddl.value)] else [];
    var marks := [MarkerData(t.idx)] + Section("Records of", t.name);
    PiecesOfPuts([]);
    PiecesOfPuts(hp);
    var front := if structure then Puts(hp) else [];
    assert PiecesOf(front) == hp by { NoOps(); }
    match inserts
    case Some(ps) =>
      PutsAppend(marks, ps);
      PiecesAppend(front, Puts(marks) + Puts(ps));
    case None =>
      assert front + [] == front && hp + [] == hp;
  }

  lemma NoOps()
    ensures PiecesOf([]) == []
  {
  }

  /** The serial writer's operations for one table. */
  lemma DirectHeld(records: bool, o: Options, t: Table)
    requires YieldsInserts(t)
    ensures Only(records, PiecesOf(DumpTableDirect(o, t).ops)) == Wanted(records, o, t, true)
  {
    hide StructureHeader, DdlPiece, Section, MarkerData, PiecesOf, Puts, Only, InsertText, BodyPieces;
    var structure := WantsStructure(o) && t.ddl.Some?;
    var inserts := if !WantsData(o) || (WantsStructure(o) && t.ddl.None?) || t.count.None? then None
                   else if t.count.value == 0 then None
                   else match t.data case None => Some(t.partial) case Some(f) => Some(f.inserts);
    BodyOps(o, t, structure, inserts);
    BodyHeld(records, o, t, structure, inserts);
    NoOps();
    assert Only(records, []) == [] by { NoneOf(records, []); }
    var head := if structure then Puts(StructureHeader(o, t.name) + [DdlPiece(t.ddl.value)]) else [];
    assert head + [] == head;
    if inserts.Some? {
      Assoc(head, Puts([MarkerData(t.idx)] + Section("Records of", t.name)), Puts(inserts.value));
    }
  }

  /** The operations for one staged table, when it is merged. */
  lemma StagedHeld(records: bool, o: Options, t: Table)
    requires YieldsInserts(t)
    ensures Only(records, PiecesOf(MergeBody(o, DumpTableToTemp(o, t)))) == Wanted(records, o, t, false)
  {
    hide StructureHeader, DdlPiece, Section, MarkerData, PiecesOf, Puts, Only, InsertText, BodyPieces;
    var a := DumpTableToTemp(o, t);
    var inserts := if a.shards == [] then None else Some(t.data.value.inserts);
    if inserts.Some? {
      assert PutShards(a.shards) == Puts(inserts.value) by {
        assert a.shards[1..] == [];
        assert Puts(inserts.value) + [] == Puts(inserts.value);
      }
    }
    BodyOps(o, t, a.ddl.Some?, inserts);
    BodyHeld(records, o, t, a.ddl.Some?, inserts);
    NoOps();
    assert Only(records, []) == [] by { NoneOf(records, []); }
  }

  lemma {:induction false} SerialHeld(records: bool, o: Options, s: Assembly, ts: seq<Table>)
    requires forall i :: 0 <= i < |ts| ==> YieldsInserts(ts[i])
    ensures Only(records, PiecesOf(SerialAll(o, s, ts).ops))
         == Only(records, PiecesOf(s.ops)) + WantedAll(records, o, ts, true)
    decreases |ts|
  {
    hide Only, PiecesOf, Framed, Wanted, YieldsInserts, DumpTableDirect;
    if ts == [] {
      assert Only(records, PiecesOf(s.ops)) + [] == Only(records, PiecesOf(s.ops));
    } else {
      var body := DumpTableDirect(o, ts[0]).ops;
      DirectHeld(records, o, ts[0]);
      FrameIsNeither(records, o, s.lastSchema, ts[0], body);
      Spread(records, s.ops, Framed(o, s.lastSchema, ts[0], body));
      SerialHeld(records, o, SerialStep(o, s, ts[0]), ts[1..]);
      Assoc(Only(records, PiecesOf(s.ops)), Wanted(records, o, ts[0], true), WantedAll(records, o, ts[1..], true));
    }
  }

  lemma {:induction false} MergeHeld(records: bool, o: Options, s: Assembly, ts: seq<Table>)
    requires forall i :: 0 <= i < |ts| ==> YieldsInserts(ts[i])
    ensures Only(records, PiecesOf(MergeAll(o, s, Artifacts(o, ts)).ops))
         == Only(records, PiecesOf(s.ops)) + WantedAll(records, o, ts, false)
    decreases |ts|
  {
    if ts == [] {
      assert Only(records, PiecesOf(s.ops)) + [] == Only(records, PiecesOf(s.ops));
    } else {
      var a := DumpTableToTemp(o, ts[0]);
      assert a.table == ts[0];
      hide Only, PiecesOf, Framed, Wanted, YieldsInserts, DumpTableToTemp, MergeBody;
      var body := MergeBody(o, a);
      StagedHeld(records, o, ts[0]);
      FrameIsNeither(records, o, s.lastSchema, ts[0], body);
      Spread(records, s.ops, Framed(o, s.lastSchema, ts[0], body));
      assert Artifacts(o, ts)[1..] == Artifacts(o, ts[1..]);
      MergeHeld(records, o, MergeStep(o, s, a), ts[1..]);
      Assoc(Only(records, PiecesOf(s.ops)), Wanted(records, o, ts[0], false), WantedAll(records, o, ts[1..], false));
    }
  }

  lemma NothingPut(records: bool)
    ensures Only(records, PiecesOf(EMPTY.ops)) == []
  {
  }

  /**
    What a serial dump holds, for every work list and whatever fails: with `Structure`
    each CREATE that could be fetched and no record; with `Data` the records of each
    table and no CREATE or DROP; with `Both` both, but no records of a table whose
    CREATE failed. Nothing is put twice, and all in the order of the tables.
  */
  lemma SerialSelects(o: Options, work: seq<Table>)
    requires forall i :: 0 <= i < |work| ==> YieldsInserts(work[i])
    ensures var put := PiecesOf(SerialAll(o, EMPTY, work).ops);
            Only(false, put) == WantedAll(false, o, work, true) && Only(true, put) == WantedAll(true, o, work, true)
  {
    NothingPut(false);
    NothingPut(true);
    hide Only, WantedAll, YieldsInserts, SerialAll, PiecesOf;
    SerialHeld(false, o, EMPTY, work);
    SerialHeld(true, o, EMPTY, work);
    var none: seq<Piece> := [];
    assert none + WantedAll(false, o, work, true) == WantedAll(false, o, work, true);
    assert none + WantedAll(true, o, work, true) == WantedAll(true, o, work, true);
  }

  /** What the merge of any list of staged tables holds. */
  lemma MergeSelects(o: Options, staged: seq<Artifact>, ts: seq<Table>)
    requires staged == Artifacts(o, ts) && forall i :: 0 <= i < |ts| ==> YieldsInserts(ts[i])
    ensures var put := PiecesOf(MergeAll(o, EMPTY, staged).ops);
            Only(false, put) == WantedAll(false, o, ts, false) && Only(true, put) == WantedAll(true, o, ts, false)
  {
    NothingPut(false);
    NothingPut(true);
    hide Only, WantedAll, YieldsInserts, MergeAll, PiecesOf;
    MergeHeld(false, o, EMPTY, ts);
    MergeHeld(true, o, EMPTY, ts);
    var none: seq<Piece> := [];
    assert none + WantedAll(false, o, ts, false) == WantedAll(false, o, ts, false);
    assert none + WantedAll(true, o, ts, false) == WantedAll(true, o, ts, false);
  }

  // ------------------------------------------------------------- totals and deferral

  /** The rows of a table that reach the dump. */
  function Rows(o: Options, t: Table): nat {
    match o.content
    case Structure => 0
    case Both => if t.ddl.None? then 0 else Fetch(t)
    case Data => Fetch(t)
  }

  function Fetch(t: Table): nat {
    if t.count.Some? && t.count.value > 0 && t.data.Some? then t.data.value.rows else 0
  }

  /** A query the content needs has failed. */
  predicate Failed(o: Options, t: Table) {
    match o.content
    case Structure => t.ddl.None?
    case Data => DataFailed(t)
    case Both => t.ddl.None? || DataFailed(t)
  }

  predicate DataFailed(t: Table) {
    t.count.None? || (t.count.value > 0 && t.data.None?)
  }

  /**
    The index statements a table leaves for the end of the dump: those of a CREATE that
    was written without them. The serial writer forgets them when the data fail.
  */
  function LeftForLater(o: Options, t: Table, serial: bool): seq<string> {
    if !o.defer || t.ddl.None? then []
    else
      match o.content
      case Structure => t.indexes
      case Data => []
      case Both => if serial && DataFailed(t) then [] else t.indexes
  }

  function RowsAll(o: Options, ts: seq<Table>): nat {
    if ts == [] then 0 else Rows(o, ts[0]) + RowsAll(o, ts[1..])
  }

  function FailedAll(o: Options, ts: seq<Table>): nat {
    if ts == [] then 0 else (if Failed(o, ts[0]) then 1 else 0) + FailedAll(o, ts[1..])
  }

  function LaterAll(o: Options, ts: seq<Table>, serial: bool): Deferred {
    if ts == [] then []
    else Owned(ts[0].schema, LeftForLater(o, ts[0], serial)) + LaterAll(o, ts[1..], serial)
  }

  lemma {:induction false} SerialAdds(o: Options, s: Assembly, ts: seq<Table>)
    ensures var e := SerialAll(o, s, ts);
            && e.rows == s.rows + RowsAll(o, ts) && e.tables == s.tables + |ts|
            && e.failed == s.failed + FailedAll(o, ts) && e.deferred == s.deferred + LaterAll(o, ts, true)
    decreases |ts|
  {
    if ts == [] {
      assert s.deferred + [] == s.deferred;
    } else {
      var d := DumpTableDirect(o, ts[0]);
      assert d.rows == Rows(o, ts[0]) && d.ok == !Failed(o, ts[0]) && d.deferred == LeftForLater(o, ts[0], true) by {
        hide Puts;
      }
      hide Framed, Owned, DumpTableDirect, Rows, Failed, LeftForLater;
      var own := Owned(ts[0].schema, LeftForLater(o, ts[0], true));
      SerialAdds(o, SerialStep(o, s, ts[0]), ts[1..]);
      Assoc(s.deferred, own, LaterAll(o, ts[1..], true));
    }
  }

  lemma {:induction false} MergeAdds(o: Options, s: Assembly, ts: seq<Table>)
    ensures var e := MergeAll(o, s, Artifacts(o, ts));
            && e.rows == s.rows + RowsAll(o, ts) && e.tables == s.tables + |ts|
            && e.failed == s.failed + FailedAll(o, ts) && e.deferred == s.deferred + LaterAll(o, ts, false)
    decreases |ts|
  {
    if ts == [] {
      assert s.deferred + [] == s.deferred;
    } else {
      var a := DumpTableToTemp(o, ts[0]);
      assert a.table == ts[0] && a.rows == Rows(o, ts[0]) && a.ok == !Failed(o, ts[0])
          && a.deferred == LeftForLater(o, ts[0], false);
      hide Framed, Owned, MergeBody, DumpTableToTemp, Rows, Failed, LeftForLater;
      var own := Owned(ts[0].schema, LeftForLater(o, ts[0], false));
      assert Artifacts(o, ts)[1..] == Artifacts(o, ts[1..]);
      MergeAdds(o, MergeStep(o, s, a), ts[1..]);
      Assoc(s.deferred, own, LaterAll(o, ts[1..], false));
    }
  }

  /** The numbers a dump reports and the statements it keeps for its end, on either path. */
  lemma DumpTotals(o: Options, work: seq<Table>)
    ensures var s, m := SerialAll(o, EMPTY, work), MergeAll(o, EMPTY, Artifacts(o, work));
            && s.rows == m.rows == RowsAll(o, work) && s.tables == m.tables == |work|
            && s.failed == m.failed == FailedAll(o, work)
            && s.deferred == LaterAll(o, work, true) && m.deferred == LaterAll(o, work, false)
  {
    SerialAdds(o, EMPTY, work);
    MergeAdds(o, EMPTY, work);
    var none: Deferred := [];
    assert none + LaterAll(o, work, true) == LaterAll(o, work, true);
    assert none + LaterAll(o, work, false) == LaterAll(o, work, false);
  }

  // ------------------------------------------------------------------- the zip archive

  type Archive = seq<(string, seq<Piece>)>

  /** The entries of an archive; `None` if something stands outside one or one is left open. */
  function Entries(current: Option<(string, seq<Piece>)>, ops: seq<Op>): Option<Archive>
    decreases |ops|
  {
    if ops == [] then if current.None? then Some([]) else None
    else
      match (ops[0], current)
      case (Open(name), None) => Entries(Some((name, [])), ops[1..])
      case (Put(p), Some((name, ps))) => Entries(Some((name, ps + [p])), ops[1..])
      case (Close, Some(entry)) =>
        (match Entries(None, ops[1..]) case Some(more) => Some([entry] + more) case None => None)
      case _ => None
  }

  /** The entries of one table: one for its schema if that is new, one for itself. */
  function FiledOne(o: Options, last: Option<string>, t: Table, serial: bool): Archive {
    var schema := Ident(t.schema, o.quote);
    (if o.createSchema && last != Some(t.schema) then
       [(t.schema + "/00_schema.sql",
         if o.pg then [Sql("CREATE SCHEMA IF NOT EXISTS " + schema, "\n"), Sql("SET search_path TO " + schema, "\n\n")]
         else [Sql("CREATE DATABASE IF NOT EXISTS " + schema, "\n"), Sql("USE " + schema, "\n\n")])]
     else [])
      + [(t.schema + "/" + t.name + ".sql", TableFile(o, t, serial))]
  }

  function Filed(o: Options, last: Option<string>, ts: seq<Table>, serial: bool): Archive
    decreases |ts|
  {
    if ts == [] then [] else FiledOne(o, last, ts[0], serial) + Filed(o, Some(ts[0].schema), ts[1..], serial)
  }

  /** A table's marker and its own pieces. */
  function TableFile(o: Options, t: Table, serial: bool): seq<Piece> {
    [LineComment(" @BM:T idx=" + Digits(t.idx) + " schema=" + t.schema + " table=" + t.name)]
      + PiecesOf(if serial then DumpTableDirect(o, t).ops else MergeBody(o, DumpTableToTemp(o, t)))
  }

  predicate OnlyPuts(ops: seq<Op>) {
    forall i :: 0 <= i < |ops| ==> ops[i].Put?
  }

  /** Pieces put into an open entry stay in it. */
  lemma {:induction false} PutInside(name: string, ps: seq<Piece>, ops: seq<Op>, more: seq<Op>)
    requires OnlyPuts(ops)
    ensures Entries(Some((name, ps)), ops + more) == Entries(Some((name, ps + PiecesOf(ops))), more)
    decreases |ops|
  {
    if ops == [] {
      assert ops + more == more && ps + [] == ps;
    } else {
      var p := ops[0].p;
      DropPrefix(ops, more, 1);
      PutInside(name, ps + [p], ops[1..], more);
      Assoc(ps, [p], PiecesOf(ops[1..]));
    }
  }

  /** An entry with its pieces, from its opening to its closing. */
  lemma OneEntry(name: string, ops: seq<Op>, more: seq<Op>)
    requires OnlyPuts(ops)
    ensures Entries(None, [Open(name)] + ops + [Close] + more)
         == match Entries(None, more) case Some(rest) => Some([(name, PiecesOf(ops))] + rest) case None => None
  {
    var tail := [Close] + more;
    assert [Open(name)] + ops + [Close] + more == [Open(name)] + (ops + tail);
    assert ([Open(name)] + (ops + tail))[1..] == ops + tail && tail[1..] == more;
    PutInside(name, [], ops, tail);
    assert [] + PiecesOf(ops) == PiecesOf(ops);
  }

  lemma {:induction false} PutsAreOnly(ps: seq<Piece>)
    ensures OnlyPuts(Puts(ps))
  {
    if ps != [] {
      PutsAreOnly(ps[1..]);
    }
  }

  lemma OnlyJoined(a: seq<Op>, b: seq<Op>)
    requires OnlyPuts(a) && OnlyPuts(b)
    ensures OnlyPuts(a + b)
  {
  }

  lemma DirectIsOnly(o: Options, t: Table)
    ensures OnlyPuts(DumpTableDirect(o, t).ops)
  {
    hide Puts, StructureHeader, DdlPiece, MarkerData, Section, OnlyPuts;
    PutsAreOnly([]);
    assert Puts([]) == [] by { NoPuts(); }
    var head := if WantsStructure(o) && t.ddl.Some? then Puts(StructureHeader(o, t.name) + [DdlPiece(t.ddl.value)])
                else [];
    var marks := Puts([MarkerData(t.idx)] + Section("Records of", t.name));
    if t.ddl.Some? {
      PutsAreOnly(StructureHeader(o, t.name) + [DdlPiece(t.ddl.value)]);
    }
    PutsAreOnly([MarkerData(t.idx)] + Section("Records of", t.name));
    PutsAreOnly(t.partial);
    OnlyJoined(head, marks);
    OnlyJoined(head + marks, Puts(t.partial));
    if t.data.Some? {
      PutsAreOnly(t.data.value.inserts);
      OnlyJoined(head + marks, Puts(t.data.value.inserts));
    }
  }

  lemma NoPuts()
    ensures Puts([]) == []
  {
  }

  lemma StagedIsOnly(o: Options, t: Table)
    ensures OnlyPuts(MergeBody(o, DumpTableToTemp(o, t)))
  {
    hide Puts, StructureHeader, DdlPiece, MarkerData, Section, OnlyPuts;
    var a := DumpTableToTemp(o, t);
    PutsAreOnly([]);
    assert Puts([]) == [] by { NoPuts(); }
    var marks := Puts([MarkerData(t.idx)] + Section("Records of", t.name));
    var head := if a.ddl.Some? then Puts(StructureHeader(o, t.name) + [DdlPiece(a.ddl.value)]) else [];
    if a.ddl.Some? {
      PutsAreOnly(StructureHeader(o, t.name) + [DdlPiece(a.ddl.value)]);
    }
    if a.shards == [] {
      OnlyJoined(head, []);
    } else {
      var inserts := t.data.value.inserts;
      PutsAreOnly([MarkerData(t.idx)] + Section("Records of", t.name));
      PutsAreOnly(inserts);
      assert a.shards[1..] == [] && PutShards(a.shards) == Puts(inserts) + [] == Puts(inserts);
      OnlyJoined(marks, Puts(inserts));
      OnlyJoined(head, marks + Puts(inserts));
    }
  }

  function BodyOf(o: Options, t: Table, serial: bool): seq<Op> {
    if serial then DumpTableDirect(o, t).ops else MergeBody(o, DumpTableToTemp(o, t))
  }

  function FrameAll(o: Options, last: Option<string>, ts: seq<Table>, serial: bool): seq<Op>
    decreases |ts|
  {
    if ts == [] then []
    else Framed(o, last, ts[0], BodyOf(o, ts[0], serial)) + FrameAll(o, Some(ts[0].schema), ts[1..], serial)
  }

  lemma {:induction false} OpsAre(o: Options, s: Assembly, ts: seq<Table>)
    ensures SerialAll(o, s, ts).ops == s.ops + FrameAll(o, s.lastSchema, ts, true)
    ensures MergeAll(o, s, Artifacts(o, ts)).ops == s.ops + FrameAll(o, s.lastSchema, ts, false)
    decreases |ts|
  {
    if ts == [] {
      assert s.ops + [] == s.ops;
    } else {
      var t, a := ts[0], DumpTableToTemp(o, ts[0]);
      assert a.table == t;
      hide Framed, DumpTableDirect, DumpTableToTemp, MergeBody, Owned;
      assert Artifacts(o, ts)[1..] == Artifacts(o, ts[1..]);
      OpsAre(o, SerialStep(o, s, t), ts[1..]);
      OpsAre(o, MergeStep(o, s, a), ts[1..]);
      Assoc(s.ops, Framed(o, s.lastSchema, t, BodyOf(o, t, true)), FrameAll(o, Some(t.schema), ts[1..], true));
      Assoc(s.ops, Framed(o, s.lastSchema, t, BodyOf(o, t, false)), FrameAll(o, Some(t.schema), ts[1..], false));
    }
  }

  lemma FileIs(o: Options, t: Table, serial: bool)
    ensures PiecesOf([Put(MarkerTable(t))] + BodyOf(o, t, serial)) == TableFile(o, t, serial)
    ensures OnlyPuts(BodyOf(o, t, serial))
  {
    DirectIsOnly(o, t);
    StagedIsOnly(o, t);
    hide DumpTableDirect, DumpTableToTemp, MergeBody;
    PiecesCons(MarkerTable(t), BodyOf(o, t, serial));
  }

  /** The operations of one table are its own entries. */
  lemma FrameFiled(o: Options, last: Option<string>, t: Table, serial: bool, more: seq<Op>)
    requires o.zip
    ensures Entries(None, Framed(o, last, t, BodyOf(o, t, serial)) + more)
         == match Entries(None, more) case Some(rest) => Some(FiledOne(o, last, t, serial) + rest) case None => None
  {
    FileIs(o, t, serial);
    hide Entries, Puts, PiecesOf, MarkerTable, DumpTableDirect, DumpTableToTemp, MergeBody, Ident, TableFile, BodyOf;
    var body, marker, cs := BodyOf(o, t, serial), [Put(MarkerTable(t))], Puts(CreateSchema(o, t.schema));
    var schemaEntry, tableEntry := t.schema + "/00_schema.sql", t.schema + "/" + t.name + ".sql";
    var own := [Open(tableEntry)] + (marker + body) + [Close];
    PutsAreOnly(CreateSchema(o, t.schema));
    PiecesOfPuts(CreateSchema(o, t.schema));
    OneEntry(tableEntry, marker + body, more);
    if o.createSchema && last != Some(t.schema) {
      var first := [Open(schemaEntry)] + cs + [Close];
      OneEntry(schemaEntry, cs, own + more);
      assert Framed(o, last, t, body) == first + own;
      Assoc(first, own, more);
    } else {
      assert Framed(o, last, t, body) == own;
    }
    if Entries(None, more).Some? {
      FiledJoins(o, last, t, serial, Entries(None, more).value);
    }
  }

  lemma FiledJoins(o: Options, last: Option<string>, t: Table, serial: bool, rest: Archive)
    ensures var file := (t.schema + "/" + t.name + ".sql", TableFile(o, t, serial));
            FiledOne(o, last, t, serial) + rest
            == (if o.createSchema && last != Some(t.schema)
                then [(t.schema + "/00_schema.sql", CreateSchema(o, t.schema))] + ([file] + rest)
                else [file] + rest)
  {
    hide TableFile, Ident;
  }

  lemma {:induction false} FrameAllFiled(o: Options, last: Option<string>, ts: seq<Table>, serial: bool)
    requires o.zip
    ensures Entries(None, FrameAll(o, last, ts, serial)) == Some(Filed(o, last, ts, serial))
    decreases |ts|
  {
    hide Framed, BodyOf, FiledOne;
    if ts != [] {
      FrameAllFiled(o, Some(ts[0].schema), ts[1..], serial);
      FrameFiled(o, last, ts[0], serial, FrameAll(o, Some(ts[0].schema), ts[1..], serial));
    }
  }

  /**
    The zip archive, on either path: every piece stands in an entry, every entry is
    closed before the next opens, a table is filed under its schema and its name, and
    a schema under its own entry where it is new.
  */
  lemma ZipLayout(o: Options, work: seq<Table>)
    requires o.zip
    ensures Entries(None, SerialAll(o, EMPTY, work).ops) == Some(Filed(o, None, work, true))
    ensures Entries(None, MergeAll(o, EMPTY, Artifacts(o, work)).ops) == Some(Filed(o, None, work, false))
  {
    OpsAre(o, EMPTY, work);
    FrameAllFiled(o, None, work, true);
    FrameAllFiled(o, None, work, false);
    var none: seq<Op> := [];
    assert none + FrameAll(o, None, work, true) == FrameAll(o, None, work, true);
    assert none + FrameAll(o, None, work, false) == FrameAll(o, None, work, false);
  }
}
