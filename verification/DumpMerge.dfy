/**
  Assembling a dump (src-tauri/src/sql_dump.rs): the serial writer streams table by
  table; the parallel one stages every table and merges the staged artifacts in
  index order through a reorder buffer. Output is a log of sink operations whose
  texts are pieces of the script.
*/
module DumpMerge {
  import opened Text
  import opened Framing
  import opened DumpWriter

  datatype Content = Structure | Data | Both

  datatype Options = Options(
    zip: bool, content: Content, defer: bool, dropBefore: bool, createSchema: bool, pg: bool,
    quote: char)

  /** A list of deferred index statements each with its schema; a statement is held without its `;`. */
  type Deferred = seq<(string, string)>

  /**
    What the source answers for one table. `ddl` is the CREATE the dump would write
    and `indexes` what deferral took out of it; `data` are the rows fetched, which need
    not be as many as were counted, and the inserts written for them. `None` is a
    failed query; `partial` is what was written before the data failed.
  */
  datatype Table = Table(
    idx: nat, schema: string, name: string,
    ddl: Option<string>, indexes: seq<string>,
    count: Option<nat>, data: Option<Fetched>, partial: seq<Piece>)

  datatype Fetched = Fetched(rows: nat, inserts: seq<Piece>)

  /** An operation on the sink; a single-file sink ignores entries. */
  datatype Op = Open(entry: string) | Put(p: Piece) | Close

  function Puts(ps: seq<Piece>): seq<Op> {
    if ps == [] then [] else [Put(ps[0])] + Puts(ps[1..])
  }

  predicate WantsStructure(o: Options) { o.content == Structure || o.content == Both }
  predicate WantsData(o: Options) { o.content == Data || o.content == Both }

  // ------------------------------------------------------------------ the pieces

  function MarkerTable(t: Table): Piece {
    LineComment(" @BM:T idx=" + Digits(t.idx) + " schema=" + t.schema + " table=" + t.name)
  }

  function MarkerData(idx: nat): Piece {
    LineComment(" @BM:D idx=" + Digits(idx))
  }

  function Section(kind: string, name: string): seq<Piece> {
    [LineComment(" ----------------------------"), LineComment(" " + kind + " of `" + name + "`"),
     LineComment(" ----------------------------")]
  }

  function CreateSchema(o: Options, schema: string): seq<Piece> {
    if o.pg then [Sql("CREATE SCHEMA IF NOT EXISTS " + Ident(schema, o.quote), "\n"),
                  Sql("SET search_path TO " + Ident(schema, o.quote), "\n\n")]
    else [Sql("CREATE DATABASE IF NOT EXISTS " + Ident(schema, o.quote), "\n"),
          Sql("USE " + Ident(schema, o.quote), "\n\n")]
  }

  function Cascade(o: Options): string {
    if o.pg then " CASCADE" else ""
  }

  function StructureHeader(o: Options, name: string): seq<Piece> {
    Section("Table structure for", name)
      + if o.dropBefore then [Sql("DROP TABLE IF EXISTS " + Ident(name, o.quote) + Cascade(o), "\n")] else []
  }

  function DdlPiece(ddl: string): Piece {
    Free(ddl, "\n\n")
  }

  // ------------------------------------------------------------------ the serial path

  /** Writing one table straight to the sink: the operations, the rows, the deferred indexes if it succeeded. */
  datatype Direct = Direct(ops: seq<Op>, ok: bool, rows: nat, deferred: seq<string>)

  function DumpTableDirect(o: Options, t: Table): Direct {
    if WantsStructure(o) && t.ddl.None? then Direct([], false, 0, [])
    else
      var head := if WantsStructure(o) then Puts(StructureHeader(o, t.name) + [DdlPiece(t.ddl.value)]) else [];
      var deferred := if WantsStructure(o) && o.defer then t.indexes else [];
      if !WantsData(o) then Direct(head, true, 0, deferred)
      else if t.count.None? then Direct(head, false, 0, [])
      else if t.count.value == 0 then Direct(head, true, 0, deferred)
      else
        var opening := head + Puts([MarkerData(t.idx)] + Section("Records of", t.name));
        match t.data
        case None => Direct(opening + Puts(t.partial), false, 0, [])
        case Some(f) => Direct(opening + Puts(f.inserts), true, f.rows, deferred)
  }

  /** The running state of either assembler. */
  datatype Assembly = Assembly(
    ops: seq<Op>, lastSchema: Option<string>, rows: nat, tables: nat, failed: nat, deferred: Deferred)

  const EMPTY := Assembly([], None, 0, 0, 0, [])

  function Owned(schema: string, stmts: seq<string>): Deferred {
    if stmts == [] then [] else [(schema, stmts[0])] + Owned(schema, stmts[1..])
  }

  /** The entry scaffolding around one table's own operations. */
  function Framed(o: Options, last: Option<string>, t: Table, body: seq<Op>): seq<Op> {
    var isNew := o.createSchema && last != Some(t.schema);
    (if o.zip && isNew then [Open(t.schema + "/00_schema.sql")] + Puts(CreateSchema(o, t.schema)) + [Close] else [])
      + (if o.zip then [Open(t.schema + "/" + t.name + ".sql")] else [])
      + [Put(MarkerTable(t))]
      + (if !o.zip && isNew then Puts(CreateSchema(o, t.schema)) else [])
      + body
      + (if o.zip then [Close] else [])
  }

  function SerialStep(o: Options, s: Assembly, t: Table): Assembly {
    var d := DumpTableDirect(o, t);
    Assembly(
      s.ops + Framed(o, s.lastSchema, t, d.ops),
      Some(t.schema),
      s.rows + d.rows, s.tables + 1, s.failed + (if d.ok then 0 else 1),
      s.deferred + Owned(t.schema, d.deferred))
  }

  function SerialAll(o: Options, s: Assembly, ts: seq<Table>): Assembly
    decreases |ts|
  {
    if ts == [] then s else SerialAll(o, SerialStep(o, s, ts[0]), ts[1..])
  }

  method RunSerialDump(o: Options, work: seq<Table>) returns (s: Assembly)
    ensures s == SerialAll(o, EMPTY, work)
  {
    s := EMPTY;
    assert work[0..] == work;
    for k := 0 to |work|
      invariant SerialAll(o, s, work[k..]) == SerialAll(o, EMPTY, work)
    {
      assert work[k..][1..] == work[k + 1..];
      s := SerialStep(o, s, work[k]);
    }
  }

  // ---------------------------------------------------------------- the parallel path

  /** One staged table. */
  datatype Artifact = Artifact(
    table: Table, rows: nat, ok: bool, ddl: Option<string>, shards: seq<seq<Piece>>, deferred: seq<string>)

  /** Staging without intra-table shards: the one data file joins the artifact only if it holds rows. */
  function DumpTableToTemp(o: Options, t: Table): Artifact {
    if WantsStructure(o) && t.ddl.None? then Artifact(t, 0, false, None, [], [])
    else
      var ddl := if WantsStructure(o) then t.ddl else None;
      var deferred := if WantsStructure(o) && o.defer then t.indexes else [];
      var staged := Artifact(t, 0, true, ddl, [], deferred);
      if !WantsData(o) then staged
      else if t.count.None? then staged.(ok := false)
      else if t.count.value == 0 then staged
      else
        match t.data
        case None => staged.(ok := false)
        case Some(f) => staged.(rows := f.rows, shards := if f.rows > 0 then [f.inserts] else [])
  }

  function PutShards(shards: seq<seq<Piece>>): seq<Op> {
    if shards == [] then [] else Puts(shards[0]) + PutShards(shards[1..])
  }

  function MergeBody(o: Options, a: Artifact): seq<Op> {
    (if a.ddl.Some? then Puts(StructureHeader(o, a.table.name) + [DdlPiece(a.ddl.value)]) else [])
      + (if a.shards != [] then
           Puts([MarkerData(a.table.idx)] + Section("Records of", a.table.name)) + PutShards(a.shards)
         else [])
  }

  function MergeStep(o: Options, s: Assembly, a: Artifact): Assembly {
    Assembly(
      s.ops + Framed(o, s.lastSchema, a.table, MergeBody(o, a)),
      Some(a.table.schema),
      s.rows + a.rows, s.tables + 1, s.failed + (if a.ok then 0 else 1),
      s.deferred + Owned(a.table.schema, a.deferred))
  }

  function MergeAll(o: Options, s: Assembly, xs: seq<Artifact>): Assembly
    decreases |xs|
  {
    if xs == [] then s else MergeAll(o, MergeStep(o, s, xs[0]), xs[1..])
  }

  lemma {:induction false} MergeSnoc(o: Options, s: Assembly, xs: seq<Artifact>, a: Artifact)
    ensures MergeAll(o, s, xs + [a]) == MergeStep(o, MergeAll(o, s, xs), a)
    decreases |xs|
  {
    if xs == [] {
      assert ([] + [a])[1..] == [] && ([] + [a])[0] == a;
    } else {
      DropPrefix(xs, [a], 1);
      MergeSnoc(o, MergeStep(o, s, xs[0]), xs[1..], a);
    }
  }

  predicate Ascending(xs: seq<Artifact>) {
    forall i, j :: 0 <= i < j < |xs| ==> xs[i].table.idx < xs[j].table.idx
  }

  predicate DistinctIdx(xs: seq<Artifact>) {
    forall i, j :: 0 <= i < j < |xs| ==> xs[i].table.idx != xs[j].table.idx
  }

  function Buffered(buffer: map<nat, Artifact>): multiset<Artifact> {
    multiset(set k | k in buffer :: buffer[k])
  }

  /** The reorder buffer holds artifacts under their own index. */
  predicate BufferOk(buffer: map<nat, Artifact>) {
    forall k :: k in buffer ==> buffer[k].table.idx == k
  }

  lemma BufferRemove(buffer: map<nat, Artifact>, k: nat)
    requires BufferOk(buffer) && k in buffer
    ensures BufferOk(buffer - {k})
    ensures Buffered(buffer) == Buffered(buffer - {k}) + multiset{buffer[k]}
  {
    var rest := buffer - {k};
    assert (set i | i in buffer :: buffer[i]) == (set i | i in rest :: rest[i]) + {buffer[k]} by {
      assert forall i :: i in buffer && i != k ==> i in rest && rest[i] == buffer[i];
    }
    assert forall i :: i in rest ==> rest[i].table.idx != buffer[k].table.idx;
  }

  lemma BufferAdd(buffer: map<nat, Artifact>, a: Artifact)
    requires BufferOk(buffer) && a.table.idx !in buffer
    ensures BufferOk(buffer[a.table.idx := a])
    ensures Buffered(buffer[a.table.idx := a]) == Buffered(buffer) + multiset{a}
  {
    var more := buffer[a.table.idx := a];
    BufferRemove(more, a.table.idx);
    assert more - {a.table.idx} == buffer;
  }

  /** Everything emitted lies below everything buffered; in order means no index below `next` is missing. */
  predicate MergeInv(done: seq<Artifact>, buffer: map<nat, Artifact>) {
    && BufferOk(buffer) && Ascending(done)
    && (forall i, k :: 0 <= i < |done| && k in buffer ==> done[i].table.idx < k)
  }

  predicate Contiguous(done: seq<Artifact>, next: nat) {
    |done| == next && forall i :: 0 <= i < next ==> done[i].table.idx == i
  }

  /** Emitting the artifact under the smallest buffered index keeps the order. */
  lemma EmitKeeps(done: seq<Artifact>, buffer: map<nat, Artifact>, k: nat)
    requires MergeInv(done, buffer) && k in buffer && forall j :: j in buffer ==> k <= j
    ensures MergeInv(done + [buffer[k]], buffer - {k})
    ensures multiset(done + [buffer[k]]) + Buffered(buffer - {k}) == multiset(done) + Buffered(buffer)
  {
    BufferRemove(buffer, k);
  }

  lemma SmallestKey(buffer: map<nat, Artifact>, k: nat) returns (least: nat)
    requires k in buffer
    ensures least in buffer && forall j :: j in buffer ==> least <= j
    decreases k
  {
    if j :| j in buffer && j < k {
      least := SmallestKey(buffer, j);
    } else {
      least := k;
    }
  }

  /** A newly arrived artifact has not been emitted and lies at or above `next`. */
  lemma ArrivalIsNew(arrivals: seq<Artifact>, k: nat, done: seq<Artifact>, buffer: map<nat, Artifact>, next: nat)
    requires DistinctIdx(arrivals) && k < |arrivals| && BufferOk(buffer) && Contiguous(done, next)
    requires multiset(done) + Buffered(buffer) == multiset(arrivals[..k])
    ensures arrivals[k].table.idx >= next && arrivals[k].table.idx !in buffer
  {
    var idx := arrivals[k].table.idx;
    var held := multiset(done) + Buffered(buffer);
    assert forall x :: x in held ==> x in arrivals[..k];
    assert forall x :: x in held ==> x.table.idx != idx;
    assert forall i :: 0 <= i < |done| ==> done[i] in held;
    assert forall j :: j in buffer ==> buffer[j] in Buffered(buffer);
    NotAmong(done, next, idx);
  }

  lemma {:induction false} NotAmong(done: seq<Artifact>, next: nat, idx: nat)
    requires Contiguous(done, next) && forall i :: 0 <= i < |done| ==> done[i].table.idx != idx
    ensures idx >= next
  {
    if next > 0 {
      assert done[next - 1].table.idx == next - 1;
      NotAmong(done[..next - 1], next - 1, idx);
    }
  }

  /** Between two arrivals: the indices below `next` are out, in order, and nothing below it is buffered. */
  ghost predicate Merging(o: Options, s: Assembly, done: seq<Artifact>, buffer: map<nat, Artifact>, next: nat) {
    && MergeInv(done, buffer) && Contiguous(done, next) && s == MergeAll(o, EMPTY, done)
    && forall k :: k in buffer ==> k >= next
  }

  lemma EmitNext(o: Options, s: Assembly, done: seq<Artifact>, buffer: map<nat, Artifact>, next: nat)
    requires Merging(o, s, done, buffer, next) && next in buffer
    ensures Merging(o, MergeStep(o, s, buffer[next]), done + [buffer[next]], buffer - {next}, next + 1)
    ensures multiset(done + [buffer[next]]) + Buffered(buffer - {next}) == multiset(done) + Buffered(buffer)
  {
    EmitKeeps(done, buffer, next);
    MergeSnoc(o, EMPTY, done, buffer[next]);
  }

  lemma Admit(o: Options, s: Assembly, done: seq<Artifact>, buffer: map<nat, Artifact>, next: nat, a: Artifact)
    requires Merging(o, s, done, buffer, next) && a.table.idx >= next && a.table.idx !in buffer
    ensures Merging(o, s, done, buffer[a.table.idx := a], next)
    ensures Buffered(buffer[a.table.idx := a]) == Buffered(buffer) + multiset{a}
  {
    BufferAdd(buffer, a);
    assert next > 0 ==> done[next - 1].table.idx == next - 1;
  }

  /** One arrival: buffered, then every artifact that is next in line is emitted. */
  method Arrive(o: Options, s0: Assembly, ghost done0: seq<Artifact>, buffer0: map<nat, Artifact>, next0: nat,
                a: Artifact)
    returns (s: Assembly, ghost done: seq<Artifact>, buffer: map<nat, Artifact>, next: nat)
    requires Merging(o, s0, done0, buffer0, next0)
    requires a.table.idx >= next0 && a.table.idx !in buffer0
    ensures Merging(o, s, done, buffer, next)
    ensures multiset(done) + Buffered(buffer) == multiset(done0) + Buffered(buffer0) + multiset{a}
  {
    s, done, next := s0, done0, next0;
    Admit(o, s, done, buffer0, next, a);
    buffer := buffer0[a.table.idx := a];
    while next in buffer
      invariant Merging(o, s, done, buffer, next)
      invariant multiset(done) + Buffered(buffer) == multiset(done0) + Buffered(buffer0) + multiset{a}
      decreases |buffer|
    {
      EmitNext(o, s, done, buffer, next);
      s := MergeStep(o, s, buffer[next]);
      done := done + [buffer[next]];
      buffer := buffer - {next};
      next := next + 1;
    }
  }

  /** What is left after the last arrival (indices missing below it) goes out in index order. */
  method DrainLeftovers(o: Options, s0: Assembly, ghost done0: seq<Artifact>, buffer0: map<nat, Artifact>)
    returns (s: Assembly, ghost done: seq<Artifact>)
    requires MergeInv(done0, buffer0) && s0 == MergeAll(o, EMPTY, done0)
    ensures Ascending(done) && s == MergeAll(o, EMPTY, done)
    ensures multiset(done) == multiset(done0) + Buffered(buffer0)
  {
    s, done := s0, done0;
    var buffer := buffer0;
    while buffer != map[]
      invariant MergeInv(done, buffer) && s == MergeAll(o, EMPTY, done)
      invariant multiset(done) + Buffered(buffer) == multiset(done0) + Buffered(buffer0)
      decreases |buffer|
    {
      ghost var any :| any in buffer;
      ghost var least := SmallestKey(buffer, any);
      var k :| k in buffer && forall j :: j in buffer ==> k <= j;
      EmitKeeps(done, buffer, k);
      MergeSnoc(o, EMPTY, done, buffer[k]);
      s := MergeStep(o, s, buffer[k]);
      done := done + [buffer[k]];
      buffer := buffer - {k};
    }
  }

  /**
    The streaming merge, for every arrival order and whatever indices are missing:
    the sink receives each artifact once, in ascending index order, and the totals
    and the deferred list are those of the sorted list.
  */
  method MergeStream(o: Options, arrivals: seq<Artifact>) returns (s: Assembly, ghost sorted: seq<Artifact>)
    requires DistinctIdx(arrivals)
    ensures Ascending(sorted) && multiset(sorted) == multiset(arrivals)
    ensures s == MergeAll(o, EMPTY, sorted)
  {
    s := EMPTY;
    var buffer: map<nat, Artifact> := map[];
    var next := 0;
    sorted := [];
    for k := 0 to |arrivals|
      invariant Merging(o, s, sorted, buffer, next)
      invariant multiset(sorted) + Buffered(buffer) == multiset(arrivals[..k])
    {
      ArrivalIsNew(arrivals, k, sorted, buffer, next);
      assert arrivals[..k + 1] == arrivals[..k] + [arrivals[k]];
      s, sorted, buffer, next := Arrive(o, s, sorted, buffer, next, arrivals[k]);
    }
    assert arrivals[..|arrivals|] == arrivals;
    s, sorted := DrainLeftovers(o, s, sorted, buffer);
  }

  // ------------------------------------------------------------- schedule independence

  /** The least artifact stands first in either list. */
  lemma SameHead(a: seq<Artifact>, b: seq<Artifact>)
    requires Ascending(a) && Ascending(b) && multiset(a) == multiset(b) && a != []
    ensures b != [] && a[0] == b[0]
  {
    assert |a| == |multiset(a)| == |multiset(b)| == |b|;
    assert a[0] in multiset(b) && b[0] in multiset(a);
    var i :| 0 <= i < |b| && b[i] == a[0];
    var j :| 0 <= j < |a| && a[j] == b[0];
    assert b[0].table.idx <= b[i].table.idx && a[0].table.idx <= a[j].table.idx;
    assert forall k :: 0 < k < |b| ==> b[0].table.idx < b[k].table.idx;
  }

  lemma TailMultiset(a: seq<Artifact>)
    requires a != []
    ensures multiset(a[1..]) == multiset(a) - multiset{a[0]}
  {
    assert a == [a[0]] + a[1..];
  }

  /** There is one way to sort artifacts with distinct indices. */
  lemma {:induction false} SortedUnique(a: seq<Artifact>, b: seq<Artifact>)
    requires Ascending(a) && Ascending(b) && multiset(a) == multiset(b)
    ensures a == b
  {
    if a == [] {
      assert |b| == |multiset(b)| == 0;
    } else {
      SameHead(a, b);
      TailMultiset(a);
      TailMultiset(b);
      SortedUnique(a[1..], b[1..]);
      assert a == [a[0]] + a[1..] && b == [b[0]] + b[1..];
    }
  }

  // ------------------------------------------------------------- serial versus parallel

  /**
    No query of the data phase fails where the dump still has something to say about
    the table, and rows that were counted have not all gone by the time they are read.
  */
  predicate DataPhaseOk(o: Options, t: Table) {
    WantsData(o) && !(WantsStructure(o) && t.ddl.None?) ==>
      && (t.count.None? ==> !(WantsStructure(o) && o.defer) || t.indexes == [])
      && (t.count.Some? && t.count.value > 0 ==> t.data.Some? && t.data.value.rows > 0)
  }

  /** Writing a table directly and staging it, then merging it, agree on everything the dump keeps. */
  predicate SameOutcome(o: Options, t: Table) {
    var d, a := DumpTableDirect(o, t), DumpTableToTemp(o, t);
    d.ops == MergeBody(o, a) && d.ok == a.ok && d.rows == a.rows && d.deferred == a.deferred
  }

  /**
    One table comes out the same both ways exactly when its data phase is clean: a
    count that fails makes the serial writer forget the deferred indexes, data that
    fails leaves its partial output only in the serial dump, and so does a data region
    that stays empty although rows were counted.
  */
  lemma SameOutcomeIff(o: Options, t: Table)
    ensures SameOutcome(o, t) <==> DataPhaseOk(o, t)
  {
    var d, a := DumpTableDirect(o, t), DumpTableToTemp(o, t);
    if WantsStructure(o) && t.ddl.None? {
    } else {
      var head := if WantsStructure(o) then Puts(StructureHeader(o, t.name) + [DdlPiece(t.ddl.value)]) else [];
      var marks := Puts([MarkerData(t.idx)] + Section("Records of", t.name));
      assert head + [] == head;
      if WantsData(o) && t.count.Some? && t.count.value > 0 {
        match t.data
        case None =>
          assert |marks| > 0;
          assert |d.ops| == |head| + |marks| + |Puts(t.partial)|;
        case Some(f) =>
          var ps := f.inserts;
          assert |marks| > 0;
          assert |d.ops| == |head| + |marks| + |Puts(ps)|;
          assert PutShards([ps]) == Puts(ps) + PutShards([]) == Puts(ps) by { assert [ps][1..] == []; }
          Assoc(head, marks, Puts(ps));
      }
    }
  }

  function Artifacts(o: Options, ts: seq<Table>): (r: seq<Artifact>)
    ensures |r| == |ts| && forall i :: 0 <= i < |ts| ==> r[i] == DumpTableToTemp(o, ts[i])
  {
    seq(|ts|, i requires 0 <= i < |ts| => DumpTableToTemp(o, ts[i]))
  }

  lemma SameStep(o: Options, s: Assembly, t: Table)
    requires SameOutcome(o, t)
    ensures SerialStep(o, s, t) == MergeStep(o, s, DumpTableToTemp(o, t))
  {
    assert DumpTableToTemp(o, t).table == t;
    hide Framed, DumpTableDirect, DumpTableToTemp, MergeBody, Owned;
  }

  lemma {:induction false} SerialIsMerge(o: Options, s: Assembly, ts: seq<Table>)
    requires forall i :: 0 <= i < |ts| ==> DataPhaseOk(o, ts[i])
    ensures SerialAll(o, s, ts) == MergeAll(o, s, Artifacts(o, ts))
    decreases |ts|
  {
    hide SameOutcome, DataPhaseOk, DumpTableToTemp, SerialStep, MergeStep;
    if ts != [] {
      SameOutcomeIff(o, ts[0]);
      assert Artifacts(o, ts)[1..] == Artifacts(o, ts[1..]);
      SameStep(o, s, ts[0]);
      SerialIsMerge(o, SerialStep(o, s, ts[0]), ts[1..]);
    }
  }

  /** Work items are numbered from zero. */
  predicate Numbered(ts: seq<Table>) {
    forall i :: 0 <= i < |ts| ==> ts[i].idx == i
  }

  /**
    With clean data phases the parallel dump is the serial dump: any order in which
    the staged tables arrive, sorted as the merge sorts them, yields the same
    operations on the sink, the same totals and the same deferred list.
  */
  lemma {:induction false} ParallelEqualsSerial(
      o: Options, work: seq<Table>, arrivals: seq<Artifact>, sorted: seq<Artifact>)
    requires Numbered(work) && forall i :: 0 <= i < |work| ==> DataPhaseOk(o, work[i])
    requires multiset(arrivals) == multiset(Artifacts(o, work))
    requires Ascending(sorted) && multiset(sorted) == multiset(arrivals)
    ensures MergeAll(o, EMPTY, sorted) == SerialAll(o, EMPTY, work)
  {
    assert Ascending(Artifacts(o, work));
    SortedUnique(sorted, Artifacts(o, work));
    SerialIsMerge(o, EMPTY, work);
  }
}
