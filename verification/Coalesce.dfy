/**
  Gluing consecutive inserts with one prefix into one extended insert
  (`coalesce_inserts`, src-tauri/src/sql_import.rs), over an abstract database:
  an insert applies its rows one after the other, all or nothing.
*/
module Coalesce {
  import opened Text
  import opened InsertSplit

  /** What one row of an insert, and any other statement, do to a database. `None` is an SQL error. */
  datatype Engine<!Db> = Engine(row: (string, string, Db) -> Option<Db>, other: (string, Db) -> Option<Db>)

  function ApplyRows<Db>(e: Engine<Db>, prefix: string, rows: seq<string>, db: Db): Option<Db> {
    if rows == [] then Some(db)
    else
      match e.row(prefix, rows[0], db)
      case None => None
      case Some(next) => ApplyRows(e, prefix, rows[1..], next)
  }

  function Exec<Db>(e: Engine<Db>, stmt: string, db: Db): Option<Db> {
    match SplitInsert(stmt)
    case Some(c) => ApplyRows(e, c.prefix, Groups(c.tuples), db)
    case None => e.other(stmt, db)
  }

  function ExecAll<Db>(e: Engine<Db>, stmts: seq<string>, db: Db): Option<Db> {
    if stmts == [] then Some(db)
    else
      match Exec(e, stmts[0], db)
      case None => None
      case Some(next) => ExecAll(e, stmts[1..], next)
  }

  function Then<Db>(e: Engine<Db>, first: Option<Db>, stmts: seq<string>): Option<Db> {
    match first
    case None => None
    case Some(db) => ExecAll(e, stmts, db)
  }

  // ------------------------------------------------------------------- the gluing

  /** The insert being extended: its prefix and its full text so far. */
  datatype Growing = Growing(prefix: string, acc: string)

  function Start(c: Cut): Growing {
    Growing(c.prefix, c.prefix + " " + c.tuples)
  }

  function Pending(cur: Option<Growing>): seq<string> {
    match cur
    case Some(g) => [g.acc]
    case None => []
  }

  predicate Fits(cur: Option<Growing>, c: Cut, maxBytes: nat) {
    cur.Some? && cur.value.prefix == c.prefix && |cur.value.acc| + 1 + |c.tuples| <= maxBytes
  }

  /** What the loop still emits: the insert in progress, then the rest. */
  function Coalesced(cur: Option<Growing>, stmts: seq<string>, maxBytes: nat): seq<string>
    decreases |stmts|
  {
    if stmts == [] then Pending(cur)
    else
      match SplitInsert(stmts[0])
      case None => Pending(cur) + [stmts[0]] + Coalesced(None, stmts[1..], maxBytes)
      case Some(c) =>
        if Fits(cur, c, maxBytes) then
          Coalesced(Some(Growing(c.prefix, cur.value.acc + "," + c.tuples)), stmts[1..], maxBytes)
        else
          Pending(cur) + Coalesced(Some(Start(c)), stmts[1..], maxBytes)
  }

  method CoalesceInserts(stmts: seq<string>, maxBytes: nat) returns (out: seq<string>)
    ensures out == Coalesced(None, stmts, maxBytes)
  {
    out := [];
    var cur: Option<Growing> := None;
    assert stmts[0..] == stmts;
    for k := 0 to |stmts|
      invariant out + Coalesced(cur, stmts[k..], maxBytes) == Coalesced(None, stmts, maxBytes)
    {
      assert stmts[k..][0] == stmts[k] && stmts[k..][1..] == stmts[k + 1..];
      ghost var before, was := out, cur;
      var split := SplitInsertAt(stmts[k]);
      match split
      case Some(c) =>
        if cur.Some? && cur.value.prefix == c.prefix && |cur.value.acc| + 1 + |c.tuples| <= maxBytes {
          cur := Some(Growing(c.prefix, cur.value.acc + "," + c.tuples));
        } else {
          if cur.Some? {
            out := out + [cur.value.acc];
          }
          cur := Some(Growing(c.prefix, c.prefix + " " + c.tuples));
          assert out == before + Pending(was);
          Assoc(before, Pending(was), Coalesced(cur, stmts[k + 1..], maxBytes));
        }
      case None =>
        if cur.Some? {
          out := out + [cur.value.acc];
          cur := None;
        }
        out := out + [stmts[k]];
        assert out == before + (Pending(was) + [stmts[k]]);
        Assoc(before, Pending(was) + [stmts[k]], Coalesced(None, stmts[k + 1..], maxBytes));
    }
    if cur.Some? {
      out := out + [cur.value.acc];
    }
  }

  // ------------------------------------------------------------------ the meaning

  lemma {:induction false} RowsAppend<Db>(e: Engine<Db>, prefix: string, a: seq<string>, b: seq<string>, db: Db)
    ensures ApplyRows(e, prefix, a + b, db)
         == match ApplyRows(e, prefix, a, db)
            case None => None
            case Some(next) => ApplyRows(e, prefix, b, next)
  {
    if a == [] {
      assert a + b == b;
    } else {
      DropPrefix(a, b, 1);
      var next := e.row(prefix, a[0], db);
      if next.Some? {
        RowsAppend(e, prefix, a[1..], b, next.value);
      }
    }
  }

  lemma {:induction false} ExecAppend<Db>(e: Engine<Db>, a: seq<string>, b: seq<string>, db: Db)
    ensures ExecAll(e, a + b, db) == Then(e, ExecAll(e, a, db), b)
  {
    if a == [] {
      assert a + b == b;
    } else {
      DropPrefix(a, b, 1);
      var next := Exec(e, a[0], db);
      if next.Some? {
        ExecAppend(e, a[1..], b, next.value);
      }
    }
  }

  /** The insert in progress is one that splits at its own prefix. */
  predicate Sound(cur: Option<Growing>) {
    cur.Some? ==>
      && SplitInsert(cur.value.acc).Some?
      && SplitInsert(cur.value.acc).value.prefix == cur.value.prefix
      && cur.value.acc == cur.value.prefix + " " + SplitInsert(cur.value.acc).value.tuples
  }

  lemma ExecIs<Db>(e: Engine<Db>, stmt: string, prefix: string, tuples: string, db: Db)
    requires SplitInsert(stmt) == Some(Cut(prefix, tuples))
    ensures Exec(e, stmt, db) == ApplyRows(e, prefix, Groups(tuples), db)
  {
  }

  /** Rewriting one insert as prefix, blank, tuples does not change what it does. */
  lemma StartMeans<Db>(e: Engine<Db>, stmt: string, db: Db)
    requires SplitInsert(stmt).Some?
    ensures Sound(Some(Start(SplitInsert(stmt).value)))
    ensures Exec(e, Start(SplitInsert(stmt).value).acc, db) == Exec(e, stmt, db)
  {
    PrefixIs(stmt);
    hide SplitInsert, Clean, Groups, ApplyRows;
    var c := SplitInsert(stmt).value;
    SplitRebuilt(stmt, c.tuples);
    ExecIs(e, stmt, c.prefix, c.tuples, db);
    ExecIs(e, Start(c).acc, c.prefix, c.tuples, db);
  }

  lemma ExecTwo<Db>(e: Engine<Db>, a: string, b: string, db: Db)
    ensures ExecAll(e, [a, b], db)
         == match Exec(e, a, db) case None => None case Some(next) => Exec(e, b, next)
  {
    hide Exec;
    assert [a, b][1..] == [b] && [b][1..] == [];
    var next := Exec(e, a, db);
    if next.Some? {
      assert ExecAll(e, [b], next.value) == Exec(e, b, next.value);
    }
  }

  lemma GrowsSound(g: Growing, stmt: string)
    requires Sound(Some(g)) && SplitInsert(stmt).Some? && SplitInsert(stmt).value.prefix == g.prefix
    ensures var p, ta, tb := g.prefix, SplitInsert(g.acc).value.tuples, SplitInsert(stmt).value.tuples;
            && SplitInsert(g.acc) == Some(Cut(p, ta)) && SplitInsert(stmt) == Some(Cut(p, tb))
            && SplitInsert(g.acc + "," + tb) == Some(Cut(p, ta + "," + tb))
            && Groups(ta + "," + tb) == Groups(ta) + Groups(tb)
            && Sound(Some(Growing(p, g.acc + "," + tb)))
  {
    hide SplitInsert, Groups;
    var p, ta, tb := g.prefix, SplitInsert(g.acc).value.tuples, SplitInsert(stmt).value.tuples;
    SplitGlued(g.acc, stmt);
    AssocFour(p + " ", ta, ",", tb);
  }

  /** Extending an insert by another one's rows runs both, in order, all or nothing. */
  lemma GlueMeans<Db>(e: Engine<Db>, g: Growing, stmt: string, db: Db)
    requires Sound(Some(g)) && SplitInsert(stmt).Some? && SplitInsert(stmt).value.prefix == g.prefix
    ensures var acc := g.acc + "," + SplitInsert(stmt).value.tuples;
            && Sound(Some(Growing(g.prefix, acc)))
            && Exec(e, acc, db) == ExecAll(e, [g.acc, stmt], db)
  {
    hide SplitInsert, Groups, Exec, ExecAll, ApplyRows, Sound;
    GrowsSound(g, stmt);
    var p, ta, tb := g.prefix, SplitInsert(g.acc).value.tuples, SplitInsert(stmt).value.tuples;
    RowsAppend(e, p, Groups(ta), Groups(tb), db);
    ExecIs(e, g.acc + "," + tb, p, ta + "," + tb, db);
    ExecIs(e, g.acc, p, ta, db);
    ExecTwo(e, g.acc, stmt, db);
    var next := Exec(e, g.acc, db);
    if next.Some? {
      ExecIs(e, stmt, p, tb, next.value);
    }
  }

  lemma ExecPair<Db>(e: Engine<Db>, a: string, b: string, rest: seq<string>, db: Db)
    ensures ExecAll(e, [a] + ([b] + rest), db) == Then(e, ExecAll(e, [a, b], db), rest)
  {
    assert [a] + ([b] + rest) == [a, b] + rest;
    ExecAppend(e, [a, b], rest, db);
  }

  lemma ExecOne<Db>(e: Engine<Db>, a: string, rest: seq<string>, db: Db)
    ensures ExecAll(e, [a] + rest, db) == Then(e, Exec(e, a, db), rest)
  {
    assert ([a] + rest)[1..] == rest;
  }

  /** Two tails that mean the same can be exchanged behind any front. */
  lemma SwapTail<Db>(e: Engine<Db>, front: seq<string>, a: seq<string>, b: seq<string>, db: Db)
    requires forall d: Db :: ExecAll(e, a, d) == ExecAll(e, b, d)
    ensures ExecAll(e, front + a, db) == ExecAll(e, front + b, db)
  {
    ExecAppend(e, front, a, db);
    ExecAppend(e, front, b, db);
  }

  lemma {:induction false} GrownMeans<Db>(e: Engine<Db>, g: Growing, stmt: string, rest: seq<string>, db: Db)
    requires Sound(Some(g)) && SplitInsert(stmt).Some? && SplitInsert(stmt).value.prefix == g.prefix
    ensures ExecAll(e, [g.acc + "," + SplitInsert(stmt).value.tuples] + rest, db)
         == ExecAll(e, [g.acc] + ([stmt] + rest), db)
  {
    hide SplitInsert, Exec, ExecAll;
    GlueMeans(e, g, stmt, db);
    ExecOne(e, g.acc + "," + SplitInsert(stmt).value.tuples, rest, db);
    ExecPair(e, g.acc, stmt, rest, db);
  }

  lemma {:induction false} RespacedMeans<Db>(e: Engine<Db>, stmt: string, rest: seq<string>, db: Db)
    requires SplitInsert(stmt).Some?
    ensures ExecAll(e, [Start(SplitInsert(stmt).value).acc] + rest, db) == ExecAll(e, [stmt] + rest, db)
  {
    hide SplitInsert, Exec, ExecAll;
    StartMeans(e, stmt, db);
    ExecOne(e, Start(SplitInsert(stmt).value).acc, rest, db);
    ExecOne(e, stmt, rest, db);
  }

  /** Coalescing preserves meaning: the glued list does what the original list does, statement by statement. */
  lemma {:induction false} CoalescedMeans<Db>(
      e: Engine<Db>, cur: Option<Growing>, stmts: seq<string>, maxBytes: nat, db: Db)
    requires Sound(cur)
    ensures ExecAll(e, Coalesced(cur, stmts, maxBytes), db) == ExecAll(e, Pending(cur) + stmts, db)
    decreases |stmts|
  {
    if stmts == [] {
      assert Pending(cur) + stmts == Pending(cur);
      return;
    }
    var s, rest := stmts[0], stmts[1..];
    assert stmts == [s] + rest;
    match SplitInsert(s)
    case None =>
      var tail := Coalesced(None, rest, maxBytes);
      forall d: Db ensures ExecAll(e, tail, d) == ExecAll(e, rest, d) {
        CoalescedMeans(e, None, rest, maxBytes, d);
        assert Pending(None) + rest == rest;
      }
      SwapTail(e, Pending(cur) + [s], tail, rest, db);
      Assoc(Pending(cur), [s], rest);
    case Some(c) =>
      if Fits(cur, c, maxBytes) {
        var next := Growing(c.prefix, cur.value.acc + "," + c.tuples);
        GlueMeans(e, cur.value, s, db);
        CoalescedMeans(e, Some(next), rest, maxBytes, db);
        GrownMeans(e, cur.value, s, rest, db);
      } else {
        StartMeans(e, s, db);
        var tail := Coalesced(Some(Start(c)), rest, maxBytes);
        forall d: Db ensures ExecAll(e, tail, d) == ExecAll(e, stmts, d) {
          CoalescedMeans(e, Some(Start(c)), rest, maxBytes, d);
          RespacedMeans(e, s, rest, d);
        }
        SwapTail(e, Pending(cur), tail, stmts, db);
      }
  }

  // -------------------------------------------------------------------- the shape

  function TuplesOf(run: seq<string>): seq<string>
    requires forall k :: 0 <= k < |run| ==> SplitInsert(run[k]).Some?
  {
    seq(|run|, k requires 0 <= k < |run| => SplitInsert(run[k]).value.tuples)
  }

  /** One output statement stands for one run of consecutive inputs. */
  predicate RunBecomes(run: seq<string>, out: string, maxBytes: nat) {
    && run != []
    && if |run| == 1 && SplitInsert(run[0]).None? then out == run[0]
       else
         && (forall k :: 0 <= k < |run| ==> SplitInsert(run[k]).Some?)
         && (forall k :: 0 <= k < |run| ==> SplitInsert(run[k]).value.prefix == SplitInsert(run[0]).value.prefix)
         && out == SplitInsert(run[0]).value.prefix + " " + Join(TuplesOf(run), ",")
         && (|run| > 1 ==> |out| <= maxBytes)
  }

  /** The run behind the insert in progress. */
  predicate RunGrows(cur: Option<Growing>, run: seq<string>, maxBytes: nat) {
    if cur.None? then run == []
    else
      && run != [] && SplitInsert(run[0]).Some? && SplitInsert(run[0]).value.prefix == cur.value.prefix
      && RunBecomes(run, cur.value.acc, maxBytes)
  }

  /** The insert that `out` is does not take the first statement of the next run: another one, or too long. */
  predicate StayApart(run: seq<string>, out: string, next: seq<string>, maxBytes: nat) {
    run != [] && next != [] &&
    match (SplitInsert(run[0]), SplitInsert(next[0]))
    case (Some(a), Some(b)) => a.prefix != b.prefix || |out| + 1 + |b.tuples| > maxBytes
    case _ => true
  }

  /** Runs and the statements they become; neighbours that would have fitted together are not left apart. */
  predicate Runs(runs: seq<seq<string>>, outs: seq<string>, maxBytes: nat) {
    && |runs| == |outs|
    && (forall k :: 0 <= k < |outs| ==> RunBecomes(runs[k], outs[k], maxBytes))
    && (forall k :: 0 < k < |outs| ==> StayApart(runs[k - 1], outs[k - 1], runs[k], maxBytes))
  }

  /** Runs behind runs. */
  lemma RunsJoin(a: seq<seq<string>>, outA: seq<string>, b: seq<seq<string>>, outB: seq<string>, maxBytes: nat)
    requires Runs(a, outA, maxBytes) && Runs(b, outB, maxBytes)
    requires a != [] && b != [] ==> StayApart(a[|a| - 1], outA[|a| - 1], b[0], maxBytes)
    ensures Runs(a + b, outA + outB, maxBytes) && Flatten(a + b) == Flatten(a) + Flatten(b)
  {
    FlattenAppend(a, b);
    hide RunBecomes, StayApart, Flatten;
  }

  lemma OneRun(run: seq<string>, out: string, maxBytes: nat)
    requires RunBecomes(run, out, maxBytes)
    ensures Runs([run], [out], maxBytes) && Flatten([run]) == run
  {
    hide RunBecomes, StayApart;
    assert [run][1..] == [] && run + [] == run;
  }

  lemma NoRuns(maxBytes: nat)
    ensures Runs([], [], maxBytes) && Flatten<string>([]) == []
  {
  }

  /** The run in progress as a list of runs. */
  function Closed(cur: Option<Growing>, run: seq<string>): seq<seq<string>> {
    if cur.None? then [] else [run]
  }

  lemma ClosedRuns(cur: Option<Growing>, run: seq<string>, maxBytes: nat)
    requires RunGrows(cur, run, maxBytes)
    ensures Runs(Closed(cur, run), Pending(cur), maxBytes) && Flatten(Closed(cur, run)) == run
    ensures cur.Some? ==> run != [] && SplitInsert(run[0]).Some? && SplitInsert(run[0]).value.prefix == cur.value.prefix
  {
    hide RunBecomes, SplitInsert;
    NoRuns(maxBytes);
    if cur.Some? {
      OneRun(run, cur.value.acc, maxBytes);
    }
  }

  /** What stays apart: another prefix, too long, or no insert at all. */
  lemma KeptApart(cur: Option<Growing>, run: seq<string>, next: seq<string>, maxBytes: nat)
    requires RunGrows(cur, run, maxBytes) && cur.Some? && next != []
    requires match SplitInsert(next[0]) case None => true case Some(c) => !Fits(cur, c, maxBytes)
    ensures StayApart(run, cur.value.acc, next, maxBytes)
  {
    hide RunBecomes, SplitInsert;
  }

  /**
    The output partitions the input into consecutive runs: a run of one passes
    (an insert re-spaced, anything else verbatim); a longer run is inserts of one
    prefix, glued in order, within the byte cap. Neighbours that would have fitted
    together are not left apart.
  */
  lemma {:induction false} CoalescedRuns(cur: Option<Growing>, run: seq<string>, stmts: seq<string>, maxBytes: nat)
    returns (runs: seq<seq<string>>)
    requires RunGrows(cur, run, maxBytes)
    ensures Runs(runs, Coalesced(cur, stmts, maxBytes), maxBytes) && Flatten(runs) == run + stmts
    ensures cur.Some? ==> runs != [] && run <= runs[0]
    decreases |stmts|
  {
    ClosedRuns(cur, run, maxBytes);
    hide SplitInsert, RunBecomes, Runs, StayApart, Flatten;
    var closed := Closed(cur, run);
    if stmts == [] {
      runs := closed;
      assert run + stmts == run;
      return;
    }
    var s, rest := stmts[0], stmts[1..];
    assert stmts == [s] + rest;
    match SplitInsert(s)
    case None =>
      var tail := CoalescedRuns(None, [], rest, maxBytes);
      var tailOut := Coalesced(None, rest, maxBytes);
      assert [] + rest == rest;
      AloneBecomes(s, maxBytes);
      OneRun([s], s, maxBytes);
      AnyFollows(s, tail, maxBytes);
      RunsJoin([[s]], [s], tail, tailOut, maxBytes);
      if cur.Some? {
        KeptApart(cur, run, [s], maxBytes);
      }
      runs := closed + ([[s]] + tail);
      assert ([[s]] + tail)[0] == [s];
      RunsJoin(closed, Pending(cur), [[s]] + tail, [s] + tailOut, maxBytes);
      Assoc(Pending(cur), [s], tailOut);
    case Some(c) =>
      if Fits(cur, c, maxBytes) {
        RunExtends(cur.value, run, s, maxBytes);
        runs := CoalescedRuns(Some(Growing(c.prefix, cur.value.acc + "," + c.tuples)), run + [s], rest, maxBytes);
        Assoc(run, [s], rest);
        assert run <= run + [s];
      } else {
        AloneBecomes(s, maxBytes);
        var tail := CoalescedRuns(Some(Start(c)), [s], rest, maxBytes);
        assert tail[0][0] == s;
        if cur.Some? {
          KeptApart(cur, run, tail[0], maxBytes);
        }
        runs := closed + tail;
        RunsJoin(closed, Pending(cur), tail, Coalesced(Some(Start(c)), rest, maxBytes), maxBytes);
      }
  }

  /** Behind a statement that is no insert anything may stand. */
  lemma AnyFollows(s: string, tail: seq<seq<string>>, maxBytes: nat)
    requires SplitInsert(s).None? && forall k :: 0 <= k < |tail| ==> tail[k] != []
    ensures tail != [] ==> StayApart([s], s, tail[0], maxBytes)
  {
    hide SplitInsert;
  }

  /** A run of one: an insert re-spaced, anything else verbatim. */
  lemma AloneBecomes(s: string, maxBytes: nat)
    ensures SplitInsert(s).None? ==> RunBecomes([s], s, maxBytes)
    ensures SplitInsert(s).Some? ==> RunBecomes([s], Start(SplitInsert(s).value).acc, maxBytes)
  {
    hide SplitInsert;
    if SplitInsert(s).Some? {
      assert TuplesOf([s]) == [SplitInsert(s).value.tuples];
    }
  }

  lemma RunExtends(g: Growing, run: seq<string>, s: string, maxBytes: nat)
    requires RunGrows(Some(g), run, maxBytes) && SplitInsert(s).Some?
    requires Fits(Some(g), SplitInsert(s).value, maxBytes)
    ensures RunBecomes(run + [s], g.acc + "," + SplitInsert(s).value.tuples, maxBytes)
  {
    hide SplitInsert, Join;
    var grown, tuples := run + [s], SplitInsert(s).value.tuples;
    assert TuplesOf(grown) == TuplesOf(run) + [tuples];
    JoinSnoc(TuplesOf(run), tuples, ",");
    var p, j := g.prefix + " ", Join(TuplesOf(run), ",");
    assert p + (j + "," + tuples) == p + j + "," + tuples;
  }
}
