/**
  The sequential half of the importer (`flush_batch` and the inline path of
  `run_streaming_import`, src-tauri/src/sql_import.rs): inserts are collected into
  a batch that one transaction commits, everything else runs at once. The
  reference is running every prepared statement on its own, in source order.
*/
module InlineImport {
  import opened Text
  import opened Splitter
  import opened InsertSplit
  import opened Coalesce

  /** Fixed for one import: the database engine, the statement filter, the policy and the thresholds. */
  datatype Config<!Db> = Config(
    engine: Engine<Db>,
    prepare: string -> Option<string>,
    continueOnError: bool,
    batchMaxStmts: nat,
    batchMaxBytes: nat,
    coalesceMaxBytes: nat)

  /** What the caller can see of a run: the database, the two counters, whether it gave up. */
  datatype Progress<Db> = Progress(db: Db, done: nat, errs: nat, aborted: bool)

  /** A driver error that `is_transient` recognises is retried at most this often. */
  const TRANSIENT_MAX_RETRIES: nat := 8

  // ----------------------------------------------------------- the reference run

  function RunOne<Db>(c: Config<Db>, p: Progress<Db>, stmt: string): Progress<Db> {
    if p.aborted then p
    else
      match Exec(c.engine, stmt, p.db)
      case Some(next) => p.(db := next, done := p.done + 1)
      case None => p.(done := p.done + 1, errs := p.errs + 1, aborted := !c.continueOnError)
  }

  function RunAll<Db>(c: Config<Db>, p: Progress<Db>, stmts: seq<string>): Progress<Db>
    decreases |stmts|
  {
    if stmts == [] then p else RunAll(c, RunOne(c, p, stmts[0]), stmts[1..])
  }

  function PreparedOne<Db>(c: Config<Db>, item: Item): seq<string> {
    match item
    case Marker(_) => []
    case Stmt(s) => match c.prepare(s) case Some(sql) => [sql] case None => []
  }

  /** The statements of an item stream that are left to run once each is prepared. */
  function Prepared<Db>(c: Config<Db>, items: seq<Item>): seq<string> {
    if items == [] then [] else PreparedOne(c, items[0]) + Prepared(c, items[1..])
  }

  lemma {:induction false} RunAppend<Db>(c: Config<Db>, p: Progress<Db>, a: seq<string>, b: seq<string>)
    ensures RunAll(c, p, a + b) == RunAll(c, RunAll(c, p, a), b)
    decreases |a|
  {
    if a == [] {
      assert a + b == b;
    } else {
      DropPrefix(a, b, 1);
      RunAppend(c, RunOne(c, p, a[0]), a[1..], b);
    }
  }

  lemma {:induction false} PreparedAppend<Db>(c: Config<Db>, a: seq<Item>, b: seq<Item>)
    ensures Prepared(c, a + b) == Prepared(c, a) + Prepared(c, b)
  {
    if a == [] {
      assert a + b == b;
    } else {
      DropPrefix(a, b, 1);
      PreparedAppend(c, a[1..], b);
      Assoc(PreparedOne(c, a[0]), Prepared(c, a[1..]), Prepared(c, b));
    }
  }

  /** Once a run has given up, nothing it is handed changes anything. */
  lemma {:induction false} AbortedStays<Db>(c: Config<Db>, p: Progress<Db>, stmts: seq<string>)
    requires p.aborted
    ensures RunAll(c, p, stmts) == p
  {
    if stmts != [] {
      AbortedStays(c, p, stmts[1..]);
    }
  }

  /** If the statements succeed as one transaction, running them one by one ends in the same database. */
  lemma {:induction false} RunSucceeds<Db>(c: Config<Db>, p: Progress<Db>, stmts: seq<string>)
    requires !p.aborted && ExecAll(c.engine, stmts, p.db).Some?
    ensures RunAll(c, p, stmts)
         == p.(db := ExecAll(c.engine, stmts, p.db).value, done := p.done + |stmts|)
    decreases |stmts|
  {
    if stmts != [] {
      RunSucceeds(c, RunOne(c, p, stmts[0]), stmts[1..]);
    }
  }

  /**
    Without `continue_on_error` the reference run is the longest prefix that
    executes cleanly: it stops at the first failing statement, counts that one,
    and keeps the database the statements before it produced.
  */
  lemma {:induction false} StopsAtFirstFailure<Db>(c: Config<Db>, p: Progress<Db>, stmts: seq<string>) returns (k: nat)
    requires !p.aborted && !c.continueOnError
    ensures k <= |stmts| && ExecAll(c.engine, stmts[..k], p.db).Some?
    ensures var db := ExecAll(c.engine, stmts[..k], p.db).value;
            var r := RunAll(c, p, stmts);
            if k == |stmts| then r == p.(db := db, done := p.done + k)
            else
              && Exec(c.engine, stmts[k], db).None?
              && r == Progress(db, p.done + k + 1, p.errs + 1, true)
    decreases |stmts|
  {
    if stmts == [] {
      k := 0;
    } else {
      var p1 := RunOne(c, p, stmts[0]);
      if p1.aborted {
        k := 0;
        AbortedStays(c, p1, stmts[1..]);
      } else {
        var n := StopsAtFirstFailure(c, p1, stmts[1..]);
        k := n + 1;
        assert stmts[..k][1..] == stmts[1..][..n];
      }
    }
  }

  /** The statements that a selection picks, in order. */
  function Picked(stmts: seq<string>, picks: seq<bool>): seq<string>
    requires |stmts| == |picks|
  {
    if stmts == [] then []
    else (if picks[0] then [stmts[0]] else []) + Picked(stmts[1..], picks[1..])
  }

  function Unpicked(picks: seq<bool>): nat {
    if picks == [] then 0 else (if picks[0] then 0 else 1) + Unpicked(picks[1..])
  }

  /** A statement left out fails on the database that the picked ones before it leave. */
  ghost predicate FailsThere<Db>(e: Engine<Db>, db: Db, stmts: seq<string>, picks: seq<bool>, i: nat)
    requires |stmts| == |picks| && i < |stmts|
  {
    var before := ExecAll(e, Picked(stmts[..i], picks[..i]), db);
    before.Some? && Exec(e, stmts[i], before.value).None?
  }

  lemma PickedPrefix(s: string, pick: bool, stmts: seq<string>, picks: seq<bool>, i: nat)
    requires |stmts| == |picks| && i <= |stmts|
    ensures var all, ps := [s] + stmts, [pick] + picks;
            Picked(all[..i + 1], ps[..i + 1]) == (if pick then [s] else []) + Picked(stmts[..i], picks[..i])
  {
    var all, ps := ([s] + stmts)[..i + 1], ([pick] + picks)[..i + 1];
    assert all[1..] == stmts[..i] && ps[1..] == picks[..i] && all[0] == s && ps[0] == pick;
  }

  /** One more statement in front of a run that is known. */
  lemma FailsBehind<Db>(e: Engine<Db>, db: Db, next: Db, s: string, pick: bool, stmts: seq<string>,
                        picks: seq<bool>, i: nat)
    requires |stmts| == |picks| && i < |stmts| && FailsThere(e, next, stmts, picks, i)
    requires if pick then Exec(e, s, db) == Some(next) else next == db
    ensures FailsThere(e, db, [s] + stmts, [pick] + picks, i + 1)
  {
    hide Exec;
    PickedPrefix(s, pick, stmts, picks, i);
    var more := Picked(stmts[..i], picks[..i]);
    assert ([s] + more)[1..] == more && [] + more == more;
    assert ([s] + stmts)[i + 1] == stmts[i];
  }

  /**
    With `continue_on_error` a run goes through every statement: the database ends as
    the statements that can be executed leave it, each statement left out is one that
    fails where it stands, and every failure is counted.
  */
  lemma {:induction false} SkipsFailures<Db>(c: Config<Db>, p: Progress<Db>, stmts: seq<string>)
    returns (picks: seq<bool>)
    requires !p.aborted && c.continueOnError
    ensures |picks| == |stmts|
    ensures var r := RunAll(c, p, stmts);
            && !r.aborted && r.done == p.done + |stmts| && r.errs == p.errs + Unpicked(picks)
            && ExecAll(c.engine, Picked(stmts, picks), p.db) == Some(r.db)
    ensures forall i :: 0 <= i < |stmts| && !picks[i] ==> FailsThere(c.engine, p.db, stmts, picks, i)
    decreases |stmts|
  {
    if stmts == [] {
      picks := [];
    } else {
      var s, rest, next := stmts[0], stmts[1..], RunOne(c, p, stmts[0]);
      var pick := Exec(c.engine, s, p.db).Some?;
      var more := SkipsFailures(c, next, rest);
      picks := [pick] + more;
      assert stmts == [s] + rest && picks[1..] == more;
      assert ([s] + Picked(rest, more))[1..] == Picked(rest, more) && [] + Picked(rest, more) == Picked(rest, more);
      forall i | 0 <= i < |stmts| && !picks[i] ensures FailsThere(c.engine, p.db, stmts, picks, i) {
        if i == 0 {
          assert stmts[..0] == [] && picks[..0] == [];
        } else {
          hide RunAll, Exec, FailsThere;
          FailsBehind(c.engine, p.db, next.db, s, pick, rest, more, i - 1);
        }
      }
    }
  }

  // -------------------------------------------------------------- the importer

  class Importer<Db> {
    const config: Config<Db>
    var db: Db
    var batch: seq<string>
    var batchBytes: nat
    var done: nat
    var errs: nat
    var abort: bool

    constructor (config: Config<Db>, db: Db)
      ensures this.config == config && Shown() == Progress(db, 0, 0, false) && batch == [] && Small()
    {
      this.config, this.db, batch, batchBytes, done, errs, abort := config, db, [], 0, 0, 0, false;
    }

    function Shown(): Progress<Db>
      reads this
    {
      Progress(db, done, errs, abort)
    }

    /** The driver's transaction: it may fail for any reason, and then nothing was applied. */
    method ExecuteBatchTx(stmts: seq<string>) returns (ok: bool)
      modifies `db
      ensures ok ==> ExecAll(config.engine, stmts, old(db)) == Some(db)
      ensures !ok ==> db == old(db)
    {
      var outcome := ExecAll(config.engine, stmts, db);
      ok := false;
      if outcome.Some? {
        if * {
          db, ok := outcome.value, true;
        }
      }
    }

    /** One statement on its own. */
    method RunPrepared(stmt: string) returns (keepGoing: bool)
      requires !abort
      modifies `db, `done, `errs, `abort
      ensures Shown() == RunOne(config, old(Shown()), stmt)
      ensures keepGoing == !abort
    {
      var outcome := Exec(config.engine, stmt, db);
      done := done + 1;
      match outcome {
        case Some(next) =>
          db := next;
        case None =>
          errs := errs + 1;
          if !config.continueOnError {
            abort := true;
          }
      }
      keepGoing := !abort;
    }

    /** The slow path after a failed transaction. */
    method Replay() returns (keepGoing: bool)
      requires !abort
      modifies `db, `done, `errs, `abort
      ensures Shown() == RunAll(config, old(Shown()), batch)
      ensures keepGoing == !abort
    {
      keepGoing := true;
      var k := 0;
      assert batch[0..] == batch;
      while k < |batch| && keepGoing
        invariant k <= |batch| && keepGoing == !abort
        invariant RunAll(config, Shown(), batch[k..]) == RunAll(config, old(Shown()), batch)
      {
        assert batch[k..][1..] == batch[k + 1..];
        keepGoing := RunPrepared(batch[k]);
        k := k + 1;
      }
      if !keepGoing {
        AbortedStays(config, Shown(), batch[k..]);
      }
    }

    /** Commits the batch; whichever way the transaction goes, each of its statements has been run. */
    method FlushBatch() returns (keepGoing: bool)
      requires !abort && (batch == [] ==> batchBytes == 0)
      modifies this
      ensures Small()
      ensures Shown() == RunAll(config, old(Shown()), old(batch)) && batch == []
      ensures keepGoing == !abort
    {
      if batch == [] {
        return true;
      }
      var coalesced := CoalesceInserts(batch, config.coalesceMaxBytes);
      CoalescedMeans(config.engine, None, batch, config.coalesceMaxBytes, db);
      assert [] + batch == batch;
      var attempt := 0;
      var ok := ExecuteBatchTx(coalesced);
      while !ok && attempt < TRANSIENT_MAX_RETRIES
        invariant batch == old(batch) && done == old(done) && errs == old(errs) && !abort
        invariant if ok then ExecAll(config.engine, coalesced, old(db)) == Some(db) else db == old(db)
      {
        if * { break; }
        ok := ExecuteBatchTx(coalesced);
        attempt := attempt + 1;
      }
      keepGoing := true;
      if ok {
        RunSucceeds(config, old(Shown()), batch);
        done := done + |batch|;
      } else {
        keepGoing := Replay();
      }
      batch, batchBytes := [], 0;
    }

    predicate Batchable(sql: string)
    {
      IsInsert(TrimStart(sql))
    }

    /** The pending batch stays below its two limits, and its size is kept. */
    predicate Small()
      reads this
    {
      && batchBytes == |Flatten(batch)|
      && (batch != [] ==> |batch| < config.batchMaxStmts && batchBytes < config.batchMaxBytes)
    }

    /**
      A statement that survived preparation: an insert is queued, and the queue is
      committed when it has reached a limit; anything else runs at once, behind the queue.
    */
    method Accept(sql: string) returns (keepGoing: bool)
      requires !abort && Small()
      modifies this
      ensures Small()
      ensures var queued := old(batch) + [sql];
              if Batchable(sql) && |queued| < config.batchMaxStmts && |Flatten(queued)| < config.batchMaxBytes
              then batch == queued && Shown() == old(Shown()) else batch == []
      ensures RunAll(config, Shown(), batch) == RunAll(config, old(Shown()), old(batch) + [sql])
      ensures abort ==> batch == []
      ensures keepGoing == !abort
    {
      keepGoing := true;
      ghost var p0, b0 := Shown(), batch;
      RunAppend(config, p0, b0, [sql]);
      FlattenAppend(b0, [sql]);
      assert [sql][1..] == [] && Flatten([sql]) == sql + [] == sql;
      if Batchable(sql) {
        batchBytes := batchBytes + |sql|;
        batch := batch + [sql];
        if |batch| >= config.batchMaxStmts || batchBytes >= config.batchMaxBytes {
          keepGoing := FlushBatch();
        }
      } else {
        keepGoing := FlushBatch();
        if keepGoing {
          keepGoing := RunPrepared(sql);
        } else {
          AbortedStays(config, Shown(), [sql]);
        }
      }
    }

    /** One item of the stream: a marker commits what is pending, a statement is prepared and accepted. */
    method Take(item: Item)
      requires !abort && Small()
      modifies this
      ensures Small()
      ensures RunAll(config, Shown(), batch) == RunAll(config, old(Shown()), old(batch) + PreparedOne(config, item))
      ensures abort ==> batch == []
    {
      match item {
        case Marker(_) =>
          assert batch + [] == batch;
          var _ := FlushBatch();
        case Stmt(s) =>
          var sql := config.prepare(s);
          if sql.Some? {
            var _ := Accept(sql.value);
          } else {
            assert batch + [] == batch;
          }
      }
    }

    /**
      The whole inline import. `stopAfter` is the number of items read before the
      user's stop request is noticed; the pending batch is still committed then.
    */
    method Run(items: seq<Item>, stopAfter: nat)
      requires !abort && batch == [] && Small()
      modifies this
      ensures Small()
      ensures var read := if stopAfter < |items| then stopAfter else |items|;
              Shown() == RunAll(config, old(Shown()), Prepared(config, items[..read]))
      ensures batch == []
    {
      hide RunAll, Prepared, PreparedOne;
      ghost var p0 := Shown();
      NothingYet(config, p0);
      ghost var read := if stopAfter < |items| then stopAfter else |items|;
      var k := 0;
      assert items[..0] == [];
      while k < |items| && k < stopAfter && !abort
        invariant k <= read
        invariant RunAll(config, Shown(), batch) == RunAll(config, p0, Prepared(config, items[..k]))
        invariant abort ==> batch == []
        invariant Small()
      {
        ghost var p1, b1 := Shown(), batch;
        Take(items[k]);
        assert items[..k + 1] == items[..k] + [items[k]];
        OneMore(config, p0, items[..k], items[k], p1, b1);
        k := k + 1;
      }
      if abort {
        assert items[..read] == items[..k] + items[k..read];
        NothingYet(config, Shown());
        GivenUp(config, p0, items[..k], items[k..read]);
      } else {
        var _ := FlushBatch();
      }
    }
  }

  lemma NothingYet<Db>(c: Config<Db>, p: Progress<Db>)
    ensures Prepared(c, []) == [] && RunAll(c, p, []) == p
  {
  }

  lemma {:induction false} OneMore<Db>(
      c: Config<Db>, p0: Progress<Db>, read: seq<Item>, item: Item, p1: Progress<Db>, b1: seq<string>)
    requires RunAll(c, p1, b1) == RunAll(c, p0, Prepared(c, read))
    ensures RunAll(c, p1, b1 + PreparedOne(c, item)) == RunAll(c, p0, Prepared(c, read + [item]))
  {
    hide RunAll, PreparedOne;
    PreparedAppend(c, read, [item]);
    assert [item][1..] == [] && PreparedOne(c, item) + [] == PreparedOne(c, item);
    RunAppend(c, p0, Prepared(c, read), PreparedOne(c, item));
    RunAppend(c, p1, b1, PreparedOne(c, item));
  }

  lemma GivenUp<Db>(c: Config<Db>, p: Progress<Db>, read: seq<Item>, unread: seq<Item>)
    requires RunAll(c, p, Prepared(c, read)).aborted
    ensures RunAll(c, p, Prepared(c, read + unread)) == RunAll(c, p, Prepared(c, read))
  {
    PreparedAppend(c, read, unread);
    RunAppend(c, p, Prepared(c, read), Prepared(c, unread));
    AbortedStays(c, RunAll(c, p, Prepared(c, read)), Prepared(c, unread));
  }
}
