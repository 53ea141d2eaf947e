/**
  The parallel import always ends (src-tauri/src/sql_import.rs): in every reachable
  state short of the end some party can move, and no run moves for ever. So every
  stream has a run that ends without abort or stop, and one with a second data run
  has one that ends so and has left statements out.
*/
module ImportProgress {
  import opened Text
  import Splitter
  import opened ParallelImport

  // -------------------------------------------------------------- nobody is stuck

  /** A step of the coordinator or of a worker: anything but the user's stop. */
  ghost predicate Moves(c: Conf, s: State, t: State) {
    CoordinatorStep(c, s, t) || exists w: nat :: WorkerStep(c, s, t, w)
  }

  /** Past the check of an item there is an item. */
  predicate HasItem(c: Conf, s: State) {
    s.phase == Acting ==> s.pos < |c.items|
  }

  lemma {:induction false} RunHasItem(c: Conf, run: seq<State>, i: nat)
    requires IsRun(c, run) && c.workers > 0 && i < |run|
    ensures Inv(c, run[i]) && HasItem(c, run[i])
  {
    if i == 0 {
      InitInv(c, run[0]);
    } else {
      RunHasItem(c, run, i - 1);
      ItemStays(c, run[i - 1], run[i - 1 + 1]);
    }
  }

  lemma ItemStays(c: Conf, s: State, t: State)
    requires Inv(c, s) && HasItem(c, s) && Next(c, s, t)
    ensures Inv(c, t) && HasItem(c, t)
  {
    ItemKept(c, s, t);
    hide Inv, Next, HasItem;
    StepKeeps(c, s, t);
  }

  lemma TakenThenReads(c: Conf, s: State, t: State)
    requires TakesItem(c, s, t)
    ensures t.phase != Acting
  {
    hide Own, Capacity;
  }

  lemma OtherPhases(c: Conf, s: State, t: State)
    requires Barrier(s, t) || ForwardFails(c, s, t) || Close(s, t) || LastJoin(s, t) || FlushFails(c, s, t)
    ensures t.phase != Acting
  {
    hide Own;
  }

  lemma KeepsPlace(c: Conf, s: State, t: State, w: nat)
    requires Flush(s, t) || UserStops(s, t) || WorkerStep(c, s, t, w)
    ensures t.pos == s.pos && t.phase == s.phase
  {
    hide Own;
  }

  lemma ItemKept(c: Conf, s: State, t: State)
    requires HasItem(c, s) && Next(c, s, t)
    ensures HasItem(c, t)
  {
    hide Flush, FlushFails, TakeMarker, Barrier, Forward, ForwardFails, QueueInsert, RunInline,
         RunInlineFails, Close, LastJoin, UserStops, WorkerStep;
    if TakesItem(c, s, t) {
      TakenThenReads(c, s, t);
    } else if Barrier(s, t) || ForwardFails(c, s, t) || Close(s, t) || LastJoin(s, t) || FlushFails(c, s, t) {
      OtherPhases(c, s, t);
    } else if Flush(s, t) || UserStops(s, t) {
      KeepsPlace(c, s, t, 0);
    } else if w: nat :| WorkerStep(c, s, t, w) {
      KeepsPlace(c, s, t, w);
    }
  }

  /** A step that gives up nothing: neither abort nor stop is set by it. */
  ghost predicate Peaceful(c: Conf, s: State, t: State) {
    Moves(c, s, t) && t.abort == s.abort && t.stop == s.stop
  }

  /** A pool whose sender is gone, or whose queue holds something, can move unless it has exited. */
  lemma WorkerCanMove(c: Conf, s: State, w: nat) returns (t: State)
    requires w < |s.workers| && s.workers[w] != Exited && (s.queue != [] || !s.senderOpen)
    ensures Peaceful(c, s, t)
  {
    if s.workers[w].Busy? {
      t := s.(log := s.log + [Entry(s.workers[w].idx, ByWorker(w))], workers := s.workers[w := Idle]);
      assert Complete(s, t, w);
    } else {
      if s.queue == [] {
        t := s.(workers := s.workers[w := Exited]);
        assert Quit(s, t, w);
      } else if s.abort || s.stop {
        t := s.(queue := s.queue[1..], workers := s.workers[w := Exited], closed := true,
                lost := s.lost + multiset{s.queue[0]});
        assert Receive(s, t, w);
      } else {
        t := s.(queue := s.queue[1..], workers := s.workers[w := Busy(s.queue[0])]);
        assert Receive(s, t, w);
      }
    }
    assert WorkerStep(c, s, t, w);
  }

  lemma StmtCanMove(c: Conf, s: State) returns (t: State)
    requires Inv(c, s) && HoldsStmt(c, s)
    ensures Peaceful(c, s, t)
  {
    if s.region != DataRegion {
      t := s.(batch := s.batch + [s.pos], pos := s.pos + 1, phase := Reading);
      assert QueueInsert(c, s, t);
    } else if !s.senderOpen || s.closed {
      t := s.(phase := Closing);
      assert ForwardFails(c, s, t);
    } else if |s.queue| < Capacity(c) {
      t := s.(queue := s.queue + [s.pos], pos := s.pos + 1, phase := Reading);
      assert Forward(c, s, t);
    } else {
      assert s.workers[0] != Exited;
      t := WorkerCanMove(c, s, 0);
    }
  }

  lemma MarkerCanMove(c: Conf, s: State) returns (t: State)
    requires s.phase == Acting && s.pos < |c.items| && c.items[s.pos].Marker?
    ensures Peaceful(c, s, t)
  {
    if s.batch != [] {
      t := s.(log := s.log + Own(s.batch), batch := []);
      assert Flush(s, t);
    } else {
      var next := RegionOf(c.items[s.pos].kind);
      t := if s.region == DataRegion && next != DataRegion
           then s.(pos := s.pos + 1, senderOpen := false, phase := Joining(next))
           else s.(pos := s.pos + 1, region := next, phase := Reading);
      assert TakeMarker(c, s, t);
    }
  }

  lemma JoinCanMove(c: Conf, s: State) returns (t: State)
    requires !s.senderOpen && (s.phase.Joining? || s.phase == Draining)
    ensures Peaceful(c, s, t)
  {
    if w :| 0 <= w < |s.workers| && s.workers[w] != Exited {
      t := WorkerCanMove(c, s, w);
    } else if s.phase.Joining? {
      t := s.(region := s.phase.next, phase := Reading);
      assert Barrier(s, t);
    } else {
      t := s.(phase := Finished);
      assert LastJoin(s, t);
    }
  }

  lemma CloseCanMove(c: Conf, s: State) returns (t: State)
    requires s.phase == Closing
    ensures Peaceful(c, s, t)
  {
    if s.abort || s.batch == [] {
      t := s.(senderOpen := false, batch := [], lost := s.lost + multiset(s.batch), phase := Draining);
      assert Close(s, t);
    } else {
      t := s.(log := s.log + Own(s.batch), batch := []);
      assert Flush(s, t);
    }
  }

  /** In every state the invariant allows, short of the end, somebody can move without giving anything up. */
  lemma CanMove(c: Conf, s: State) returns (t: State)
    requires Inv(c, s) && HasItem(c, s) && s.phase != Finished
    ensures Peaceful(c, s, t)
  {
    match s.phase
    case Reading =>
      t := s.(phase := if s.pos < |c.items| && !s.abort && !s.stop then Acting else Closing);
      assert Check(c, s, t);
    case Acting =>
      if c.items[s.pos].Marker? {
        t := MarkerCanMove(c, s);
      } else {
        t := StmtCanMove(c, s);
      }
    case Closing =>
      t := CloseCanMove(c, s);
    case _ =>
      t := JoinCanMove(c, s);
  }

  /** No deadlock: in every run the parties can move until the import has finished. */
  lemma NoDeadlock(c: Conf, run: seq<State>, i: nat) returns (t: State)
    requires IsRun(c, run) && c.workers > 0 && i < |run| && run[i].phase != Finished
    ensures Moves(c, run[i], t)
  {
    RunHasItem(c, run, i);
    t := CanMove(c, run[i]);
  }

  // ------------------------------------------------------------- nobody goes on for ever

  function WorkerLeft(w: Worker): nat {
    match w
    case Exited => 0
    case Idle => 1
    case Busy(_) => 2
  }

  function PoolLeft(ws: seq<Worker>): nat {
    if ws == [] then 0 else WorkerLeft(ws[0]) + PoolLeft(ws[1..])
  }

  function PhaseLeft(p: Phase): nat {
    match p
    case Finished => 0
    case Draining => 1
    case Closing => 2
    case Acting => 3
    case Reading => 4
    case Joining(_) => 5
  }

  /** A bound on the steps that are left, whoever takes them. */
  function StepsLeft(c: Conf, s: State): nat {
    8 * (if s.pos < |c.items| then |c.items| - s.pos else 0)
      + PhaseLeft(s.phase) + 3 * |s.queue| + |s.batch| + PoolLeft(s.workers)
  }

  lemma {:induction false} PoolUpdate(ws: seq<Worker>, w: nat, v: Worker)
    requires w < |ws|
    ensures PoolLeft(ws[w := v]) + WorkerLeft(ws[w]) == PoolLeft(ws) + WorkerLeft(v)
  {
    if w == 0 {
      assert ws[w := v][1..] == ws[1..];
    } else {
      assert ws[w := v][1..] == ws[1..][w - 1 := v];
      PoolUpdate(ws[1..], w - 1, v);
    }
  }

  lemma ItemTaken(c: Conf, s: State, t: State)
    requires TakesItem(c, s, t)
    ensures s.pos < |c.items| && t.pos == s.pos + 1 && t.workers == s.workers && s.phase == Acting
    ensures 3 * |t.queue| + |t.batch| <= 3 * |s.queue| + |s.batch| + 3
  {
    hide Own, PoolLeft, Capacity;
  }

  lemma ItemSpends(c: Conf, s: State, t: State)
    requires TakesItem(c, s, t)
    ensures StepsLeft(c, t) < StepsLeft(c, s)
  {
    hide TakesItem, PoolLeft;
    ItemTaken(c, s, t);
  }

  lemma BatchSpends(c: Conf, s: State, t: State)
    requires Flush(s, t) || FlushFails(c, s, t)
    ensures StepsLeft(c, t) < StepsLeft(c, s)
  {
    hide Own, PoolLeft, Capacity;
  }

  lemma PhaseSpends(c: Conf, s: State, t: State)
    requires Check(c, s, t) || Barrier(s, t) || ForwardFails(c, s, t) || Close(s, t) || LastJoin(s, t)
    ensures StepsLeft(c, t) < StepsLeft(c, s)
  {
    hide Own, PoolLeft, Capacity;
  }

  lemma CoordinatorSpends(c: Conf, s: State, t: State)
    requires CoordinatorStep(c, s, t)
    ensures StepsLeft(c, t) < StepsLeft(c, s)
  {
    hide StepsLeft, Check, Flush, FlushFails, TakeMarker, Barrier, Forward, ForwardFails, QueueInsert, RunInline,
         RunInlineFails, Close, LastJoin;
    if TakesItem(c, s, t) {
      ItemSpends(c, s, t);
    } else if Flush(s, t) || FlushFails(c, s, t) {
      BatchSpends(c, s, t);
    } else {
      PhaseSpends(c, s, t);
    }
  }

  lemma WorkerTakes(c: Conf, s: State, t: State, w: nat)
    requires WorkerStep(c, s, t, w)
    ensures w < |s.workers| == |t.workers| && t.workers == s.workers[w := t.workers[w]]
    ensures t.pos == s.pos && t.phase == s.phase && t.batch == s.batch
    ensures 3 * |t.queue| + WorkerLeft(t.workers[w]) < 3 * |s.queue| + WorkerLeft(s.workers[w])
  {
  }

  lemma WorkerSpends(c: Conf, s: State, t: State, w: nat)
    requires WorkerStep(c, s, t, w)
    ensures StepsLeft(c, t) < StepsLeft(c, s)
  {
    hide WorkerStep, PoolLeft, WorkerLeft;
    WorkerTakes(c, s, t, w);
    PoolUpdate(s.workers, w, t.workers[w]);
  }

  lemma StopSpends(c: Conf, s: State, t: State)
    requires UserStops(s, t)
    ensures StepsLeft(c, t) == StepsLeft(c, s)
  {
  }

  /** Every step of coordinator or worker uses up at least one of the steps left; the user's stop uses up none. */
  lemma MoveSpends(c: Conf, s: State, t: State)
    requires Moves(c, s, t)
    ensures StepsLeft(c, t) < StepsLeft(c, s)
  {
    hide StepsLeft, CoordinatorStep, WorkerStep;
    if CoordinatorStep(c, s, t) {
      CoordinatorSpends(c, s, t);
    } else {
      var w: nat :| WorkerStep(c, s, t, w);
      WorkerSpends(c, s, t, w);
    }
  }

  /** How many steps of a run were moves of the coordinator or a worker. */
  ghost function MovesIn(c: Conf, run: seq<State>, i: nat): nat
    requires i < |run|
  {
    if i == 0 then 0 else MovesIn(c, run, i - 1) + if Moves(c, run[i - 1], run[i]) then 1 else 0
  }

  lemma NextSpends(c: Conf, s: State, t: State)
    requires Next(c, s, t)
    ensures StepsLeft(c, t) + (if Moves(c, s, t) then 1 else 0) <= StepsLeft(c, s)
  {
    hide StepsLeft, CoordinatorStep, WorkerStep, UserStops;
    if Moves(c, s, t) {
      MoveSpends(c, s, t);
    } else {
      StopSpends(c, s, t);
    }
  }

  lemma {:induction false} IdleFull(ws: seq<Worker>)
    requires forall w :: 0 <= w < |ws| ==> ws[w] == Idle
    ensures PoolLeft(ws) == |ws|
  {
    if ws != [] {
      IdleFull(ws[1..]);
    }
  }

  lemma {:induction false} MovesBounded(c: Conf, run: seq<State>, i: nat)
    requires IsRun(c, run) && i < |run|
    ensures MovesIn(c, run, i) + StepsLeft(c, run[i]) <= 8 * |c.items| + 4 + c.workers
  {
    hide StepsLeft, Moves;
    if i == 0 {
      StartsWith(c, run[0]);
    } else {
      MovesBounded(c, run, i - 1);
      assert Next(c, run[i - 1], run[i - 1 + 1]);
      NextSpends(c, run[i - 1], run[i]);
    }
  }

  lemma StartsWith(c: Conf, s: State)
    requires Init(c, s)
    ensures StepsLeft(c, s) == 8 * |c.items| + 4 + c.workers
  {
    IdleFull(s.workers);
  }

  /**
    Every import ends: no run has more moves than eight for each item, one for each
    worker and four, and one in which nobody can move any more has finished.
  */
  lemma ImportEnds(c: Conf, run: seq<State>, i: nat)
    requires IsRun(c, run) && c.workers > 0 && i < |run|
    ensures MovesIn(c, run, i) <= 8 * |c.items| + 4 + c.workers
    ensures (forall t :: !Moves(c, run[i], t)) ==> run[i].phase == Finished
  {
    MovesBounded(c, run, i);
    if run[i].phase != Finished {
      var t := NoDeadlock(c, run, i);
    }
  }

  // --------------------------------------------------------------- runs that end well

  /** A run that nobody has aborted or stopped can be carried on to a clean end. */
  lemma {:induction false} EndsCleanly(c: Conf, run: seq<State>) returns (longer: seq<State>)
    requires IsRun(c, run) && c.workers > 0
    requires !run[|run| - 1].abort && !run[|run| - 1].stop
    ensures IsRun(c, longer) && run <= longer && CleanEnd(longer[|longer| - 1])
    decreases StepsLeft(c, run[|run| - 1])
  {
    var s := run[|run| - 1];
    if s.phase == Finished {
      longer := run;
    } else {
      RunHasItem(c, run, |run| - 1);
      var t := CanMove(c, s);
      MoveSpends(c, s, t);
      Extended(c, run, t);
      longer := EndsCleanly(c, run + [t]);
    }
  }

  lemma Extended(c: Conf, run: seq<State>, t: State)
    requires IsRun(c, run) && Moves(c, run[|run| - 1], t)
    ensures IsRun(c, run + [t])
  {
    hide CoordinatorStep, WorkerStep, Init;
    var all := run + [t];
    forall i | 0 <= i < |all| - 1 ensures Next(c, all[i], all[i + 1]) {
      if i < |run| - 1 {
        assert Next(c, run[i], run[i + 1]);
      }
    }
  }

  function Start(c: Conf): State {
    State(0, Header, Reading, true, false, [], seq(c.workers, w requires 0 <= w < c.workers => Idle), [],
          false, false, [], multiset{})
  }

  /**
    The silent loss is real: every stream with a second data run has an import that
    ends without error, abort or stop and has left a statement of it out.
  */
  lemma LosesSilently(c: Conf) returns (run: seq<State>, d: nat)
    requires c.workers > 0 && !SingleRun(c.items)
    ensures IsRun(c, run) && CleanEnd(run[|run| - 1])
    ensures d < |c.items| && c.items[d].Stmt? && Ran(run[|run| - 1].log, d) == 0
  {
    assert Init(c, Start(c));
    run := EndsCleanly(c, [Start(c)]);
    StopsAtSecondRun(c, run, |run| - 1);
    CompleteIffSingleRun(c, run, |run| - 1);
    d :| d < |c.items| && c.items[d].Stmt? && Ran(run[|run| - 1].log, d) != 1;
  }

  const TWO_TABLES: seq<Splitter.Item> := [
    Splitter.Marker(Splitter.Table), Splitter.Marker(Splitter.Data), Splitter.Stmt("a"),
    Splitter.Marker(Splitter.Table), Splitter.Marker(Splitter.Data), Splitter.Stmt("b")]

  /** Such as the stream of a dump of two tables with a row each. */
  lemma TwoTables()
    ensures !SingleRun(TWO_TABLES)
  {
    var items := TWO_TABLES;
    assert RegionAt(items, 3) == DataRegion && RegionAt(items, 4) == Ddl && RegionAt(items, 5) == DataRegion;
    assert LeftData(items, 4);
    assert InSecondRun(items, 5);
  }
}
