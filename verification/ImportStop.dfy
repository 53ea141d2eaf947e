/**
  What a stop request or a fatal error leaves of a parallel import
  (`run_streaming_import`, src-tauri/src/sql_import.rs): nothing new is begun, and
  what is under way is bounded by the workers, the pending batch and one item.
*/
module ImportStop {
  import opened Text
  import opened ParallelImport

  /** The user has asked to stop, or a statement has failed for good. */
  predicate Halted(s: State) {
    s.stop || s.abort
  }

  function BusyIn(ws: seq<Worker>): nat {
    if ws == [] then 0 else (if ws[0].Busy? then 1 else 0) + BusyIn(ws[1..])
  }

  /** What is under way: the statements workers hold, the pending batch, the item past the check. */
  function UnderWay(s: State): nat {
    BusyIn(s.workers) + |s.batch| + if s.phase == Acting then 1 else 0
  }

  /** The item the coordinator will have read when it next looks up. */
  function Reach(s: State): nat {
    s.pos + if s.phase == Acting then 1 else 0
  }

  lemma {:induction false} BusyUpdate(ws: seq<Worker>, w: nat, v: Worker)
    requires w < |ws|
    ensures BusyIn(ws[w := v]) + (if ws[w].Busy? then 1 else 0) == BusyIn(ws) + if v.Busy? then 1 else 0
  {
    if w == 0 {
      assert ws[w := v][1..] == ws[1..];
    } else {
      assert ws[w := v][1..] == ws[1..][w - 1 := v];
      BusyUpdate(ws[1..], w - 1, v);
    }
  }

  /** A step that uses up no more than is under way, and begins nothing. */
  predicate Settles(s: State, t: State) {
    && |t.log| + UnderWay(t) <= |s.log| + UnderWay(s)
    && Reach(t) <= Reach(s)
    && (s.stop ==> t.stop) && (s.abort ==> t.abort)
  }

  lemma BatchSettles(c: Conf, s: State, t: State)
    requires Flush(s, t) || FlushFails(c, s, t) || Close(s, t)
    ensures Settles(s, t)
  {
    hide BusyIn;
    if FlushFails(c, s, t) {
      var k :| 0 < k <= |s.batch| && t == FlushFailed(s, k);
    }
  }

  lemma ItemSettles(c: Conf, s: State, t: State)
    requires TakeMarker(c, s, t) || Forward(c, s, t) || QueueInsert(c, s, t)
          || RunInline(c, s, t) || RunInlineFails(c, s, t) || ForwardFails(c, s, t)
    ensures Settles(s, t)
  {
    hide BusyIn, Capacity;
  }

  lemma PhaseSettles(c: Conf, s: State, t: State)
    requires Halted(s) && (Check(c, s, t) || Barrier(s, t) || LastJoin(s, t) || UserStops(s, t))
    ensures Settles(s, t)
  {
    hide BusyIn;
  }

  lemma WorkerSettles(c: Conf, s: State, t: State, w: nat)
    requires Halted(s) && WorkerStep(c, s, t, w)
    ensures Settles(s, t)
  {
    BusyUpdate(s.workers, w, t.workers[w]);
    hide BusyIn;
  }

  lemma StepSettles(c: Conf, s: State, t: State)
    requires Halted(s) && Next(c, s, t)
    ensures Settles(s, t)
  {
    hide Settles, Check, Flush, FlushFails, TakeMarker, Barrier, Forward, ForwardFails, QueueInsert, RunInline,
         RunInlineFails, Close, LastJoin, UserStops, WorkerStep, Halted;
    if Flush(s, t) || FlushFails(c, s, t) || Close(s, t) {
      BatchSettles(c, s, t);
    } else if TakeMarker(c, s, t) || Forward(c, s, t) || QueueInsert(c, s, t)
              || RunInline(c, s, t) || RunInlineFails(c, s, t) || ForwardFails(c, s, t) {
      ItemSettles(c, s, t);
    } else if Check(c, s, t) || Barrier(s, t) || LastJoin(s, t) || UserStops(s, t) {
      PhaseSettles(c, s, t);
    } else {
      var w: nat :| WorkerStep(c, s, t, w);
      WorkerSettles(c, s, t, w);
    }
  }

  lemma {:induction false} BusyAtMost(ws: seq<Worker>)
    ensures BusyIn(ws) <= |ws|
  {
    if ws != [] {
      BusyAtMost(ws[1..]);
    }
  }

  lemma RunStep(c: Conf, run: seq<State>, i: nat)
    requires IsRun(c, run) && i + 1 < |run|
    ensures Next(c, run[i], run[i + 1])
  {
  }

  lemma SettledBy(s: State, t: State)
    requires Settles(s, t)
    ensures |t.log| + UnderWay(t) <= |s.log| + UnderWay(s) && Reach(t) <= Reach(s)
    ensures Halted(s) ==> Halted(t)
  {
  }

  lemma {:induction false} HaltSettles(c: Conf, run: seq<State>, i: nat, j: nat)
    requires IsRun(c, run) && i <= j < |run| && Halted(run[i])
    ensures Halted(run[j]) && |run[j].log| + UnderWay(run[j]) <= |run[i].log| + UnderWay(run[i])
    ensures Reach(run[j]) <= Reach(run[i])
    decreases j
  {
    hide UnderWay, Reach, Next, IsRun, Settles, Halted;
    if i < j {
      HaltSettles(c, run, i, j - 1);
      RunStep(c, run, j - 1);
      StepSettles(c, run[j - 1], run[j]);
      SettledBy(run[j - 1], run[j]);
    }
  }

  /**
    From a stop or a fatal error on, in whatever way the run goes on: at most one more
    item is read, and no more statements are executed than the workers hold, the batch
    holds, and that one item.
  */
  lemma HaltIsPrompt(c: Conf, run: seq<State>, i: nat, j: nat)
    requires IsRun(c, run) && c.workers > 0 && i <= j < |run| && Halted(run[i])
    ensures run[j].pos <= run[i].pos + 1
    ensures |run[j].log| <= |run[i].log| + c.workers + |run[i].batch| + 1
  {
    RunInv(c, run, i);
    HaltSettles(c, run, i, j);
    BusyAtMost(run[i].workers);
  }

  lemma ForwardFills(c: Conf, s: State, t: State)
    requires Forward(c, s, t)
    ensures |t.queue| <= Capacity(c)
  {
  }

  lemma OthersKeepQueue(c: Conf, s: State, t: State)
    requires Check(c, s, t) || Flush(s, t) || FlushFails(c, s, t) || TakeMarker(c, s, t) || Barrier(s, t)
          || ForwardFails(c, s, t) || QueueInsert(c, s, t) || RunInline(c, s, t) || RunInlineFails(c, s, t)
          || Close(s, t) || LastJoin(s, t) || UserStops(s, t)
    ensures t.queue == s.queue
  {
    hide Own, RegionOf;
  }

  lemma WorkerTakes(c: Conf, s: State, t: State, w: nat)
    requires WorkerStep(c, s, t, w)
    ensures |t.queue| <= |s.queue|
  {
  }

  lemma QueueStep(c: Conf, s: State, t: State)
    requires Next(c, s, t)
    ensures |t.queue| <= |s.queue| || |t.queue| <= Capacity(c)
  {
    hide Check, Flush, FlushFails, TakeMarker, Barrier, Forward, ForwardFails, QueueInsert, RunInline,
         RunInlineFails, Close, LastJoin, UserStops, WorkerStep, Capacity;
    if Forward(c, s, t) {
      ForwardFills(c, s, t);
    } else if CoordinatorStep(c, s, t) || UserStops(s, t) {
      OthersKeepQueue(c, s, t);
    } else {
      var w: nat :| WorkerStep(c, s, t, w);
      WorkerTakes(c, s, t, w);
    }
  }

  /** The data queue never holds more than four statements a worker. */
  lemma {:induction false} QueueBounded(c: Conf, run: seq<State>, i: nat)
    requires IsRun(c, run) && c.workers > 0 && i < |run|
    ensures |run[i].queue| <= 4 * c.workers
  {
    if i > 0 {
      QueueBounded(c, run, i - 1);
      RunStep(c, run, i - 1);
      hide Next, IsRun;
      QueueStep(c, run[i - 1], run[i]);
    }
  }
}
