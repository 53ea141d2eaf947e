/**
  The parallel data phase of the importer (`run_streaming_import`,
  src-tauri/src/sql_import.rs) as a transition system: one coordinator that reads
  the item stream, a bounded queue, K workers, the abort and stop flags. A
  statement is named by its position in the stream; `log` records who ran what.
*/
module ParallelImport {
  import opened Text
  import opened Splitter

  datatype Region = Header | Ddl | DataRegion | IndexRegion | FooterRegion

  function RegionOf(k: Kind): Region {
    match k
    case Dump => Header
    case Table => Ddl
    case Data => DataRegion
    case Indexes => IndexRegion
    case Footer => FooterRegion
  }

  datatype Worker = Idle | Busy(idx: nat) | Exited

  datatype Place = Coordinator | ByWorker(w: nat)

  /** One executed statement. */
  datatype Entry = Entry(idx: nat, who: Place)

  /**
    Where the coordinator is: before the check of an item, past it, in the barrier, past
    the loop, in the last join, done.
  */
  datatype Phase = Reading | Acting | Joining(next: Region) | Closing | Draining | Finished

  datatype Conf = Conf(items: seq<Item>, workers: nat, continueOnError: bool)

  datatype State = State(
    pos: nat,
    region: Region,
    phase: Phase,
    senderOpen: bool,
    closed: bool,
    queue: seq<nat>,
    workers: seq<Worker>,
    batch: seq<nat>,
    abort: bool,
    stop: bool,
    log: seq<Entry>,
    lost: multiset<nat>)

  function Capacity(c: Conf): nat {
    4 * if c.workers > 1 then c.workers else 1
  }

  ghost predicate Init(c: Conf, s: State) {
    && s.pos == 0 && s.region == Header && s.phase == Reading
    && s.senderOpen && !s.closed && s.queue == [] && s.batch == []
    && |s.workers| == c.workers && (forall w :: 0 <= w < |s.workers| ==> s.workers[w] == Idle)
    && !s.abort && !s.stop && s.log == [] && s.lost == multiset{}
  }

  // ------------------------------------------------------------- coordinator steps

  predicate AllExited(ws: seq<Worker>) {
    forall w :: 0 <= w < |ws| ==> ws[w] == Exited
  }

  /** The entries of a run of statements the coordinator executed itself. */
  function Own(idxs: seq<nat>): seq<Entry> {
    seq(|idxs|, k requires 0 <= k < |idxs| => Entry(idxs[k], Coordinator))
  }

  predicate Check(c: Conf, s: State, t: State) {
    && s.phase == Reading
    && t == s.(phase := if s.pos < |c.items| && !s.abort && !s.stop then Acting else Closing)
  }

  predicate CanFlush(s: State) {
    (s.phase == Acting || (s.phase == Closing && !s.abort)) && s.batch != []
  }

  /** The batch is committed, every statement of it executed. */
  predicate Flush(s: State, t: State) {
    && CanFlush(s)
    && t == s.(log := s.log + Own(s.batch), batch := [])
  }

  function FlushFailed(s: State, k: nat): State
    requires k <= |s.batch|
  {
    s.(log := s.log + Own(s.batch[..k]), batch := [], lost := s.lost + multiset(s.batch[k..]),
       abort := true, phase := Closing)
  }

  /** The batch stops at a failing statement: the ones after it are dropped and the import gives up. */
  predicate FlushFails(c: Conf, s: State, t: State) {
    && CanFlush(s) && !c.continueOnError
    && exists k :: 0 < k <= |s.batch|
         && t == FlushFailed(s, k)
  }

  /** A marker; the first one that leaves the data region drops the sender and waits for the pool. */
  predicate TakeMarker(c: Conf, s: State, t: State) {
    && s.phase == Acting && s.pos < |c.items| && c.items[s.pos].Marker? && s.batch == []
    && var next := RegionOf(c.items[s.pos].kind);
      t == if s.region == DataRegion && next != DataRegion
           then s.(pos := s.pos + 1, senderOpen := false, phase := Joining(next))
           else s.(pos := s.pos + 1, region := next, phase := Reading)
  }

  predicate Barrier(s: State, t: State) {
    && s.phase.Joining? && AllExited(s.workers)
    && t == s.(region := s.phase.next, phase := Reading)
  }

  predicate HoldsStmt(c: Conf, s: State) {
    s.phase == Acting && s.pos < |c.items| && c.items[s.pos].Stmt?
  }

  predicate Forward(c: Conf, s: State, t: State) {
    && HoldsStmt(c, s) && s.region == DataRegion
    && s.senderOpen && !s.closed && |s.queue| < Capacity(c)
    && t == s.(queue := s.queue + [s.pos], pos := s.pos + 1, phase := Reading)
  }

  /** A data statement that finds the sender gone or the channel closed ends the loop. */
  predicate ForwardFails(c: Conf, s: State, t: State) {
    && HoldsStmt(c, s) && s.region == DataRegion
    && (!s.senderOpen || s.closed)
    && t == s.(phase := Closing)
  }

  predicate QueueInsert(c: Conf, s: State, t: State) {
    && HoldsStmt(c, s) && s.region != DataRegion
    && t == s.(batch := s.batch + [s.pos], pos := s.pos + 1, phase := Reading)
  }

  predicate RunInline(c: Conf, s: State, t: State) {
    && HoldsStmt(c, s) && s.region != DataRegion && s.batch == []
    && t == s.(log := s.log + Own([s.pos]), pos := s.pos + 1, phase := Reading)
  }

  predicate RunInlineFails(c: Conf, s: State, t: State) {
    && HoldsStmt(c, s) && s.region != DataRegion && s.batch == [] && !c.continueOnError
    && t == s.(log := s.log + Own([s.pos]), pos := s.pos + 1, abort := true, phase := Closing)
  }

  /** After the loop and the trailing flush: drop the sender, then wait for the pool. */
  predicate Close(s: State, t: State) {
    && s.phase == Closing && (s.abort || s.batch == [])
    && t == s.(senderOpen := false, batch := [], lost := s.lost + multiset(s.batch), phase := Draining)
  }

  predicate LastJoin(s: State, t: State) {
    && s.phase == Draining && AllExited(s.workers)
    && t == s.(phase := Finished)
  }

  // ------------------------------------------------------------------ worker steps

  predicate Receive(s: State, t: State, w: nat) {
    && w < |s.workers| && s.workers[w] == Idle && s.queue != []
    && t == if s.abort || s.stop
            then s.(queue := s.queue[1..], workers := s.workers[w := Exited], closed := true,
                    lost := s.lost + multiset{s.queue[0]})
            else s.(queue := s.queue[1..], workers := s.workers[w := Busy(s.queue[0])])
  }

  predicate Complete(s: State, t: State, w: nat) {
    && w < |s.workers| && s.workers[w].Busy?
    && t == s.(log := s.log + [Entry(s.workers[w].idx, ByWorker(w))], workers := s.workers[w := Idle])
  }

  predicate CompleteFails(c: Conf, s: State, t: State, w: nat) {
    && w < |s.workers| && s.workers[w].Busy? && !c.continueOnError
    && t == s.(log := s.log + [Entry(s.workers[w].idx, ByWorker(w))], workers := s.workers[w := Exited],
               abort := true, closed := true)
  }

  predicate Quit(s: State, t: State, w: nat) {
    && w < |s.workers| && s.workers[w] == Idle && s.queue == [] && (s.closed || !s.senderOpen)
    && t == s.(workers := s.workers[w := Exited])
  }

  predicate UserStops(s: State, t: State) {
    t == s.(stop := true)
  }

  ghost predicate CoordinatorStep(c: Conf, s: State, t: State) {
    || Check(c, s, t) || Flush(s, t) || FlushFails(c, s, t) || TakeMarker(c, s, t) || Barrier(s, t)
    || Forward(c, s, t) || ForwardFails(c, s, t) || QueueInsert(c, s, t)
    || RunInline(c, s, t) || RunInlineFails(c, s, t) || Close(s, t) || LastJoin(s, t)
  }

  ghost predicate WorkerStep(c: Conf, s: State, t: State, w: nat) {
    Receive(s, t, w) || Complete(s, t, w) || CompleteFails(c, s, t, w) || Quit(s, t, w)
  }

  ghost predicate Next(c: Conf, s: State, t: State) {
    CoordinatorStep(c, s, t) || UserStops(s, t) || exists w: nat :: WorkerStep(c, s, t, w)
  }

  /** A run: any interleaving of coordinator, workers and the user. */
  ghost predicate IsRun(c: Conf, run: seq<State>) {
    && run != [] && Init(c, run[0])
    && forall i :: 0 <= i < |run| - 1 ==> Next(c, run[i], run[i + 1])
  }

  // ------------------------------------------------------------------ what holds

  function InFlight(ws: seq<Worker>, d: nat): nat {
    if ws == [] then 0 else (if ws[0] == Busy(d) then 1 else 0) + InFlight(ws[1..], d)
  }

  /** How often a statement was executed. */
  function Ran(log: seq<Entry>, d: nat): nat {
    if log == [] then 0
    else Ran(log[..|log| - 1], d) + if log[|log| - 1].idx == d then 1 else 0
  }

  /** How often the state accounts for a statement: queued, in flight, executed, batched, dropped. */
  function Count(s: State, d: nat): nat {
    multiset(s.queue)[d] + InFlight(s.workers, d) + Ran(s.log, d) + multiset(s.batch)[d] + s.lost[d]
  }

  function Once(c: Conf, pos: nat, d: nat): nat {
    if d < pos && d < |c.items| && c.items[d].Stmt? then 1 else 0
  }

  /** Nobody holds a data statement. */
  predicate Quiet(s: State) {
    s.queue == [] && forall w :: 0 <= w < |s.workers| ==> !s.workers[w].Busy?
  }

  /** Conservation: every statement read is in exactly one place. */
  ghost predicate Conserved(c: Conf, s: State)
    requires s.pos <= |c.items|
  {
    forall d: nat :: Count(s, d) == Once(c, s.pos, d)
  }

  predicate InLoop(s: State) {
    s.phase == Reading || s.phase == Acting
  }

  /** Outside the data region nobody holds a data statement once the item has passed the check. */
  predicate Separated(s: State) {
    && (s.region != DataRegion && s.senderOpen ==> Quiet(s))
    && (InLoop(s) && !s.senderOpen ==> AllExited(s.workers))
    && (s.phase == Acting && s.region != DataRegion ==> Quiet(s) && !s.abort)
    && ((s.phase == Draining || s.phase == Finished) ==> !s.senderOpen && s.batch == [])
    && (s.phase == Finished ==> AllExited(s.workers))
    && (s.phase.Joining? ==> s.region == DataRegion && !s.senderOpen)
    && (s.batch != [] ==> Quiet(s) && s.region != DataRegion)
    && (s.closed ==> s.abort || s.stop)
    && (AllExited(s.workers) && s.queue != [] ==> s.abort || s.stop)
    && (forall w :: 0 <= w < |s.workers| && s.workers[w] == Exited ==> s.closed || !s.senderOpen)
    && (s.lost != multiset{} ==> s.abort || s.stop)
    && (s.abort ==> s.batch == [])
  }

  /** The log is in source order, except between two data statements. */
  predicate InOrder(log: seq<Entry>) {
    forall p, q :: 0 <= p < q < |log| && (log[p].who == Coordinator || log[q].who == Coordinator)
      ==> log[p].idx < log[q].idx
  }

  /** The region in force before item `n`. */
  function RegionAt(items: seq<Item>, n: nat): Region
    requires n <= |items|
  {
    if n == 0 then Header
    else if items[n - 1].Marker? then RegionOf(items[n - 1].kind)
    else RegionAt(items, n - 1)
  }

  /** Some marker among the first `n` items left the data region. */
  predicate LeftData(items: seq<Item>, n: nat)
    requires n <= |items|
  {
    n > 0 && (LeftData(items, n - 1)
              || (RegionAt(items, n - 1) == DataRegion && RegionAt(items, n) != DataRegion))
  }

  predicate EntryOk(c: Conf, pos: nat, e: Entry)
    requires pos <= |c.items|
  {
    e.idx < pos && (e.who == Coordinator <==> RegionAt(c.items, e.idx) != DataRegion)
  }

  /** A forwarded statement lies past everything the coordinator has executed. */
  predicate HeldOk(c: Conf, pos: nat, log: seq<Entry>, d: nat)
    requires pos <= |c.items|
  {
    && d < pos && RegionAt(c.items, d) == DataRegion
    && forall p :: 0 <= p < |log| && log[p].who == Coordinator ==> log[p].idx < d
  }

  /** A batched statement lies past everything executed. */
  predicate BatchOk(c: Conf, pos: nat, log: seq<Entry>, b: nat)
    requires pos <= |c.items|
  {
    && b < pos && RegionAt(c.items, b) != DataRegion
    && forall p :: 0 <= p < |log| ==> log[p].idx < b
  }

  predicate Ordered(c: Conf, s: State)
    requires s.pos <= |c.items|
  {
    && InOrder(s.log)
    && (forall p :: 0 <= p < |s.log| ==> EntryOk(c, s.pos, s.log[p]))
    && (forall k :: 0 <= k < |s.queue| ==> HeldOk(c, s.pos, s.log, s.queue[k]))
    && (forall w :: 0 <= w < |s.workers| && s.workers[w].Busy? ==> HeldOk(c, s.pos, s.log, s.workers[w].idx))
    && (forall k :: 0 <= k < |s.batch| ==> BatchOk(c, s.pos, s.log, s.batch[k]))
    && (forall i, j :: 0 <= i < j < |s.batch| ==> s.batch[i] < s.batch[j])
  }

  /** The coordinator's idea of the stream is the stream's. */
  predicate Tracks(c: Conf, s: State)
    requires s.pos <= |c.items|
  {
    && (InLoop(s) ==> s.region == RegionAt(c.items, s.pos) && s.senderOpen == !LeftData(c.items, s.pos))
    && (s.phase.Joining? ==> s.phase.next == RegionAt(c.items, s.pos) && LeftData(c.items, s.pos))
  }

  ghost predicate Inv(c: Conf, s: State) {
    && |s.workers| == c.workers && c.workers > 0 && s.pos <= |c.items|
    && Conserved(c, s) && Separated(s) && Ordered(c, s) && Tracks(c, s)
  }

  lemma {:induction false} InFlightUpdate(ws: seq<Worker>, w: nat, v: Worker, d: nat)
    requires w < |ws|
    ensures InFlight(ws[w := v], d) + (if ws[w] == Busy(d) then 1 else 0)
         == InFlight(ws, d) + (if v == Busy(d) then 1 else 0)
  {
    if w == 0 {
      assert ws[w := v][1..] == ws[1..];
    } else {
      assert ws[w := v][1..] == ws[1..][w - 1 := v];
      InFlightUpdate(ws[1..], w - 1, v, d);
    }
  }

  lemma {:induction false} NothingInFlight(ws: seq<Worker>, d: nat)
    requires forall w :: 0 <= w < |ws| ==> !ws[w].Busy?
    ensures InFlight(ws, d) == 0
  {
    if ws != [] {
      NothingInFlight(ws[1..], d);
    }
  }

  lemma {:induction false} RanAppend(log: seq<Entry>, idxs: seq<nat>, d: nat)
    ensures Ran(log + Own(idxs), d) == Ran(log, d) + multiset(idxs)[d]
  {
    if idxs == [] {
      assert log + Own(idxs) == log;
    } else {
      var n := |idxs| - 1;
      var all := log + Own(idxs);
      assert all[..|all| - 1] == log + Own(idxs[..n]);
      RanAppend(log, idxs[..n], d);
      assert idxs == idxs[..n] + [idxs[n]];
    }
  }

  lemma RanOne(log: seq<Entry>, e: Entry, d: nat)
    ensures Ran(log + [e], d) == Ran(log, d) + if e.idx == d then 1 else 0
  {
    var all := log + [e];
    assert all[..|all| - 1] == log;
  }

  // ------------------------------------------------------------ every step keeps it

  lemma InitInv(c: Conf, s: State)
    requires Init(c, s) && c.workers > 0
    ensures Inv(c, s)
  {
    forall d: nat ensures Count(s, d) == 0 {
      NothingInFlight(s.workers, d);
    }
  }

  lemma FlushFailsConserves(c: Conf, s: State, t: State)
    requires s.pos <= |c.items| && Conserved(c, s) && FlushFails(c, s, t)
    ensures Conserved(c, t)
  {
    hide Own, Ran, InFlight;
    var k :| 0 < k <= |s.batch| && t == FlushFailed(s, k);
    forall d: nat ensures Count(t, d) == Once(c, t.pos, d) {
      assert Count(s, d) == Once(c, s.pos, d);
      assert s.batch == s.batch[..k] + s.batch[k..];
      RanAppend(s.log, s.batch[..k], d);
    }
  }

  lemma RunsConserve(c: Conf, s: State, t: State)
    requires s.pos <= |c.items| && Conserved(c, s)
    requires Flush(s, t) || RunInline(c, s, t) || RunInlineFails(c, s, t)
    ensures t.pos <= |c.items| && Conserved(c, t)
  {
    hide Own, Ran, InFlight;
    forall d: nat ensures Count(t, d) == Once(c, t.pos, d) {
      assert Count(s, d) == Once(c, s.pos, d);
      if Flush(s, t) {
        RanAppend(s.log, s.batch, d);
      } else {
        RanAppend(s.log, [s.pos], d);
      }
    }
  }

  lemma AddsConserve(c: Conf, s: State, t: State)
    requires s.pos <= |c.items| && Conserved(c, s)
    requires Forward(c, s, t) || QueueInsert(c, s, t)
    ensures Conserved(c, t)
  {
    hide Ran, InFlight;
    forall d: nat ensures Count(t, d) == Once(c, t.pos, d) {
      assert Count(s, d) == Once(c, s.pos, d);
    }
  }

  /** Steps that only change control keep the account. */
  lemma ControlConserves(c: Conf, s: State, t: State)
    requires s.pos <= |c.items| && Conserved(c, s)
    requires t.queue == s.queue && t.workers == s.workers && t.log == s.log && t.batch == s.batch && t.lost == s.lost
    requires t.pos == s.pos || (t.pos == s.pos + 1 && s.pos < |c.items| && c.items[s.pos].Marker?)
    ensures Conserved(c, t)
  {
    forall d: nat ensures Count(t, d) == Once(c, t.pos, d) {
      assert Count(s, d) == Once(c, s.pos, d);
    }
  }

  lemma CloseConserves(c: Conf, s: State, t: State)
    requires s.pos <= |c.items| && Conserved(c, s) && Close(s, t)
    ensures Conserved(c, t)
  {
    forall d: nat ensures Count(t, d) == Once(c, t.pos, d) {
      assert Count(s, d) == Once(c, s.pos, d);
    }
  }

  /** Executing a run of its own statements, the coordinator keeps the log in order. */
  lemma OwnKeepsOrder(c: Conf, pos: nat, log: seq<Entry>, idxs: seq<nat>)
    requires pos <= |c.items| && InOrder(log)
    requires forall p :: 0 <= p < |log| ==> EntryOk(c, pos, log[p])
    requires forall k :: 0 <= k < |idxs| ==> BatchOk(c, pos, log, idxs[k])
    requires forall i, j :: 0 <= i < j < |idxs| ==> idxs[i] < idxs[j]
    ensures InOrder(log + Own(idxs))
    ensures forall p :: 0 <= p < |log + Own(idxs)| ==> EntryOk(c, pos, (log + Own(idxs))[p])
  {
    var all := log + Own(idxs);
    forall p, q | 0 <= p < q < |all| && (all[p].who == Coordinator || all[q].who == Coordinator)
      ensures all[p].idx < all[q].idx
    {
      if q >= |log| {
        assert BatchOk(c, pos, log, idxs[q - |log|]);
      }
    }
    forall p | 0 <= p < |all| ensures EntryOk(c, pos, all[p]) {
      if p >= |log| {
        assert BatchOk(c, pos, log, idxs[p - |log|]);
      }
    }
  }

  lemma FlushKeeps(c: Conf, s: State, t: State)
    requires Inv(c, s) && Flush(s, t)
    ensures Inv(c, t)
  {
    RunsConserve(c, s, t);
    OwnKeepsOrder(c, s.pos, s.log, s.batch);
  }

  lemma FlushFailsOrders(c: Conf, s: State, t: State, k: nat)
    requires s.pos <= |c.items| && Ordered(c, s) && Quiet(s) && 0 < k <= |s.batch| && t == FlushFailed(s, k)
    ensures Ordered(c, t)
  {
    hide EntryOk, BatchOk, HeldOk, InOrder;
    var ran := s.batch[..k];
    assert forall i :: 0 <= i < k ==> ran[i] == s.batch[i];
    OwnKeepsOrder(c, s.pos, s.log, ran);
  }

  lemma FlushFailsSeparates(s: State, t: State, k: nat)
    requires Separated(s) && CanFlush(s) && 0 < k <= |s.batch| && t == FlushFailed(s, k)
    ensures Separated(t) && Quiet(s)
  {
    hide Own;
  }

  lemma FlushFailsKeeps(c: Conf, s: State, t: State)
    requires Inv(c, s) && FlushFails(c, s, t)
    ensures Inv(c, t)
  {
    hide Conserved, Ordered, Separated, Own;
    FlushFailsConserves(c, s, t);
    var k :| 0 < k <= |s.batch| && t == FlushFailed(s, k);
    FlushFailsSeparates(s, t, k);
    FlushFailsOrders(c, s, t, k);
  }

  lemma MarkerKeeps(c: Conf, s: State, t: State)
    requires Inv(c, s) && TakeMarker(c, s, t)
    ensures Inv(c, t)
  {
    ControlConserves(c, s, t);
    MarkerOrders(c, s, t);
  }

  lemma MarkerOrders(c: Conf, s: State, t: State)
    requires Inv(c, s) && TakeMarker(c, s, t)
    ensures Ordered(c, t)
  {
    assert t.log == s.log && t.queue == s.queue && t.workers == s.workers && t.batch == [];
    forall k | 0 <= k < |t.queue| ensures HeldOk(c, t.pos, t.log, t.queue[k]) {
      assert HeldOk(c, s.pos, s.log, s.queue[k]);
    }
    forall w | 0 <= w < |t.workers| && t.workers[w].Busy? ensures HeldOk(c, t.pos, t.log, t.workers[w].idx) {
      assert HeldOk(c, s.pos, s.log, s.workers[w].idx);
    }
    forall p | 0 <= p < |t.log| ensures EntryOk(c, t.pos, t.log[p]) {
      assert EntryOk(c, s.pos, s.log[p]);
    }
  }

  lemma ForwardKeeps(c: Conf, s: State, t: State)
    requires Inv(c, s) && Forward(c, s, t)
    ensures Inv(c, t)
  {
    AddsConserve(c, s, t);
    assert s.workers[0] != Exited;
    assert HeldOk(c, t.pos, t.log, s.pos);
  }

  lemma QueueInsertKeeps(c: Conf, s: State, t: State)
    requires Inv(c, s) && QueueInsert(c, s, t)
    ensures Inv(c, t)
  {
    AddsConserve(c, s, t);
    assert BatchOk(c, t.pos, t.log, s.pos);
  }

  lemma InlineKeeps(c: Conf, s: State, t: State)
    requires Inv(c, s) && (RunInline(c, s, t) || RunInlineFails(c, s, t))
    ensures Inv(c, t)
  {
    RunsConserve(c, s, t);
    assert BatchOk(c, t.pos, s.log, s.pos);
    OwnKeepsOrder(c, t.pos, s.log, [s.pos]);
  }

  lemma LeaveKeeps(c: Conf, s: State, t: State)
    requires Inv(c, s)
    requires Check(c, s, t) || Barrier(s, t) || ForwardFails(c, s, t) || Close(s, t) || LastJoin(s, t)
          || UserStops(s, t)
    ensures Inv(c, t)
  {
    if Close(s, t) { CloseConserves(c, s, t); } else { ControlConserves(c, s, t); }
  }

  lemma ReceiveCounts(s: State, t: State, w: nat, d: nat)
    requires Receive(s, t, w)
    ensures t.pos == s.pos && Count(t, d) == Count(s, d)
  {
    InFlightUpdate(s.workers, w, t.workers[w], d);
    assert s.queue == [s.queue[0]] + s.queue[1..];
  }

  lemma DoneCounts(s: State, t: State, w: nat, v: Worker, d: nat)
    requires w < |s.workers| && s.workers[w].Busy? && !v.Busy? && t.workers == s.workers[w := v]
    requires t.log == s.log + [Entry(s.workers[w].idx, ByWorker(w))]
    requires t.queue == s.queue && t.batch == s.batch && t.lost == s.lost
    ensures Count(t, d) == Count(s, d)
  {
    hide Ran, InFlight;
    InFlightUpdate(s.workers, w, v, d);
    RanOne(s.log, Entry(s.workers[w].idx, ByWorker(w)), d);
  }

  lemma CompleteCounts(c: Conf, s: State, t: State, w: nat, d: nat)
    requires Complete(s, t, w) || CompleteFails(c, s, t, w)
    ensures t.pos == s.pos && Count(t, d) == Count(s, d)
  {
    hide Count;
    DoneCounts(s, t, w, if Complete(s, t, w) then Idle else Exited, d);
  }

  lemma WorkerConserves(c: Conf, s: State, t: State, w: nat)
    requires s.pos <= |c.items| && Conserved(c, s) && WorkerStep(c, s, t, w)
    ensures t.pos == s.pos && Conserved(c, t)
  {
    assert t.pos == s.pos;
    forall d: nat ensures Count(t, d) == Once(c, t.pos, d) {
      assert Count(s, d) == Once(c, s.pos, d);
      if Receive(s, t, w) {
        ReceiveCounts(s, t, w, d);
      } else if Quit(s, t, w) {
        InFlightUpdate(s.workers, w, t.workers[w], d);
      } else {
        CompleteCounts(c, s, t, w, d);
      }
    }
  }

  lemma ReceiveKeeps(c: Conf, s: State, t: State, w: nat)
    requires Inv(c, s) && Receive(s, t, w)
    ensures Inv(c, t)
  {
    WorkerConserves(c, s, t, w);
    assert HeldOk(c, s.pos, s.log, s.queue[0]);
    assert t.workers[w] != Exited || t.abort || t.stop;
    assert !Quiet(s);
  }

  lemma CompleteKeeps(c: Conf, s: State, t: State, w: nat)
    requires Inv(c, s) && (Complete(s, t, w) || CompleteFails(c, s, t, w))
    ensures Inv(c, t)
  {
    WorkerConserves(c, s, t, w);
    var e := Entry(s.workers[w].idx, ByWorker(w));
    assert HeldOk(c, s.pos, s.log, e.idx);
    assert t.log == s.log + [e];
    assert !Quiet(s) && s.batch == [];
    assert t.workers[w] == Idle || t.abort;
  }

  lemma QuitKeeps(c: Conf, s: State, t: State, w: nat)
    requires Inv(c, s) && Quit(s, t, w)
    ensures Inv(c, t)
  {
    WorkerConserves(c, s, t, w);
  }

  /** The invariant survives every step of every process. */
  lemma {:induction false} StepKeeps(c: Conf, s: State, t: State)
    requires Inv(c, s) && Next(c, s, t)
    ensures Inv(c, t)
  {
    hide Inv, Check, Flush, FlushFails, TakeMarker, Barrier, Forward, ForwardFails, QueueInsert, RunInline,
         RunInlineFails,
         Close, LastJoin, UserStops, Receive, Complete, CompleteFails, Quit;
    if Flush(s, t) { FlushKeeps(c, s, t); }
    else if FlushFails(c, s, t) { FlushFailsKeeps(c, s, t); }
    else if TakeMarker(c, s, t) { MarkerKeeps(c, s, t); }
    else if Forward(c, s, t) { ForwardKeeps(c, s, t); }
    else if QueueInsert(c, s, t) { QueueInsertKeeps(c, s, t); }
    else if RunInline(c, s, t) || RunInlineFails(c, s, t) { InlineKeeps(c, s, t); }
    else if CoordinatorStep(c, s, t) || UserStops(s, t) { LeaveKeeps(c, s, t); }
    else {
      var w: nat :| WorkerStep(c, s, t, w);
      if Receive(s, t, w) { ReceiveKeeps(c, s, t, w); }
      else if Quit(s, t, w) { QuitKeeps(c, s, t, w); }
      else { CompleteKeeps(c, s, t, w); }
    }
  }

  lemma {:induction false} RunInv(c: Conf, run: seq<State>, i: nat)
    requires IsRun(c, run) && c.workers > 0 && i < |run|
    ensures Inv(c, run[i])
  {
    if i == 0 {
      InitInv(c, run[0]);
    } else {
      RunInv(c, run, i - 1);
      StepKeeps(c, run[i - 1], run[i - 1 + 1]);
    }
  }

  // --------------------------------------------------------------------- theorems

  /** The coordinator executes something of its own in this step. */
  predicate RunsOwn(s: State, t: State) {
    |s.log| < |t.log| && t.log[|s.log|].who == Coordinator
  }

  lemma WorkersRunNothingOwn(c: Conf, s: State, t: State, w: nat)
    requires WorkerStep(c, s, t, w)
    ensures !RunsOwn(s, t)
  {
  }

  /** The coordinator executes in two places only: its batch, and a statement outside the data region. */
  lemma OwnPlaces(c: Conf, s: State, t: State)
    requires CoordinatorStep(c, s, t) && RunsOwn(s, t)
    ensures CanFlush(s) || (HoldsStmt(c, s) && s.region != DataRegion)
  {
    hide Own;
  }

  lemma OwnStepIsQuiet(c: Conf, s: State, t: State)
    requires Separated(s) && Next(c, s, t) && RunsOwn(s, t)
    ensures Quiet(s)
  {
    assert UserStops(s, t) ==> !RunsOwn(s, t);
    hide CoordinatorStep, WorkerStep, RunsOwn;
    if CoordinatorStep(c, s, t) {
      OwnPlaces(c, s, t);
    } else if !UserStops(s, t) {
      var w: nat :| WorkerStep(c, s, t, w);
      WorkersRunNothingOwn(c, s, t, w);
    }
  }

  /**
    Barrier safety, for every interleaving: whenever the coordinator executes a
    header, DDL, index or footer statement, no forwarded data statement is queued
    or in flight.
  */
  lemma BarrierSafety(c: Conf, run: seq<State>, i: nat)
    requires IsRun(c, run) && c.workers > 0 && i + 1 < |run|
    requires RunsOwn(run[i], run[i + 1])
    ensures Quiet(run[i])
  {
    hide Conserved, Ordered, Tracks, Separated, Next, RunsOwn, Quiet;
    RunInv(c, run, i);
    OwnStepIsQuiet(c, run[i], run[i + 1]);
  }

  /** In every state of every run a statement was executed at most once, and only after it was read. */
  lemma AtMostOnce(c: Conf, run: seq<State>, i: nat, d: nat)
    requires IsRun(c, run) && c.workers > 0 && i < |run|
    ensures Ran(run[i].log, d) <= Once(c, run[i].pos, d) <= 1
  {
    RunInv(c, run, i);
    assert Count(run[i], d) == Once(c, run[i].pos, d);
  }

  /**
    The log of every run is in source order up to reordering data statements among
    themselves, and the workers run exactly the statements of the data region.
  */
  lemma SourceOrder(c: Conf, run: seq<State>, i: nat)
    requires IsRun(c, run) && c.workers > 0 && i < |run|
    ensures var log := run[i].log;
            && InOrder(log)
            && forall p :: 0 <= p < |log| ==>
                 log[p].idx < |c.items| && (log[p].who == Coordinator <==> RegionAt(c.items, log[p].idx) != DataRegion)
  {
    RunInv(c, run, i);
    forall p | 0 <= p < |run[i].log|
      ensures run[i].log[p].idx < |c.items|
      ensures run[i].log[p].who == Coordinator <==> RegionAt(c.items, run[i].log[p].idx) != DataRegion
    {
      assert EntryOk(c, run[i].pos, run[i].log[p]);
    }
  }

  /** A data statement that comes after some marker has already left the data region. */
  predicate InSecondRun(items: seq<Item>, i: nat) {
    i < |items| && items[i].Stmt? && RegionAt(items, i) == DataRegion && LeftData(items, i)
  }

  /** The data statements of the stream form one contiguous run. */
  ghost predicate SingleRun(items: seq<Item>) {
    forall i: nat :: !InSecondRun(items, i)
  }

  /** Without an abort or a stop, only the end of the stream or a second data run ends the loop. */
  ghost predicate Unbroken(c: Conf, s: State)
    requires s.pos <= |c.items|
  {
    !s.abort && !s.stop ==>
      && (forall i: nat :: i < s.pos ==> !InSecondRun(c.items, i))
      && (!InLoop(s) && !s.phase.Joining? ==> s.pos == |c.items| || InSecondRun(c.items, s.pos))
  }

  /** Workers and the user leave the coordinator where it is, and no flag is ever taken back. */
  lemma OthersUnbroken(c: Conf, s: State, t: State, w: nat)
    requires s.pos <= |c.items| && Unbroken(c, s)
    requires UserStops(s, t) || WorkerStep(c, s, t, w)
    ensures t.pos == s.pos && Unbroken(c, t)
  {
    assert t.pos == s.pos && t.phase == s.phase && (s.abort ==> t.abort) && (s.stop ==> t.stop);
  }

  lemma ReadsOn(c: Conf, s: State, t: State)
    requires s.pos < |c.items| && Unbroken(c, s) && !InSecondRun(c.items, s.pos)
    requires InLoop(s) && t.pos == s.pos + 1 && (s.abort ==> t.abort) && (s.stop ==> t.stop)
    requires InLoop(t) || t.phase.Joining? || t.abort
    ensures Unbroken(c, t)
  {
  }

  lemma Stays(c: Conf, s: State, t: State)
    requires s.pos <= |c.items| && Unbroken(c, s) && t.pos == s.pos
    requires (s.abort ==> t.abort) && (s.stop ==> t.stop)
    requires !InLoop(t) && !t.phase.Joining? ==>
               t.abort || t.stop || s.pos == |c.items| || InSecondRun(c.items, s.pos)
               || !(InLoop(s) || s.phase.Joining?)
    ensures Unbroken(c, t)
  {
  }

  /** The loop is left over a data statement only in a second run, unless a worker gave up. */
  lemma ForwardFailsUnbroken(c: Conf, s: State, t: State)
    requires Inv(c, s) && ForwardFails(c, s, t) && Unbroken(c, s)
    ensures Unbroken(c, t)
  {
    Stays(c, s, t);
  }

  predicate TakesItem(c: Conf, s: State, t: State) {
    TakeMarker(c, s, t) || Forward(c, s, t) || QueueInsert(c, s, t) || RunInline(c, s, t) || RunInlineFails(c, s, t)
  }

  lemma TakesUnbroken(c: Conf, s: State, t: State)
    requires s.pos <= |c.items| && t.pos <= |c.items| && Unbroken(c, s) && TakesItem(c, s, t)
    requires s.senderOpen || s.region != DataRegion ==> !InSecondRun(c.items, s.pos)
    ensures Unbroken(c, t)
  {
    assert TakeMarker(c, s, t) ==> !InSecondRun(c.items, s.pos);
    hide InSecondRun, Unbroken;
    ReadsOn(c, s, t);
  }

  lemma CoordinatorUnbroken(c: Conf, s: State, t: State)
    requires s.pos <= |c.items| && t.pos <= |c.items| && Unbroken(c, s)
    requires CoordinatorStep(c, s, t) && !ForwardFails(c, s, t)
    requires InLoop(s) && s.pos < |c.items| && (s.senderOpen || s.region != DataRegion) ==> !InSecondRun(c.items, s.pos)
    ensures Unbroken(c, t)
  {
    if TakesItem(c, s, t) {
      TakesUnbroken(c, s, t);
    } else {
      hide InSecondRun, Unbroken;
      Stays(c, s, t);
    }
  }

  lemma NotSecond(c: Conf, s: State)
    requires Inv(c, s) && InLoop(s) && s.pos < |c.items| && (s.senderOpen || s.region != DataRegion)
    ensures !InSecondRun(c.items, s.pos)
  {
  }

  lemma StepUnbroken(c: Conf, s: State, t: State)
    requires Inv(c, s) && Next(c, s, t) && Unbroken(c, s)
    ensures Inv(c, t) && Unbroken(c, t)
  {
    StepKeeps(c, s, t);
    if ForwardFails(c, s, t) {
      ForwardFailsUnbroken(c, s, t);
    } else if CoordinatorStep(c, s, t) {
      if InLoop(s) && s.pos < |c.items| && (s.senderOpen || s.region != DataRegion) {
        NotSecond(c, s);
      }
      CoordinatorUnbroken(c, s, t);
    } else if UserStops(s, t) {
      OthersUnbroken(c, s, t, 0);
    } else {
      var w: nat :| WorkerStep(c, s, t, w);
      OthersUnbroken(c, s, t, w);
    }
  }

  lemma {:induction false} RunUnbroken(c: Conf, run: seq<State>, i: nat)
    requires IsRun(c, run) && c.workers > 0 && i < |run|
    ensures Inv(c, run[i]) && Unbroken(c, run[i])
  {
    if i == 0 {
      InitInv(c, run[0]);
    } else {
      RunUnbroken(c, run, i - 1);
      StepUnbroken(c, run[i - 1], run[i - 1 + 1]);
    }
  }

  predicate CleanEnd(s: State) {
    s.phase == Finished && !s.abort && !s.stop
  }

  /**
    An import that ends without abort or stop has executed exactly the statements
    before the first one of a second data run, each exactly once.
  */
  lemma StopsAtSecondRun(c: Conf, run: seq<State>, i: nat)
    requires IsRun(c, run) && c.workers > 0 && i < |run| && CleanEnd(run[i])
    ensures var n := run[i].pos;
            && (n == |c.items| || InSecondRun(c.items, n))
            && (forall k: nat :: k < n ==> !InSecondRun(c.items, k))
            && (forall d: nat :: Ran(run[i].log, d) == Once(c, n, d))
  {
    RunUnbroken(c, run, i);
    var s := run[i];
    forall d: nat ensures Ran(s.log, d) == Once(c, s.pos, d) {
      assert Count(s, d) == Once(c, s.pos, d);
      NothingInFlight(s.workers, d);
    }
  }

  /** Everything is imported, each statement once, exactly for the streams with a single data run. */
  lemma CompleteIffSingleRun(c: Conf, run: seq<State>, i: nat)
    requires IsRun(c, run) && c.workers > 0 && i < |run| && CleanEnd(run[i])
    ensures (forall d: nat :: d < |c.items| && c.items[d].Stmt? ==> Ran(run[i].log, d) == 1)
        <==> SingleRun(c.items)
  {
    StopsAtSecondRun(c, run, i);
    var n := run[i].pos;
    if n < |c.items| {
      assert InSecondRun(c.items, n);
      assert Ran(run[i].log, n) == Once(c, n, n) == 0;
    } else {
      forall k: nat ensures !InSecondRun(c.items, k) {
      }
    }
  }
}
