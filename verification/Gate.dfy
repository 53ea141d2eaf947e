/**
  The wake-up protocol around `tokio::sync::Notify`: somebody opens a gate and then
  calls `notify_waiters`; waiters loop over a check and a sleep. `wait_for_job`
  (src-tauri/src/mcp_server.rs) registers for the notification before it checks,
  `TransferControl::check` (src-tauri/src/data_transfer.rs) after. The order decides
  whether a waiter can sleep in front of an open gate that nobody will announce.
*/
module Gate {

  /**
    `Ready(e)` has created its `notified()` future when `epoch` was `e` and has not
    checked yet; `Shut` has checked, found the gate closed and has no future yet;
    `Sleeping(e)` awaits a future created at `e`, which completes once `epoch` passes `e`.
  */
  datatype Waiter = Outside | Ready(epoch: nat) | Shut | Sleeping(epoch: nat) | Returned

  /** `unsent` counts the openings whose `notify_waiters` call is still to come. */
  datatype State = State(open: bool, unsent: nat, epoch: nat, waiters: seq<Waiter>)

  /** Which of the two loops the waiters run. */
  datatype Order = RegisterFirst | CheckFirst

  predicate Init(s: State) {
    && !s.open && s.unsent == 0 && s.epoch == 0
    && forall w :: 0 <= w < |s.waiters| ==> s.waiters[w] == Outside
  }

  // ------------------------------------------------------------------ the openers

  predicate Opens(s: State, t: State) {
    t == s.(open := true, unsent := s.unsent + 1)
  }

  /** A pause closes the gate again; a finished job never does. */
  predicate Closes(s: State, t: State) {
    t == s.(open := false)
  }

  predicate Announces(s: State, t: State) {
    s.unsent > 0 && t == s.(unsent := s.unsent - 1, epoch := s.epoch + 1)
  }

  // ------------------------------------------------------------------ the waiters

  function Moved(s: State, w: nat, v: Waiter): State
    requires w < |s.waiters|
  {
    s.(waiters := s.waiters[w := v])
  }

  predicate Registers(o: Order, s: State, t: State, w: nat) {
    && w < |s.waiters|
    && match o
       case RegisterFirst => s.waiters[w] == Outside && t == Moved(s, w, Ready(s.epoch))
       case CheckFirst => s.waiters[w] == Shut && t == Moved(s, w, Sleeping(s.epoch))
  }

  predicate Checks(o: Order, s: State, t: State, w: nat) {
    && w < |s.waiters|
    && match o
       case RegisterFirst =>
         && s.waiters[w].Ready?
         && t == Moved(s, w, if s.open then Returned else Sleeping(s.waiters[w].epoch))
       case CheckFirst =>
         && s.waiters[w] == Outside
         && t == Moved(s, w, if s.open then Returned else Shut)
  }

  predicate Wakes(s: State, t: State, w: nat) {
    && w < |s.waiters| && s.waiters[w].Sleeping? && s.epoch > s.waiters[w].epoch
    && t == Moved(s, w, Outside)
  }

  /** The surrounding timeout drops the wait wherever it is. */
  predicate TimesOut(s: State, t: State, w: nat) {
    w < |s.waiters| && t == Moved(s, w, Returned)
  }

  /** What a waiter does by itself: a timeout is not its doing. */
  predicate OwnStep(o: Order, s: State, t: State, w: nat) {
    Registers(o, s, t, w) || Checks(o, s, t, w) || Wakes(s, t, w)
  }

  predicate WaiterStep(o: Order, s: State, t: State, w: nat) {
    OwnStep(o, s, t, w) || TimesOut(s, t, w)
  }

  ghost predicate Next(o: Order, s: State, t: State) {
    Opens(s, t) || Closes(s, t) || Announces(s, t) || exists w: nat :: WaiterStep(o, s, t, w)
  }

  ghost predicate IsRun(o: Order, run: seq<State>) {
    && run != [] && Init(run[0])
    && forall i :: 0 <= i < |run| - 1 ==> Next(o, run[i], run[i + 1])
  }

  // --------------------------------------------------------------------- the claim

  /** A waiter asleep in front of an open gate with no announcement behind it or to come. */
  predicate Lost(s: State, w: nat) {
    && w < |s.waiters| && s.waiters[w].Sleeping?
    && s.open && s.unsent == 0 && s.epoch <= s.waiters[w].epoch
  }

  predicate WaiterOk(o: Order, s: State, v: Waiter) {
    && (v.Ready? || v.Sleeping? ==> v.epoch <= s.epoch)
    && (v.Sleeping? && s.open ==> s.unsent > 0 || s.epoch > v.epoch)
    && (o == RegisterFirst ==> v != Shut)
  }

  predicate Inv(s: State) {
    forall w :: 0 <= w < |s.waiters| ==> WaiterOk(RegisterFirst, s, s.waiters[w])
  }

  lemma StepKeeps(s: State, t: State)
    requires Inv(s) && Next(RegisterFirst, s, t)
    ensures Inv(t)
  {
    forall k | 0 <= k < |t.waiters| ensures WaiterOk(RegisterFirst, t, t.waiters[k]) {
      assert k < |s.waiters| && WaiterOk(RegisterFirst, s, s.waiters[k]);
    }
  }

  lemma {:induction false} RunInv(run: seq<State>, i: nat)
    requires IsRun(RegisterFirst, run) && i < |run|
    ensures Inv(run[i])
  {
    if i > 0 {
      RunInv(run, i - 1);
      StepKeeps(run[i - 1], run[i - 1 + 1]);
    }
  }

  ghost predicate NoneLost(o: Order) {
    forall run: seq<State>, i: nat, w: nat :: IsRun(o, run) && i < |run| ==> !Lost(run[i], w)
  }

  /** A waiter gets past the gate by itself only while it is open. */
  lemma ReturnsOpen(o: Order, s: State, t: State, w: nat)
    requires OwnStep(o, s, t, w)
    ensures w < |t.waiters| && (t.waiters[w] == Returned ==> s.open)
  {
  }

  /** The opening falls between a waiter's check and its registration: nothing will wake it. */
  lemma LostTrace() returns (run: seq<State>)
    ensures IsRun(CheckFirst, run) && |run| == 5 && Lost(run[4], 0)
  {
    var s0 := State(false, 0, 0, [Outside]);
    var s1 := Moved(s0, 0, Shut);
    var s2 := s1.(open := true, unsent := 1);
    var s3 := s2.(unsent := 0, epoch := 1);
    var s4 := Moved(s3, 0, Sleeping(1));
    run := [s0, s1, s2, s3, s4];
    assert WaiterStep(CheckFirst, s0, s1, 0) && WaiterStep(CheckFirst, s3, s4, 0);
    assert Next(CheckFirst, s0, s1) && Next(CheckFirst, s1, s2) && Next(CheckFirst, s2, s3) && Next(CheckFirst, s3, s4);
  }

  /** No waiter is ever left asleep in front of an open gate exactly when waiters register first. */
  lemma NoneLostIff(o: Order)
    ensures NoneLost(o) <==> o == RegisterFirst
  {
    if o == RegisterFirst {
      forall run: seq<State>, i: nat, w: nat | IsRun(o, run) && i < |run| ensures !Lost(run[i], w) {
        RunInv(run, i);
        if w < |run[i].waiters| {
          assert WaiterOk(RegisterFirst, run[i], run[i].waiters[w]);
        }
      }
    } else {
      var run := LostTrace();
      assert IsRun(o, run) && Lost(run[4], 0);
    }
  }

  // ------------------------------------------------- when checking first is safe

  /** No announcement comes while waiter `w` has checked and not yet registered. */
  predicate Undisturbed(run: seq<State>, w: nat, i: nat) {
    i < |run| && forall k :: 0 <= k < i ==>
      (w < |run[k].waiters| && run[k].waiters[w].Shut? ==> run[k + 1].epoch == run[k].epoch)
  }

  /** A waiter that found the gate closed, or sleeps, has an announcement ahead once it is open. */
  predicate Covered(s: State, v: Waiter) {
    && (v.Shut? && s.open ==> s.unsent > 0)
    && (v.Sleeping? ==> v.epoch <= s.epoch && (s.open ==> s.unsent > 0 || s.epoch > v.epoch))
    && !v.Ready?
  }

  lemma CoveredStep(s: State, t: State, w: nat)
    requires Next(CheckFirst, s, t) && w < |s.waiters| && Covered(s, s.waiters[w])
    requires s.waiters[w].Shut? ==> t.epoch == s.epoch
    ensures |t.waiters| == |s.waiters| && Covered(t, t.waiters[w])
  {
  }

  lemma {:induction false} StaysCovered(run: seq<State>, w: nat, i: nat)
    requires IsRun(CheckFirst, run) && Undisturbed(run, w, i) && w < |run[0].waiters|
    ensures w < |run[i].waiters| && Covered(run[i], run[i].waiters[w])
  {
    if i > 0 {
      StaysCovered(run, w, i - 1);
      CoveredStep(run[i - 1], run[i - 1 + 1], w);
    }
  }

  lemma {:induction false} SameWaiters(o: Order, run: seq<State>, i: nat)
    requires IsRun(o, run) && i < |run|
    ensures |run[i].waiters| == |run[0].waiters|
  {
    if i > 0 {
      SameWaiters(o, run, i - 1);
      assert Next(o, run[i - 1], run[i - 1 + 1]);
    }
  }

  /** Checking first is safe on every schedule that keeps announcements out of the gap. */
  lemma SafeIfUndisturbed(run: seq<State>, w: nat, i: nat)
    requires IsRun(CheckFirst, run) && Undisturbed(run, w, i)
    ensures !Lost(run[i], w)
  {
    SameWaiters(CheckFirst, run, i);
    if w < |run[0].waiters| {
      StaysCovered(run, w, i);
    }
  }

  /**
    From `c` on waiter `w` checks a closed gate, from `r` on it sleeps, and it is still
    asleep at `i`.
  */
  predicate Window(run: seq<State>, w: nat, c: nat, r: nat, i: nat) {
    && c < r < i < |run|
    && (forall k :: 0 <= k < |run| ==> w < |run[k].waiters|)
    && run[c].waiters[w] == Outside && !run[c].open
    && (forall k :: c < k <= r ==> run[k].waiters[w] == Shut)
    && (forall k :: r < k <= i ==> run[k].waiters[w] == Sleeping(run[r].epoch))
  }

  /** How long a waiter has been in the state it is in: where its sleep, or its gap, began. */
  lemma {:induction false} SleepBegan(run: seq<State>, w: nat, i: nat) returns (r: nat)
    requires IsRun(CheckFirst, run) && i < |run| && (forall k :: 0 <= k < |run| ==> w < |run[k].waiters|)
    requires run[i].waiters[w].Sleeping?
    ensures r < i && run[r].waiters[w] == Shut
    ensures forall k :: r < k <= i ==> run[k].waiters[w] == Sleeping(run[r].epoch) == run[i].waiters[w]
  {
    assert i > 0 && Next(CheckFirst, run[i - 1], run[i - 1 + 1]);
    if run[i - 1].waiters[w] == run[i].waiters[w] {
      r := SleepBegan(run, w, i - 1);
    } else {
      r := i - 1;
    }
  }

  lemma {:induction false} GapBegan(run: seq<State>, w: nat, r: nat) returns (c: nat)
    requires IsRun(CheckFirst, run) && r < |run| && (forall k :: 0 <= k < |run| ==> w < |run[k].waiters|)
    requires run[r].waiters[w].Shut?
    ensures c < r && run[c].waiters[w] == Outside && !run[c].open
    ensures forall k :: c < k <= r ==> run[k].waiters[w] == Shut
  {
    assert r > 0 && Next(CheckFirst, run[r - 1], run[r - 1 + 1]);
    if run[r - 1].waiters[w].Shut? {
      c := GapBegan(run, w, r - 1);
    } else {
      c := r - 1;
    }
  }

  lemma {:induction false} EpochGrows(o: Order, run: seq<State>, i: nat, j: nat)
    requires IsRun(o, run) && i <= j < |run|
    ensures run[i].epoch <= run[j].epoch
  {
    if i < j {
      EpochGrows(o, run, i, j - 1);
      assert Next(o, run[j - 1], run[j - 1 + 1]);
    }
  }

  /** From a closed gate on, while nothing is announced, an open gate has its announcement to come. */
  lemma {:induction false} Unannounced(run: seq<State>, c: nat, j: nat)
    requires IsRun(CheckFirst, run) && c <= j < |run| && !run[c].open && run[j].epoch == run[c].epoch
    ensures run[j].open ==> run[j].unsent > 0
  {
    if c < j {
      EpochGrows(CheckFirst, run, c, j - 1);
      EpochGrows(CheckFirst, run, j - 1, j);
      Unannounced(run, c, j - 1);
      assert Next(CheckFirst, run[j - 1], run[j - 1 + 1]);
    }
  }

  /**
    Exactly how a wake-up is lost: an announcement falls between the waiter's check and
    its registration, none comes afterwards, and the gate is open with none to come.
  */
  lemma LostIff(run: seq<State>, w: nat, i: nat)
    requires IsRun(CheckFirst, run) && i < |run|
    ensures Lost(run[i], w)
       <==> run[i].open && run[i].unsent == 0
            && exists c: nat, r: nat :: Window(run, w, c, r, i) && run[c].epoch < run[r].epoch == run[i].epoch
  {
    forall k | 0 <= k < |run| ensures |run[k].waiters| == |run[0].waiters| {
      SameWaiters(CheckFirst, run, k);
    }
    if Lost(run[i], w) {
      var r := SleepBegan(run, w, i);
      var c := GapBegan(run, w, r);
      EpochGrows(CheckFirst, run, c, r);
      EpochGrows(CheckFirst, run, r, i);
      if run[c].epoch == run[i].epoch {
        Unannounced(run, c, i);
      }
      assert Window(run, w, c, r, i);
    }
  }

  // ------------------------------------------------------------------ getting out

  /** The steps of its own that a waiter has left in front of an open, announced gate. */
  function Rank(v: Waiter): nat {
    match v
    case Returned => 0
    case Ready(_) => 1
    case Outside => 2
    case Sleeping(_) => 3
    case Shut => 4
  }

  /** The gate is open and everything is announced. */
  predicate Clear(s: State) {
    s.open && s.unsent == 0
  }

  /** A stretch of a run, with the steps that this protocol does not see. */
  ghost predicate Stretch(o: Order, path: seq<State>) {
    path != [] && forall i :: 0 <= i < |path| - 1 ==> path[i + 1] == path[i] || Next(o, path[i], path[i + 1])
  }

  /** How many of the steps are the waiter's own. */
  function OwnSteps(o: Order, path: seq<State>, w: nat): nat {
    if |path| < 2 then 0
    else (if OwnStep(o, path[0], path[1], w) then 1 else 0) + OwnSteps(o, path[1..], w)
  }

  /** In front of an open, announced gate every step of its own brings a waiter closer, none sets it back. */
  lemma ClearStep(s: State, t: State, w: nat)
    requires Inv(s) && Clear(s) && Clear(t) && w < |s.waiters| && (t == s || Next(RegisterFirst, s, t))
    ensures Inv(t) && w < |t.waiters|
    ensures Rank(t.waiters[w]) + (if OwnStep(RegisterFirst, s, t, w) then 1 else 0) <= Rank(s.waiters[w])
  {
    assert WaiterOk(RegisterFirst, s, s.waiters[w]);
    if t != s {
      StepKeeps(s, t);
    }
  }

  lemma {:induction false} RankFalls(path: seq<State>, w: nat)
    requires Stretch(RegisterFirst, path) && Inv(path[0]) && w < |path[0].waiters|
    requires forall i :: 0 <= i < |path| ==> Clear(path[i])
    ensures var last := path[|path| - 1];
            && Inv(last) && w < |last.waiters|
            && Rank(last.waiters[w]) + OwnSteps(RegisterFirst, path, w) <= Rank(path[0].waiters[w])
  {
    if |path| > 1 {
      var more := path[1..];
      ClearStep(path[0], path[0 + 1], w);
      forall i | 0 <= i < |more| - 1 ensures more[i + 1] == more[i] || Next(RegisterFirst, more[i], more[i + 1]) {
        assert more[i] == path[i + 1] && more[i + 1] == path[i + 1 + 1];
      }
      RankFalls(more, w);
    }
  }

  /** A waiter that has not returned always has a step of its own to take. */
  lemma WaiterCanMove(s: State, w: nat) returns (t: State)
    requires Inv(s) && Clear(s) && w < |s.waiters| && s.waiters[w] != Returned
    ensures OwnStep(RegisterFirst, s, t, w)
  {
    var v := s.waiters[w];
    assert WaiterOk(RegisterFirst, s, v);
    t := Moved(s, w, if v.Outside? then Ready(s.epoch) else if v.Ready? then Returned else Outside);
  }

  /**
    Along every stretch of every run in which the gate stays open and announced: a
    waiter takes at most three steps of its own, has returned once it has taken three,
    and until then has one to take.
  */
  lemma WaiterReturns(path: seq<State>, w: nat)
    requires Stretch(RegisterFirst, path) && Inv(path[0]) && w < |path[0].waiters|
    requires forall i :: 0 <= i < |path| ==> Clear(path[i])
    ensures var last := path[|path| - 1];
            && w < |last.waiters| && OwnSteps(RegisterFirst, path, w) <= 3
            && (OwnSteps(RegisterFirst, path, w) == 3 ==> last.waiters[w] == Returned)
            && (last.waiters[w] != Returned ==> exists t :: OwnStep(RegisterFirst, last, t, w))
  {
    RankFalls(path, w);
    assert WaiterOk(RegisterFirst, path[0], path[0].waiters[w]);
    var last := path[|path| - 1];
    if last.waiters[w] != Returned {
      var t := WaiterCanMove(last, w);
    }
  }
}
