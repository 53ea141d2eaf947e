/**
  Jobs of the MCP server (src-tauri/src/mcp_server.rs): the state a job goes
  through, its supervisor, the progress events and the callers that wait for it, as
  a transition system over every interleaving; and the registry that forgets old
  finished jobs.
*/
module Jobs {
  import opened Text

  import Gate

  datatype JobState = Running(progress: Option<string>) | Done(result: string) | Failed(error: string)

  /** How the work task ended: with its own result, cancelled, or with a panic. */
  datatype Ending = Finished(result: string) | Refused(error: string) | Cancelled | Panicked(message: string)

  function Terminal(e: Ending): JobState {
    match e
    case Finished(v) => Done(v)
    case Refused(err) => Failed(err)
    case Cancelled => Failed("cancelled")
    case Panicked(m) => Failed("job panicked: " + m)
  }

  /** A progress event: ignored unless the job is running. */
  function WithProgress(s: JobState, p: string): JobState {
    if s.Running? then Running(Some(p)) else s
  }

  /** The shared object itself. `notified` counts the calls of `notify_waiters`. */
  class Job {
    var state: JobState
    var notified: nat

    constructor ()
      ensures state == Running(None) && notified == 0
    {
      state, notified := Running(None), 0;
    }

    predicate IsRunning()
      reads this
    {
      state.Running?
    }

    method Finish(e: Ending)
      modifies this
      ensures state == Terminal(e) && notified == old(notified) + 1
      ensures match e
              case Finished(v) => state == Done(v)
              case Refused(err) => state == Failed(err)
              case Cancelled => state == Failed("cancelled")
              case Panicked(m) => state == Failed("job panicked: " + m)
    {
      match e {
        case Finished(v) => state := Done(v);
        case Refused(err) => state := Failed(err);
        case Cancelled => state := Failed("cancelled");
        case Panicked(m) => state := Failed("job panicked: " + m);
      }
      notified := notified + 1;
    }

    method OnProgress(p: string)
      modifies `state
      ensures state == WithProgress(old(state), p)
      ensures if old(state).Running? then state == Running(Some(p)) else state == old(state)
    {
      if IsRunning() {
        state := Running(Some(p));
      }
    }
  }

  // --------------------------------------------------------- all parties together

  /** The supervisor awaits the work task, stores the outcome, notifies, and is gone. */
  datatype Supervisor = Supervising | Notifying | Gone

  datatype System = System(state: JobState, supervisor: Supervisor, epoch: nat, waiters: seq<Gate.Waiter>)

  predicate Init(s: System) {
    && s.state.Running? && s.supervisor == Supervising && s.epoch == 0
    && forall w :: 0 <= w < |s.waiters| ==> s.waiters[w] == Gate.Outside
  }

  /** What the wake-up protocol sees of a job. */
  function Seen(s: System): Gate.State {
    Gate.State(!s.state.Running?, if s.supervisor == Notifying then 1 else 0, s.epoch, s.waiters)
  }

  predicate Progresses(s: System, t: System, p: string) {
    t == s.(state := WithProgress(s.state, p))
  }

  predicate Stores(s: System, t: System, e: Ending) {
    s.supervisor == Supervising && t == s.(state := Terminal(e), supervisor := Notifying)
  }

  predicate Notifies(s: System, t: System) {
    s.supervisor == Notifying && t == s.(supervisor := Gone, epoch := s.epoch + 1)
  }

  predicate Waits(s: System, t: System, w: nat) {
    Gate.WaiterStep(Gate.RegisterFirst, Seen(s), Seen(t), w) && t == s.(waiters := t.waiters)
  }

  ghost predicate Next(s: System, t: System) {
    || (exists p: string :: Progresses(s, t, p))
    || (exists e: Ending :: Stores(s, t, e))
    || Notifies(s, t)
    || (exists w: nat :: Waits(s, t, w))
  }

  ghost predicate IsRun(run: seq<System>) {
    && run != [] && Init(run[0])
    && forall i :: 0 <= i < |run| - 1 ==> Next(run[i], run[i + 1])
  }

  ghost predicate Inv(s: System) {
    && (s.state.Running? <==> s.supervisor == Supervising)
    && Gate.Inv(Seen(s))
  }

  /** Every step of a job system is a step of the wake-up protocol, or invisible to it. */
  lemma StepRefines(s: System, t: System)
    requires Inv(s) && Next(s, t)
    ensures Seen(t) == Seen(s) || Gate.Next(Gate.RegisterFirst, Seen(s), Seen(t))
    ensures t.state.Running? <==> t.supervisor == Supervising
  {
    if e: Ending :| Stores(s, t, e) {
      assert Gate.Opens(Seen(s), Seen(t));
    } else if Notifies(s, t) {
      assert Gate.Announces(Seen(s), Seen(t));
    } else if w: nat :| Waits(s, t, w) {
      assert Gate.WaiterStep(Gate.RegisterFirst, Seen(s), Seen(t), w);
    }
  }

  lemma {:induction false} RunInv(run: seq<System>, i: nat)
    requires IsRun(run) && i < |run|
    ensures Inv(run[i])
  {
    if i > 0 {
      RunInv(run, i - 1);
      var s, t := run[i - 1], run[i - 1 + 1];
      StepRefines(s, t);
      if Seen(t) != Seen(s) {
        Gate.StepKeeps(Seen(s), Seen(t));
      }
    }
  }

  /** A terminal state is final: no event, no second outcome, no waiter changes it. */
  lemma FinalStep(s: System, t: System)
    requires Inv(s) && Next(s, t) && !s.state.Running?
    ensures t.state == s.state
  {
  }

  /** A job leaves Running once and never comes back: whatever it ended with, it stays with. */
  lemma {:induction false} LeavesRunningOnce(run: seq<System>, i: nat, j: nat)
    requires IsRun(run) && i <= j < |run| && !run[i].state.Running?
    ensures run[j].state == run[i].state
  {
    if i < j {
      LeavesRunningOnce(run, i, j - 1);
      RunInv(run, j - 1);
      FinalStep(run[j - 1], run[j - 1 + 1]);
    }
  }

  /**
    In every run, a caller that is asleep on a finished job has its notification
    behind it or still to come.
  */
  lemma NeverSleepsThrough(run: seq<System>, i: nat, w: nat)
    requires IsRun(run) && i < |run| && w < |run[i].waiters|
    requires !run[i].state.Running? && run[i].waiters[w].Sleeping?
    ensures run[i].supervisor == Notifying || run[i].epoch > run[i].waiters[w].epoch
  {
    RunInv(run, i);
    assert Gate.WaiterOk(Gate.RegisterFirst, Seen(run[i]), Seen(run[i]).waiters[w]);
  }

  /**
    A caller that returns without a timeout returns the outcome: the job has left
    Running, and keeps that state for the rest of the run.
  */
  lemma ReturnsOutcome(run: seq<System>, i: nat, j: nat, w: nat)
    requires IsRun(run) && i < j < |run| && Gate.OwnStep(Gate.RegisterFirst, Seen(run[i]), Seen(run[i + 1]), w)
    requires run[i + 1].waiters[w] == Gate.Returned
    ensures !run[i].state.Running? && run[j].state == run[i].state
  {
    Gate.ReturnsOpen(Gate.RegisterFirst, Seen(run[i]), Seen(run[i + 1]), w);
    LeavesRunningOnce(run, i, j);
  }

  /** What the protocol sees of a stretch of a run. */
  function SeenAll(run: seq<System>): (path: seq<Gate.State>)
    ensures |path| == |run| && forall k :: 0 <= k < |run| ==> path[k] == Seen(run[k])
  {
    seq(|run|, k requires 0 <= k < |run| => Seen(run[k]))
  }

  lemma {:induction false} GoneStays(run: seq<System>, i: nat, j: nat)
    requires IsRun(run) && i <= j < |run| && run[i].supervisor == Gone
    ensures run[j].supervisor == Gone
  {
    if i < j {
      GoneStays(run, i, j - 1);
      assert Next(run[j - 1], run[j - 1 + 1]);
    }
  }

  /** What the protocol sees of a run behind the supervisor's end: an open, announced gate, and its own steps. */
  lemma SeenStretch(run: seq<System>, i: nat, j: nat)
    requires IsRun(run) && i <= j < |run| && run[i].supervisor == Gone
    ensures var path := SeenAll(run[i..j + 1]);
            && Gate.Stretch(Gate.RegisterFirst, path) && Gate.Inv(path[0])
            && forall k :: 0 <= k < |path| ==> Gate.Clear(path[k])
  {
    var path := SeenAll(run[i..j + 1]);
    RunInv(run, i);
    assert path[0] == Seen(run[i]);
    forall k | 0 <= k < |path| ensures Gate.Clear(path[k]) {
      RunInv(run, i + k);
      GoneStays(run, i, i + k);
      assert path[k] == Seen(run[i + k]);
    }
    hide Seen, Next, Inv, Gate.Next;
    forall k | 0 <= k < |path| - 1
      ensures path[k + 1] == path[k] || Gate.Next(Gate.RegisterFirst, path[k], path[k + 1])
    {
      RunInv(run, i + k);
      assert Next(run[i + k], run[i + k + 1]);
      StepRefines(run[i + k], run[i + k + 1]);
    }
  }

  /**
    And once the supervisor is gone, in whatever way the run goes on, a caller takes at
    most three steps of its own, has returned once it has taken three, and until then
    has one to take.
  */
  lemma CallerReturns(run: seq<System>, i: nat, j: nat, w: nat)
    requires IsRun(run) && i <= j < |run| && run[i].supervisor == Gone && w < |run[i].waiters|
    ensures var steps := Gate.OwnSteps(Gate.RegisterFirst, SeenAll(run[i..j + 1]), w);
            && w < |run[j].waiters| && steps <= 3 && (steps == 3 ==> run[j].waiters[w] == Gate.Returned)
            && (run[j].waiters[w] != Gate.Returned ==> exists t :: Gate.OwnStep(Gate.RegisterFirst, Seen(run[j]), t, w))
  {
    hide IsRun, Gate.Stretch, Gate.Clear, Gate.Inv, Gate.OwnSteps, Gate.OwnStep;
    var path := SeenAll(run[i..j + 1]);
    SeenStretch(run, i, j);
    assert path[0] == Seen(run[i]) && path[|path| - 1] == Seen(run[j]);
    Gate.WaiterReturns(path, w);
  }

  // ------------------------------------------------------------------ the registry

  const JOB_HISTORY: nat := 50

  datatype Entry = Entry(started: nat, running: bool)

  type Registry = map<string, Entry>

  /** `after` forgot only finished jobs, and none that started later than a finished one it kept. */
  predicate Forgets(before: Registry, after: Registry) {
    && (forall k :: k in after ==> k in before && after[k] == before[k])
    && (forall k :: k in before && k !in after ==> !before[k].running)
    && (forall k, m :: k in before && k !in after && m in after && !after[m].running ==>
          before[k].started <= after[m].started)
  }

  predicate AllRunning(r: Registry) {
    forall k :: k in r ==> r[k].running
  }

  /** A finished job that started no later than any other finished one. */
  predicate IsOldest(r: Registry, k: string) {
    && k in r && !r[k].running
    && forall m :: m in r && !r[m].running ==> r[k].started <= r[m].started
  }

  lemma OldestExists(r: Registry, k: string) returns (oldest: string)
    requires k in r && !r[k].running
    ensures IsOldest(r, oldest)
    decreases r[k].started
  {
    if m :| m in r && !r[m].running && r[m].started < r[k].started {
      oldest := OldestExists(r, m);
    } else {
      oldest := k;
    }
  }

  class JobTable {
    var jobs: Registry

    constructor ()
      ensures jobs == map[]
    {
      jobs := map[];
    }

    /** Oldest finished jobs go first, until at most `JOB_HISTORY` are left or every one left is running. */
    method EvictFinished()
      modifies this
      ensures Forgets(old(jobs), jobs)
      ensures |old(jobs)| <= JOB_HISTORY ==> jobs == old(jobs)
      ensures |old(jobs)| > JOB_HISTORY ==> |jobs| == JOB_HISTORY || (|jobs| > JOB_HISTORY && AllRunning(jobs))
    {
      ghost var before := jobs;
      while |jobs| > JOB_HISTORY
        invariant Forgets(before, jobs)
        invariant |before| <= JOB_HISTORY ==> jobs == before
        invariant |before| > JOB_HISTORY ==> |jobs| >= JOB_HISTORY
        decreases |jobs|
      {
        if exists k :: k in jobs && !jobs[k].running {
          ghost var some :| some in jobs && !jobs[some].running;
          ghost var least := OldestExists(jobs, some);
          var oldest :| oldest in jobs && IsOldest(jobs, oldest);
          ForgetOldest(before, jobs, oldest);
          jobs := jobs - {oldest};
        } else {
          break;
        }
      }
    }

    /** A new job joins running, and the eviction that follows cannot be the end of it. */
    method Register(id: string, started: nat)
      modifies this
      ensures id in jobs && jobs[id] == Entry(started, true)
      ensures Forgets(old(jobs)[id := Entry(started, true)], jobs)
      ensures |jobs| <= JOB_HISTORY || AllRunning(jobs)
    {
      jobs := jobs[id := Entry(started, true)];
      EvictFinished();
    }
  }

  lemma ForgetOldest(before: Registry, r: Registry, oldest: string)
    requires Forgets(before, r) && IsOldest(r, oldest)
    ensures Forgets(before, r - {oldest}) && |r - {oldest}| == |r| - 1
  {
    assert (r - {oldest}).Keys == r.Keys - {oldest};
    assert |r.Keys - {oldest}| == |r.Keys| - 1;
  }
}
