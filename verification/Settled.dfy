/** What a worker's final write fixes, and what a cancel does not. */
module Settled {
  import opened Options
  import opened Jobs
  import opened Protocol
  import opened Ownership

  /** A row in a terminal state that no worker, queue or sender still holds. */
  ghost predicate IsSettled(s: State, j: JobId) { j in s.rows && !s.rows[j].state.Active() && !Owned(s, j) }

  predicate Retries(step: Step, j: JobId) { step.Serve? && step.request.Retry? && step.request.id == j }

  lemma FinalWriteSettles(s: State, w: Worker, now: string)
    requires Inv(s) && CanWork(s, w, FinalWrite(now)) && s.At(w).job in s.rows
    ensures IsSettled(AfterWork(s, w, FinalWrite(now)), s.At(w).job)
    ensures AfterWork(s, w, FinalWrite(now)).rows[s.At(w).job] == Stamped(s.rows[s.At(w).job], s.At(w).outcome, now)
  {
    var step, j := Work(w, FinalWrite(now)), s.At(w).job;
    assert Holds(s, AtWorker(w), j);
    assert Apply(s, step) == AfterWork(s, w, FinalWrite(now));
    forall p | Holds(Apply(s, step), p, j) ensures false {
      HoldsBefore(s, step, p, j);
    }
  }

  /** Only the job's owner writes its row unconditionally, so a settled row stands still. */
  lemma SettledKept(s: State, step: Step, j: JobId)
    requires Inv(s) && Enabled(s, step) && IsSettled(s, j) && !Retries(step, j) && j in Apply(s, step).rows
    ensures IsSettled(Apply(s, step), j) && Apply(s, step).rows[j] == s.rows[j]
  {
    forall p | Holds(Apply(s, step), p, j) ensures false {
      HoldsBefore(s, step, p, j);
    }
    match step {
      case Work(w, a) =>
        assert !Holds(s, AtWorker(w), j);
        assert RowsAfter(s, w, a)[j] == s.rows[j];
      case Serve(r) => assert RowsAfterRequest(s, r)[j] == s.rows[j];
      case Crash(_, _) =>
    }
  }

  /** The state a worker writes last stays on the row, with its time stamp, through every later cancel, restart
      and step of another worker, for as long as the row is there and nobody retries the job. */
  lemma FinalWriteIsFinal(run: seq<State>, steps: seq<Step>, i: nat, k: nat, w: Worker, now: string, j: JobId)
    requires IsExecution(run, steps) && i < k < |run| && Links(run, steps, i)
    requires steps[i] == Work(w, FinalWrite(now)) && run[i].At(w).job == j
    requires forall m :: i <= m <= k ==> j in run[m].rows
    requires forall m :: i < m < k ==> !Retries(steps[m], j)
    ensures run[k].rows[j] == Stamped(run[i].rows[j], run[i].At(w).outcome, now)
  {
    InvAlways(run, steps, i);
    assert Links(run, steps, i);
    FinalWriteSettles(run[i], w, now);
    SettledThroughout(run, steps, i + 1, k, j);
  }

  lemma {:induction false} SettledThroughout(run: seq<State>, steps: seq<Step>, i: nat, k: nat, j: JobId)
    requires IsExecution(run, steps) && i <= k < |run| && IsSettled(run[i], j)
    requires forall m :: i <= m <= k ==> j in run[m].rows
    requires forall m :: i <= m < k ==> !Retries(steps[m], j)
    ensures IsSettled(run[k], j) && run[k].rows[j] == run[i].rows[j]
    decreases k
  {
    if i < k {
      SettledThroughout(run, steps, i, k - 1, j);
      SettledNext(run, steps, k - 1, j);
    }
  }

  lemma SettledNext(run: seq<State>, steps: seq<Step>, m: nat, j: JobId)
    requires IsExecution(run, steps) && m < |steps| && IsSettled(run[m], j)
    requires j in run[m + 1].rows && !Retries(steps[m], j)
    ensures IsSettled(run[m + 1], j) && run[m + 1].rows[j] == run[m].rows[j]
  {
    InvAlways(run, steps, m);
    assert Links(run, steps, m);
    SettledKept(run[m], steps[m], j);
  }

  // ---- Cancelling a job that has not started ----

  /** The worker has read the row, its context is alive, and `running` is its next write. */
  predicate AboutToStart(s: State, w: Worker, j: JobId) {
    s.At(w).Loaded? && s.At(w).job == j && CanWork(s, w, MarkRunning("")) && CanWrite(s, w)
  }

  ghost predicate Stopped(s: State, j: JobId) {
    && j in s.seen
    && (j in s.rows ==> !s.rows[j].state.Active())
    && (forall w :: !AboutToStart(s, w, j))
  }

  /** The step is a `running` write for j that takes effect. */
  predicate StartsJob(s: State, step: Step, j: JobId) {
    step.Work? && step.action.MarkRunning? && AboutToStart(s, step.worker, j)
  }

  lemma StoppedKept(s: State, step: Step, j: JobId)
    requires Inv(s) && Stopped(s, j) && Enabled(s, step) && !Retries(step, j)
    ensures Stopped(Apply(s, step), j)
  {
    var s' := Apply(s, step);
    SeenGrows(s, step, j);
    if j in s'.rows {
      RowBefore(s, step, j);
      if j !in s.rows { IntroducedIsNew(s, step); }
    }
    StoppedRowKept(s, step, j);
    forall w | AboutToStart(s', w, j) ensures false {
      assert Holds(s', AtWorker(w), j);
      HoldsBefore(s, step, AtWorker(w), j);
      StillNotStarting(s, step, w, j);
    }
  }

  lemma IntroducedIsNew(s: State, step: Step)
    requires Enabled(s, step) && Introduced(step).Some?
    ensures Introduced(step).value.0 !in s.seen || Retries(step, Introduced(step).value.0)
  {
  }

  lemma StoppedRowKept(s: State, step: Step, j: JobId)
    requires Inv(s) && Stopped(s, j) && Enabled(s, step) && !Retries(step, j)
    requires j in Apply(s, step).rows ==> j in s.rows
    ensures j in Apply(s, step).rows ==> !Apply(s, step).rows[j].state.Active()
  {
    match step {
      case Work(w, a) => assert !AboutToStart(s, w, j);
      case Serve(r) => assert AfterRequest(s, r).rows == RowsAfterRequest(s, r);
      case Crash(_, _) =>
    }
  }

  lemma StillNotStarting(s: State, step: Step, w: Worker, j: JobId)
    requires Inv(s) && Stopped(s, j) && Enabled(s, step) && !Retries(step, j)
    requires j in Apply(s, step).rows ==> j in s.rows
    ensures !AboutToStart(Apply(s, step), w, j)
  {
    assert !AboutToStart(s, w, j);
    match step {
      case Work(v, a) => StillNotStartingWork(s, v, a, w, j);
      case Serve(r) =>
      case Crash(_, _) =>
    }
  }

  lemma StillNotStartingWork(s: State, v: Worker, a: Action, w: Worker, j: JobId)
    requires Inv(s) && Stopped(s, j) && CanWork(s, v, a)
    requires j in AfterWork(s, v, a).rows ==> j in s.rows
    ensures !AboutToStart(AfterWork(s, v, a), w, j)
  {
    if v == w {
      OwnReadFindsItStopped(s, w, a, j);
    } else {
      assert !AboutToStart(s, w, j);
      assert AfterWork(s, v, a).At(w) == s.At(w);
    }
  }

  lemma OwnReadFindsItStopped(s: State, w: Worker, a: Action, j: JobId)
    requires Inv(s) && Stopped(s, j) && CanWork(s, w, a)
    ensures !(NextPc(s, w, a).Loaded? && NextPc(s, w, a).job == j)
  {
    if a.GetJob? && s.At(w).job == j { assert Holds(s, AtWorker(w), j); }
  }

  lemma {:induction false} StoppedThroughout(run: seq<State>, steps: seq<Step>, i: nat, j: JobId)
    requires IsRun(run, steps) && Inv(run[0]) && Stopped(run[0], j) && i < |run|
    requires forall m :: 0 <= m < |steps| ==> !Retries(steps[m], j)
    ensures Inv(run[i]) && Stopped(run[i], j)
    decreases i
  {
    if i > 0 {
      StoppedThroughout(run, steps, i - 1, j);
      assert Links(run, steps, i - 1);
      InvKept(run[i - 1], steps[i - 1]);
      StoppedKept(run[i - 1], steps[i - 1], j);
    }
  }

  /** A run from s, without a retry of j, whose last step starts j. */
  ghost predicate StartsLater(s: State, run: seq<State>, steps: seq<Step>, j: JobId) {
    && IsRun(run, steps) && run[0] == s && |steps| > 0
    && (forall m :: 0 <= m < |steps| ==> !Retries(steps[m], j))
    && StartsJob(run[|steps| - 1], steps[|steps| - 1], j)
  }

  /** A cancelled row can still be overwritten by `running`, and this says exactly when: when a live worker had read
      the row before the cancel. In every other reachable state the cancel holds until a retry. */
  lemma CancelledJobStartsIff(run: seq<State>, steps: seq<Step>, i: nat, j: JobId)
    requires IsExecution(run, steps) && i < |run| && j in run[i].rows && run[i].rows[j].state == Cancelled
    ensures (exists later: seq<State>, actions: seq<Step> :: StartsLater(run[i], later, actions, j))
       <==> (exists w :: AboutToStart(run[i], w, j))
  {
    var s := run[i];
    InvAlways(run, steps, i);
    if w :| AboutToStart(s, w, j) {
      var step := Work(w, MarkRunning(""));
      assert StartsLater(s, [s, Apply(s, step)], [step], j);
    }
    forall later: seq<State>, actions: seq<Step> | StartsLater(s, later, actions, j)
      ensures exists w :: AboutToStart(s, w, j)
    {
      assert AboutToStart(later[|actions| - 1], actions[|actions| - 1].worker, j);
      if !exists w :: AboutToStart(s, w, j) { StoppedThroughout(later, actions, |actions| - 1, j); }
    }
  }

  lemma Extend(run: seq<State>, steps: seq<Step>, step: Step) returns (run': seq<State>, steps': seq<Step>)
    requires IsExecution(run, steps) && Enabled(run[|steps|], step)
    ensures IsExecution(run', steps') && run' == run + [Apply(run[|steps|], step)] && steps' == steps + [step]
  {
    run', steps' := run + [Apply(run[|steps|], step)], steps + [step];
    assert run'[0] == run[0];
    forall i | 0 <= i < |steps'| ensures Links(run', steps', i) {
      if i < |steps| { assert Links(run, steps, i); }
    }
  }

  /** A state in which nothing but this one job and this one worker matter. */
  predicate Solo(s: State, w: Worker, pc: Pc, j: JobId, row: Job) {
    s.At(w) == pc && s.rows == map[j := row] && s.dead == {} && s.gone == {} && s.stopped == {}
  }

  const FRESH := Job(Rip, Queued, 0, None, "", "", 0)

  /** A disc is stored and a rip of it submitted. */
  lemma Submitted(w: Worker, j: JobId) returns (run: seq<State>, steps: seq<Step>)
    requires w.DriveWorker?
    ensures IsExecution(run, steps) && |steps| == 2
    ensures Solo(run[2], w, Idle, j, FRESH)
    ensures run[2].sends == map[0 := Send(w.Queue(), j, false)] && run[2].queues == map[]
  {
    run, steps := [Initial("spool", {"DVD"})], [];
    run, steps := Extend(run, steps, Serve(StoreDisc(0, "DVD")));
    assert run[1].HasHandler(FRESH.disc);
    run, steps := Extend(run, steps, Serve(Submit(0, w.drive, j, FRESH)));
  }

  /** It is sent to the queue of its drive. */
  lemma Sent(w: Worker, j: JobId) returns (run: seq<State>, steps: seq<Step>)
    requires w.DriveWorker?
    ensures IsExecution(run, steps) && |steps| == 4
    ensures Solo(run[4], w, Idle, j, FRESH) && run[4].Queue(w.Queue()) == [j]
  {
    run, steps := Submitted(w, j);
    run, steps := Extend(run, steps, Serve(FindQueue(0)));
    assert Solo(run[3], w, Idle, j, FRESH) && run[3].Queue(w.Queue()) == [];
    assert run[3].sends == map[0 := Send(w.Queue(), j, true)];
    run, steps := Extend(run, steps, Serve(SendJob(0)));
  }

  /** A drive worker pops and registers it ... */
  lemma Registered(w: Worker, j: JobId) returns (run: seq<State>, steps: seq<Step>)
    requires w.DriveWorker?
    ensures IsExecution(run, steps) && |steps| == 6 && Solo(run[6], w, Protocol.Registered(j), j, FRESH)
  {
    run, steps := Sent(w, j);
    run, steps := Extend(run, steps, Work(w, Pop));
    assert Solo(run[5], w, Popped(j), j, FRESH);
    run, steps := Extend(run, steps, Work(w, Register));
  }

  /** ... and reads it, and then it is cancelled. */
  lemma CancelledAfterRead(w: Worker, j: JobId, at: string) returns (run: seq<State>, steps: seq<Step>)
    requires w.DriveWorker?
    ensures IsExecution(run, steps) && |steps| == 8 && steps[7] == Serve(CancelWrite(j, at))
    ensures Solo(run[7], w, Loaded(j, FRESH), j, FRESH)
    ensures Solo(run[8], w, Loaded(j, FRESH), j, Stamped(FRESH, Cancelled, at))
  {
    run, steps := Registered(w, j);
    run, steps := Extend(run, steps, Work(w, GetJob));
    assert Solo(run[7], w, Loaded(j, FRESH), j, FRESH);
    run, steps := Extend(run, steps, Serve(CancelWrite(j, at)));
  }

  /** The losing race does happen, whatever the times: submitted, picked up, read, cancelled, and then started all the
      same. */
  lemma CancelCanLose(at: string, later: string) returns (run: seq<State>, steps: seq<Step>, j: JobId)
    ensures IsExecution(run, steps) && |steps| == 9 && steps[7] == Serve(CancelWrite(j, at))
    ensures forall i :: 7 <= i <= 9 ==> j in run[i].rows
    ensures run[7].rows[j].state == Queued && run[8].rows[j].state == Cancelled && run[9].rows[j].state == Running
  {
    j := "0";
    var w := DriveWorker(0);
    run, steps := CancelledAfterRead(w, j, at);
    run, steps := Extend(run, steps, Work(w, MarkRunning(later)));
    assert run[9].rows == WithState(run[8].rows, j, Running, later);
  }
}
