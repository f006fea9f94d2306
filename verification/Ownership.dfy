/** No job is ever in two places at once: every id occurs at most once among the blocked senders,
    the queues and the workers that have not made their final write. */
module Ownership {
  import opened Options
  import opened Jobs
  import opened Protocol

  /** The places a job can wait or run in. */
  datatype Place =
    | InSend(thread: nat)
    | InQueue(queue: QueueId, index: nat)
    | AtWorker(worker: Worker)
    | InHandOff(worker: Worker)   // a fresh transcode child on its way into the compute queue
  {
    /** Places on the drive side hold rips and scans, the others transcodes. */
    predicate DriveSide(s: State)
      requires InSend? ==> thread in s.sends
    {
      match this
      case InSend(t) => s.sends[t].queue.DriveQueue?
      case InQueue(q, _) => q.DriveQueue?
      case AtWorker(w) => w.DriveWorker?
      case InHandOff(_) => false
    }
  }

  predicate Holds(s: State, p: Place, j: JobId) {
    match p
    case InSend(t) => t in s.sends && s.sends[t].job == j
    case InQueue(q, i) => i < |s.Queue(q)| && s.Queue(q)[i] == j
    case AtWorker(w) => s.At(w).Owns(j)
    case InHandOff(w) => s.At(w).HandingOff? && s.At(w).child == j
  }

  ghost predicate Owned(s: State, j: JobId) { exists p :: Holds(s, p, j) }

  /** The job that a step puts into circulation, and where. */
  function Introduced(step: Step): Option<(JobId, Place)> {
    match step
    case Work(w, CreateChild(c)) => Some((c, InHandOff(w)))
    case Serve(Submit(t, _, id, _)) => Some((id, InSend(t)))
    case Serve(Retry(t, id)) => Some((id, InSend(t)))
    case _ => None
  }

  /** Where the job that is at `p` after the step was before it. */
  function Origin(s: State, step: Step, p: Place): Place
    requires Enabled(s, step)
  {
    match step
    case Serve(SendJob(t)) =>
      var q := s.sends[t].queue;
      if p == InQueue(q, |s.Queue(q)|) then InSend(t) else p
    case Work(w, Pop) =>
      if p == AtWorker(w) then InQueue(w.Queue(), 0)
      else if p.InQueue? && p.queue == w.Queue() then InQueue(p.queue, p.index + 1) else p
    case Work(w, HandOff) => if p == InQueue(ComputeQueue, |s.Queue(ComputeQueue)|) then InHandOff(w) else p
    case _ => p
  }

  /** Steps move jobs; apart from the introduced one, none appears from nowhere. */
  lemma HoldsBefore(s: State, step: Step, p: Place, j: JobId)
    requires Enabled(s, step) && Holds(Apply(s, step), p, j)
    ensures Introduced(step) == Some((j, p)) || Holds(s, Origin(s, step, p), j)
  {
    match step {
      case Work(w, a) => HoldsBeforeWork(s, w, a, p, j);
      case Serve(r) => HoldsBeforeRequest(s, r, p, j);
      case Crash(_, _) =>
    }
  }

  /** Pop and HandOff alone change a queue. */
  lemma QueueAfterWork(s: State, w: Worker, a: Action, q: QueueId)
    requires CanWork(s, w, a)
    ensures AfterWork(s, w, a).Queue(q) ==
      if a.Pop? && q == w.Queue() then s.Queue(q)[1..]
      else if a.HandOff? && q == ComputeQueue then s.Queue(q) + [s.At(w).child]
      else s.Queue(q)
  {
    assert AfterWork(s, w, a).queues == QueuesAfter(s, w, a);
  }

  lemma PcAfterWork(s: State, w: Worker, a: Action, v: Worker)
    requires CanWork(s, w, a)
    ensures AfterWork(s, w, a).At(v) == if v == w then NextPc(s, w, a) else s.At(v)
  {
  }

  lemma HoldsBeforeWork(s: State, w: Worker, a: Action, p: Place, j: JobId)
    requires CanWork(s, w, a) && Holds(AfterWork(s, w, a), p, j)
    ensures Introduced(Work(w, a)) == Some((j, p)) || Holds(s, Origin(s, Work(w, a), p), j)
  {
    match p {
      case InSend(_) => assert AfterWork(s, w, a).sends == s.sends;
      case InQueue(q, i) => QueuedBefore(s, w, a, q, i, j);
      case AtWorker(v) => HeldBefore(s, w, a, v, j);
      case InHandOff(v) => PcAfterWork(s, w, a, v);
    }
  }

  lemma QueuedBefore(s: State, w: Worker, a: Action, q: QueueId, i: nat, j: JobId)
    requires CanWork(s, w, a) && Holds(AfterWork(s, w, a), InQueue(q, i), j)
    ensures Holds(s, Origin(s, Work(w, a), InQueue(q, i)), j)
  {
    QueueAfterWork(s, w, a, q);
  }

  lemma HeldBefore(s: State, w: Worker, a: Action, v: Worker, j: JobId)
    requires CanWork(s, w, a) && Holds(AfterWork(s, w, a), AtWorker(v), j)
    ensures Holds(s, Origin(s, Work(w, a), AtWorker(v)), j)
  {
    PcAfterWork(s, w, a, v);
  }

  lemma HoldsBeforeRequest(s: State, r: Request, p: Place, j: JobId)
    requires CanServe(s, r) && Holds(AfterRequest(s, r), p, j)
    ensures Introduced(Serve(r)) == Some((j, p)) || Holds(s, Origin(s, Serve(r), p), j)
  {
  }

  /** ... and they move them apart from each other. */
  lemma OriginInjective(s: State, step: Step, p: Place, p': Place, j: JobId)
    requires Enabled(s, step) && Holds(Apply(s, step), p, j) && Holds(Apply(s, step), p', j)
    requires Introduced(step).None? || (p != Introduced(step).value.1 && p' != Introduced(step).value.1)
    ensures Origin(s, step, p) == Origin(s, step, p') ==> p == p'
  {
    match step {
      case Work(w, a) => OriginInjectiveWork(s, w, a, p, p', j);
      case Serve(_) =>
      case Crash(_, _) =>
    }
  }

  lemma OriginInjectiveWork(s: State, w: Worker, a: Action, p: Place, p': Place, j: JobId)
    requires CanWork(s, w, a) && Holds(AfterWork(s, w, a), p, j) && Holds(AfterWork(s, w, a), p', j)
    requires a.CreateChild? ==> p != InHandOff(w) && p' != InHandOff(w)
    ensures Origin(s, Work(w, a), p) == Origin(s, Work(w, a), p') ==> p == p'
  {
    if a.HandOff? { assert AfterWork(s, w, a).At(w) == NextPc(s, w, a); }
  }

  // ---- The invariant ----

  /** Rows keep the kind and spool path they were created with; only known jobs circulate, each on its side. */
  ghost predicate Known(s: State) {
    && (forall j <- s.rows :: j in s.seen && s.seen[j] == (s.rows[j].kind, s.rows[j].spoolPath))
    && (forall p, j :: Holds(s, p, j) ==> j in s.seen && (p.DriveSide(s) <==> s.seen[j].0 != Transcode))
  }

  ghost predicate Unique(s: State) {
    forall p, p', j :: Holds(s, p, j) && Holds(s, p', j) ==> p == p'
  }

  /** A row in one of these states belongs to nobody, so a retry may put it into circulation again. */
  predicate Final(state: JobState) { state.Done? || state.Failed? || state.Interrupted? }

  ghost predicate FinalUnowned(s: State) {
    forall j <- s.rows :: Final(s.rows[j].state) ==> !Owned(s, j)
  }

  ghost predicate Inv(s: State) { Known(s) && Unique(s) && FinalUnowned(s) }

  lemma IntroducedWasUnowned(s: State, step: Step)
    requires Inv(s) && Enabled(s, step) && Introduced(step).Some?
    ensures !Owned(s, Introduced(step).value.0)
  {
  }

  lemma KnownKept(s: State, step: Step)
    requires Inv(s) && Enabled(s, step)
    ensures Known(Apply(s, step))
  {
    var s' := Apply(s, step);
    forall j <- s'.rows ensures j in s'.seen && s'.seen[j] == (s'.rows[j].kind, s'.rows[j].spoolPath) {
      RowBefore(s, step, j);
      if j in s.rows { SeenGrows(s, step, j); }
    }
    forall p, j | Holds(s', p, j) ensures j in s'.seen && (p.DriveSide(s') <==> s'.seen[j].0 != Transcode) {
      HoldsBefore(s, step, p, j);
      if Introduced(step) != Some((j, p)) {
        SideKept(s, step, p, j);
        SeenGrows(s, step, j);
      }
    }
  }

  /** The row that an id had before the step, if it had one, agrees with the one it has now. */
  lemma RowBefore(s: State, step: Step, j: JobId)
    requires Known(s) && Enabled(s, step) && j in Apply(s, step).rows
    ensures j in s.rows ==> Apply(s, step).rows[j].kind == s.rows[j].kind
                            && Apply(s, step).rows[j].spoolPath == s.rows[j].spoolPath
    ensures j !in s.rows ==> j in Apply(s, step).seen && Introduced(step).Some? && Introduced(step).value.0 == j
    ensures j !in s.rows ==>
      Apply(s, step).seen[j] == (Apply(s, step).rows[j].kind, Apply(s, step).rows[j].spoolPath)
  {
    match step {
      case Work(w, a) => assert j in RowsAfter(s, w, a);
      case Serve(r) => assert j in RowsAfterRequest(s, r);
      case Crash(_, _) =>
    }
  }

  lemma SeenGrows(s: State, step: Step, j: JobId)
    requires Enabled(s, step) && j in s.seen
    ensures j in Apply(s, step).seen && (Apply(s, step).seen[j] == s.seen[j])
  {
  }

  lemma SideKept(s: State, step: Step, p: Place, j: JobId)
    requires Enabled(s, step) && Holds(Apply(s, step), p, j) && Introduced(step) != Some((j, p))
    requires Holds(s, Origin(s, step, p), j)
    ensures p.DriveSide(Apply(s, step)) == Origin(s, step, p).DriveSide(s)
  {
    match p {
      case InSend(_) =>
      case InQueue(_, _) =>
      case AtWorker(_) =>
      case InHandOff(_) =>
    }
  }

  lemma UniqueKept(s: State, step: Step)
    requires Inv(s) && Enabled(s, step)
    ensures Unique(Apply(s, step))
  {
    var s' := Apply(s, step);
    forall p, p', j | Holds(s', p, j) && Holds(s', p', j) ensures p == p' {
      HoldsBefore(s, step, p, j);
      HoldsBefore(s, step, p', j);
      if Introduced(step).Some? && Introduced(step).value.0 == j {
        IntroducedWasUnowned(s, step);
      } else {
        OriginInjective(s, step, p, p', j);
      }
    }
  }

  /** A row reaches a final state only by the write of the worker that lets go of it, or by a restart. */
  lemma BecomesFinal(s: State, step: Step, j: JobId)
    requires Inv(s) && Enabled(s, step) && j in Apply(s, step).rows && Final(Apply(s, step).rows[j].state)
    ensures || (j in s.rows && s.rows[j].state == Apply(s, step).rows[j].state)
            || step.Crash?
            || (step.Work? && s.At(step.worker).Owns(j) && !Apply(s, step).At(step.worker).Owns(j)
                && !step.action.Pop? && !step.action.HandOff?)
  {
    match step {
      case Work(w, a) =>
        assert j in RowsAfter(s, w, a);
        PcAfterWork(s, w, a, w);
      case Serve(r) => assert j in RowsAfterRequest(s, r);
      case Crash(_, _) =>
    }
  }

  lemma FinalUnownedKept(s: State, step: Step)
    requires Inv(s) && Enabled(s, step)
    ensures FinalUnowned(Apply(s, step))
  {
    var s' := Apply(s, step);
    forall j, p | j in s'.rows && Final(s'.rows[j].state) && Holds(s', p, j) ensures false {
      BecomesFinal(s, step, j);
      HoldsBefore(s, step, p, j);
      if Introduced(step) != Some((j, p)) && step.Work? && s.At(step.worker).Owns(j) {
        assert Holds(s, AtWorker(step.worker), j);
      }
    }
  }

  lemma InvKept(s: State, step: Step)
    requires Inv(s) && Enabled(s, step)
    ensures Inv(Apply(s, step))
  {
    KnownKept(s, step);
    UniqueKept(s, step);
    FinalUnownedKept(s, step);
  }

  /** Every state of every execution satisfies the invariant. */
  lemma {:induction false} InvAlways(run: seq<State>, steps: seq<Step>, i: nat)
    requires IsExecution(run, steps) && i < |run|
    ensures Inv(run[i])
    decreases i
  {
    if i > 0 {
      InvAlways(run, steps, i - 1);
      assert Links(run, steps, i - 1);
      InvKept(run[i - 1], steps[i - 1]);
    }
  }

  /** In every reachable state each id is in at most one place, in particular on at most one worker. */
  lemma OwnedAtMostOnce(run: seq<State>, steps: seq<Step>, i: nat, j: JobId, p: Place, p': Place)
    requires IsExecution(run, steps) && i < |run|
    requires Holds(run[i], p, j) && Holds(run[i], p', j)
    ensures p == p'
  {
    InvAlways(run, steps, i);
  }

  /** The compute pool never meets a job that is not a transcode: `refusing non-transcode job` is dead code. */
  lemma ComputeSeesOnlyTranscodes(run: seq<State>, steps: seq<Step>, i: nat, w: Worker)
    requires IsExecution(run, steps) && i < |run|
    requires w.ComputeWorker? && run[i].At(w).Registered? && run[i].At(w).job in run[i].rows
    ensures run[i].rows[run[i].At(w).job].kind == Transcode
  {
    InvAlways(run, steps, i);
    assert Holds(run[i], AtWorker(w), run[i].At(w).job);
  }

  // ---- No job starts twice without a retry ----

  /** Places from which a job has yet to begin. */
  predicate Waiting(s: State, p: Place) { p.AtWorker? ==> s.At(p.worker).Popped? }

  ghost predicate StartsBounded(s: State) {
    && (forall j :: Count(s.starts, j) <= 1 + Count(s.resets, j))
    && (forall p, j :: Holds(s, p, j) && Waiting(s, p) ==> Count(s.starts, j) <= Count(s.resets, j))
    && (forall j :: j !in s.seen ==> Count(s.starts, j) == 0)
    && (forall j :: Count(s.resets, j) > 0 ==> j in s.seen && s.seen[j].0 == Transcode)
  }

  lemma WaitedBefore(s: State, step: Step, p: Place, j: JobId)
    requires Enabled(s, step) && Holds(Apply(s, step), p, j) && Waiting(Apply(s, step), p)
    requires Introduced(step) != Some((j, p)) && Holds(s, Origin(s, step, p), j)
    ensures Waiting(s, Origin(s, step, p))
    ensures !(step.Work? && step.action.Register? && p == AtWorker(step.worker))
  {
  }

  lemma CountsAfter(s: State, step: Step, j: JobId)
    requires Enabled(s, step)
    ensures Count(Apply(s, step).starts, j) == Count(s.starts, j)
              + if step.Work? && step.action.Register? && s.At(step.worker).job == j then 1 else 0
    ensures Count(Apply(s, step).resets, j) == Count(s.resets, j)
              + if step.Serve? && step.request.Retry? && step.request.id == j then 1 else 0
  {
  }

  lemma StartsBoundedKept(s: State, step: Step)
    requires Inv(s) && StartsBounded(s) && Enabled(s, step)
    ensures StartsBounded(Apply(s, step))
  {
    var s' := Apply(s, step);
    forall j ensures Count(s'.starts, j) <= 1 + Count(s'.resets, j) && (j !in s'.seen ==> Count(s'.starts, j) == 0) {
      StartsAfter(s, step, j);
    }
    forall p, j | Holds(s', p, j) && Waiting(s', p) ensures Count(s'.starts, j) <= Count(s'.resets, j) {
      WaitingAfter(s, step, p, j);
    }
    forall j | Count(s'.resets, j) > 0 ensures j in s'.seen && s'.seen[j].0 == Transcode {
      CountsAfter(s, step, j);
      if Count(s.resets, j) > 0 || j in s.rows { SeenGrows(s, step, j); }
    }
  }

  lemma StartsAfter(s: State, step: Step, j: JobId)
    requires Inv(s) && StartsBounded(s) && Enabled(s, step)
    ensures Count(Apply(s, step).starts, j) <= 1 + Count(Apply(s, step).resets, j)
    ensures j !in Apply(s, step).seen ==> Count(Apply(s, step).starts, j) == 0
  {
    CountsAfter(s, step, j);
    if j in s.seen { SeenGrows(s, step, j); }
    if step.Work? && step.action.Register? && s.At(step.worker).job == j {
      assert Holds(s, AtWorker(step.worker), j);
    }
  }

  lemma WaitingAfter(s: State, step: Step, p: Place, j: JobId)
    requires Inv(s) && StartsBounded(s) && Enabled(s, step)
    requires Holds(Apply(s, step), p, j) && Waiting(Apply(s, step), p)
    ensures Count(Apply(s, step).starts, j) <= Count(Apply(s, step).resets, j)
  {
    CountsAfter(s, step, j);
    HoldsBefore(s, step, p, j);
    if Introduced(step) != Some((j, p)) {
      WaitedBefore(s, step, p, j);
      if step.Work? && step.action.Register? && s.At(step.worker).job == j {
        assert Holds(s, AtWorker(step.worker), j);
      }
    }
  }

  lemma {:induction false} StartsBoundedAlways(run: seq<State>, steps: seq<Step>, i: nat)
    requires IsExecution(run, steps) && i < |run|
    ensures StartsBounded(run[i])
    decreases i
  {
    if i > 0 {
      StartsBoundedAlways(run, steps, i - 1);
      InvAlways(run, steps, i - 1);
      assert Links(run, steps, i - 1);
      StartsBoundedKept(run[i - 1], steps[i - 1]);
    }
  }

  /** A job begins at most once more often than it was reset; a rip or scan begins at most once, ever. */
  lemma NoSecondStartWithoutRetry(run: seq<State>, steps: seq<Step>, i: nat, j: JobId)
    requires IsExecution(run, steps) && i < |run|
    ensures Count(run[i].starts, j) <= 1 + Count(run[i].resets, j)
    ensures j in run[i].seen && run[i].seen[j].0 != Transcode ==> Count(run[i].starts, j) <= 1
  {
    StartsBoundedAlways(run, steps, i);
  }
}
