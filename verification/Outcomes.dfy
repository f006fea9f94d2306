/** What a worker writes at the end is what its handler reported, told from the steps of the run alone. */
module Outcomes {
  import opened Options
  import opened Jobs
  import opened Protocol
  import opened Ownership
  import opened Handlers
  import opened SpoolRetention
  import opened Continuations

  /** What a worker's steps since its last pop say about the end of the job: nothing yet, that a child was made, that
      the rip has failed and its directory is to go, the state to be recorded, that it has been recorded, that the spool
      has been cleaned up after that, or that the job was found cancelled. */
  datatype Fate =
    | Undecided
    | Forked(child: JobId)
    | Failing(outcome: Outcome)
    | Ends(outcome: Outcome)
    | Recorded(outcome: Outcome)
    | Cleaned
    | Dropped

  /** The job that a worker has taken: the head of its queue at its last pop. */
  function NextTask(s: State, step: Step, w: Worker, task: Option<JobId>): Option<JobId> {
    match step
    case Crash(_, _) => None
    case Serve(_) => task
    case Work(v, a) =>
      if v != w then task
      else if a.Pop? then (if s.Queue(w.Queue()) == [] then None else Some(s.Queue(w.Queue())[0]))
      else if a.AbandonPop? || a.Exit? then None
      else task
  }

  /** A read or write through a context that is dead, or of a row that is gone, fails. */
  predicate Fails(s: State, w: Worker, task: Option<JobId>) { w in s.dead || task.None? || task.value !in s.rows }

  function NextFate(s: State, step: Step, w: Worker, task: Option<JobId>, fate: Fate): Fate {
    match step
    case Crash(_, _) => Undecided
    case Serve(_) => fate
    case Work(v, a) =>
      if v != w then fate
      else
        match a
        case Pop => Undecided
        case HandlerReturns(o) => Ends(o)
        case RipReturns(o) => if o == Done then fate else Failing(o)
        case CleanFailedRip(_) => if fate.Failing? then Ends(fate.outcome) else fate
        case CleanSpool(_) => Cleaned
        case CreateChild(c) => Forked(c)
        case HandOff => Ends(Done)
        case HandOffStopped => Ends(Failed)
        case ChildRefused(o) => Ends(o)
        case LookupFails => Ends(Failed)
        case MarkRunning(_) => if Fails(s, w, task) then Ends(Failed) else fate
        case GetJob =>
          if Fails(s, w, task) then Ends(Failed)
          else if s.rows[task.value].state == Cancelled then Dropped
          else fate
        case FinalWrite(_) => if fate.Ends? then Recorded(fate.outcome) else fate
        case _ => fate
  }

  ghost function TaskOf(run: seq<State>, steps: seq<Step>, i: nat, w: Worker): Option<JobId>
    requires |run| == |steps| + 1 && i < |run|
  {
    if i == 0 then None else NextTask(run[i - 1], steps[i - 1], w, TaskOf(run, steps, i - 1, w))
  }

  ghost function FateOf(run: seq<State>, steps: seq<Step>, i: nat, w: Worker): Fate
    requires |run| == |steps| + 1 && i < |run|
  {
    if i == 0 then Undecided
    else NextFate(run[i - 1], steps[i - 1], w, TaskOf(run, steps, i - 1, w), FateOf(run, steps, i - 1, w))
  }

  // ---- The worker's program counter agrees ----

  /** Recorded, for a done transcode with its spool cleaned up; or found cancelled. */
  predicate Settles(w: Worker, fate: Fate) {
    (fate.Recorded? && (w.ComputeWorker? ==> fate.outcome != Done)) || fate.Cleaned? || fate.Dropped?
  }

  ghost predicate Told(s: State, w: Worker, task: Option<JobId>, fate: Fate) {
    match s.At(w)
    case Idle => task.None?
    case HandingOff(j, c) => task == Some(j) && fate == Forked(c)
    case RipFailed(j, o) => task == Some(j) && fate == Failing(o) && o != Done
    case Finishing(j, o, spool) =>
      && task == Some(j) && fate == Ends(o)
      && (w.ComputeWorker? && o == Done ==> IsTranscode(s, j) && s.seen[j].1 == spool)
    case CleaningUp(j, spool) =>
      && task == Some(j) && fate == Recorded(Done)
      && w.ComputeWorker? && IsTranscode(s, j) && s.seen[j].1 == spool
    case Exiting(j) => task == Some(j) && Settles(w, fate)
    case _ => task == Some(s.At(w).job) && fate == Undecided
  }

  lemma ToldKept(s: State, step: Step, w: Worker, task: Option<JobId>, fate: Fate)
    requires Inv(s) && SpoolInv(s) && HandlersOk(s) && Staffed(s) && Enabled(s, step) && Told(s, w, task, fate)
    ensures Told(Apply(s, step), w, NextTask(s, step, w, task), NextFate(s, step, w, task, fate))
  {
    if step.Work? && step.worker == w {
      ToldAfterOwnStep(s, w, step.action, task, fate);
    } else if !step.Crash? {
      assert Apply(s, step).At(w) == s.At(w);
      if s.At(w).CleaningUp? || (s.At(w).Finishing? && IsTranscode(s, s.At(w).job)) {
        SeenGrows(s, step, s.At(w).job);
      }
    }
  }

  lemma ToldAfterOwnStep(s: State, w: Worker, a: Action, task: Option<JobId>, fate: Fate)
    requires Inv(s) && SpoolInv(s) && HandlersOk(s) && Staffed(s) && CanWork(s, w, a) && Told(s, w, task, fate)
    ensures Told(AfterWork(s, w, a), w, NextTask(s, Work(w, a), w, task), NextFate(s, Work(w, a), w, task, fate))
  {
    if OfRip(a) {
      ToldAfterRip(s, w, a, task, fate);
    } else {
      ToldAfterOthers(s, w, a, task, fate);
    }
  }

  /** The steps of runSplittable. */
  predicate OfRip(a: Action) {
    a.CreateSpool? || a.RipReturns? || a.CleanFailedRip? || a.CreateChild? || a.ChildRefused? || a.HandOff?
    || a.HandOffStopped?
  }

  lemma ToldAfterRip(s: State, w: Worker, a: Action, task: Option<JobId>, fate: Fate)
    requires Staffed(s) && CanWork(s, w, a) && OfRip(a) && Told(s, w, task, fate)
    ensures Told(AfterWork(s, w, a), w, NextTask(s, Work(w, a), w, task), NextFate(s, Work(w, a), w, task, fate))
  {
    PcAfterWork(s, w, a, w);
  }

  lemma ToldAfterOthers(s: State, w: Worker, a: Action, task: Option<JobId>, fate: Fate)
    requires Inv(s) && SpoolInv(s) && HandlersOk(s) && CanWork(s, w, a) && !OfRip(a) && Told(s, w, task, fate)
    ensures Told(AfterWork(s, w, a), w, NextTask(s, Work(w, a), w, task), NextFate(s, Work(w, a), w, task, fate))
  {
    PcAfterWork(s, w, a, w);
    match a {
      case FinalWrite(_) => ToldAfterFinalWrite(s, w, a, task, fate);
      case GetJob => ToldAfterGetJob(s, w, task, fate);
      case HandlerReturns(o) => ToldAfterHandler(s, w, o, task, fate);
      case _ =>
    }
  }

  lemma ToldAfterFinalWrite(s: State, w: Worker, a: Action, task: Option<JobId>, fate: Fate)
    requires Inv(s) && SpoolInv(s) && CanWork(s, w, a) && a.FinalWrite? && Told(s, w, task, fate)
    ensures Told(AfterWork(s, w, a), w, NextTask(s, Work(w, a), w, task), NextFate(s, Work(w, a), w, task, fate))
  {
    PcAfterWork(s, w, a, w);
    assert PcOk(s, w) && Holds(s, AtWorker(w), s.At(w).job);
  }

  lemma ToldAfterHandler(s: State, w: Worker, o: Outcome, task: Option<JobId>, fate: Fate)
    requires Inv(s) && SpoolInv(s) && CanWork(s, w, HandlerReturns(o)) && Told(s, w, task, fate)
    ensures Told(AfterWork(s, w, HandlerReturns(o)), w, NextTask(s, Work(w, HandlerReturns(o)), w, task),
                 NextFate(s, Work(w, HandlerReturns(o)), w, task, fate))
  {
    PcAfterWork(s, w, HandlerReturns(o), w);
    assert PcOk(s, w) && Holds(s, AtWorker(w), s.At(w).job);
  }

  lemma ToldAfterGetJob(s: State, w: Worker, task: Option<JobId>, fate: Fate)
    requires Inv(s) && CanWork(s, w, GetJob) && Told(s, w, task, fate)
    ensures Told(AfterWork(s, w, GetJob), w, NextTask(s, Work(w, GetJob), w, task),
                 NextFate(s, Work(w, GetJob), w, task, fate))
  {
    PcAfterWork(s, w, GetJob, w);
    assert Holds(s, AtWorker(w), s.At(w).job);
  }

  lemma Reached(run: seq<State>, steps: seq<Step>, i: nat)
    requires IsExecution(run, steps) && i < |steps|
    ensures Inv(run[i]) && SpoolInv(run[i]) && HandlersOk(run[i]) && Staffed(run[i])
    ensures Enabled(run[i], steps[i]) && run[i + 1] == Apply(run[i], steps[i])
  {
    SpoolInvAlways(run, steps, i);
    HandlersOkAlways(run, steps, i);
    StaffedAlways(run, steps, i);
    assert Links(run, steps, i);
  }

  lemma {:induction false} ToldAlways(run: seq<State>, steps: seq<Step>, i: nat, w: Worker)
    requires IsExecution(run, steps) && i < |run|
    ensures Told(run[i], w, TaskOf(run, steps, i, w), FateOf(run, steps, i, w))
    decreases i
  {
    if i > 0 {
      ToldAlways(run, steps, i - 1, w);
      Reached(run, steps, i - 1);
      ToldKept(run[i - 1], steps[i - 1], w, TaskOf(run, steps, i - 1, w), FateOf(run, steps, i - 1, w));
    }
  }

  // ---- Main results ----

  /** In every execution, a final write puts on the row of the job that the worker popped exactly the state that its
      last report decided, with the time, and changes no other row. */
  lemma FinalWriteRecords(run: seq<State>, steps: seq<Step>, i: nat, w: Worker, now: string)
    requires IsExecution(run, steps) && i < |steps| && steps[i] == Work(w, FinalWrite(now))
    ensures TaskOf(run, steps, i, w).Some? && FateOf(run, steps, i, w).Ends?
    ensures var j, rows := TaskOf(run, steps, i, w).value, run[i].rows;
      run[i + 1].rows == if j in rows
        then rows[j := rows[j].(state := FateOf(run, steps, i, w).outcome, finishedAt := now)] else rows
  {
    assert Links(run, steps, i);
    ToldAlways(run, steps, i, w);
  }

  /** A job that is neither found cancelled nor failed in the read is marked running, and no other row changes. */
  lemma StartRecords(run: seq<State>, steps: seq<Step>, i: nat, w: Worker, now: string)
    requires IsExecution(run, steps) && i < |steps| && steps[i] == Work(w, MarkRunning(now))
    ensures TaskOf(run, steps, i, w).Some?
    ensures var j, rows := TaskOf(run, steps, i, w).value, run[i].rows;
      run[i + 1].rows == if Fails(run[i], w, Some(j)) then rows else rows[j := rows[j].(state := Running)]
  {
    assert Links(run, steps, i);
    ToldAlways(run, steps, i, w);
  }

  /** The rip's directory is made under its own id ... */
  lemma SpoolRecords(run: seq<State>, steps: seq<Step>, i: nat, w: Worker)
    requires IsExecution(run, steps) && i < |steps| && steps[i] == Work(w, CreateSpool)
    ensures TaskOf(run, steps, i, w).Some? && run[i + 1].disk == run[i].disk + {TaskOf(run, steps, i, w).value}
  {
    assert Links(run, steps, i);
    ToldAlways(run, steps, i, w);
  }

  /** ... its child is a queued transcode of the same disc that points to this directory ... */
  lemma ChildRecords(run: seq<State>, steps: seq<Step>, i: nat, w: Worker, c: JobId)
    requires IsExecution(run, steps) && i < |steps| && steps[i] == Work(w, CreateChild(c))
    ensures TaskOf(run, steps, i, w).Some? && TaskOf(run, steps, i, w).value in run[i].rows && c !in run[i].rows
    ensures var j, rows := TaskOf(run, steps, i, w).value, run[i].rows;
      run[i + 1].rows == rows[c := Job(Transcode, Queued, rows[j].disc, Some(j), run[i].root + "/" + j, "", 0)]
  {
    assert Links(run, steps, i);
    ToldAlways(run, steps, i, w);
    InvAlways(run, steps, i);
  }

  /** ... and that child is what the worker puts at the end of the compute queue. */
  lemma HandOffSends(run: seq<State>, steps: seq<Step>, i: nat, w: Worker)
    requires IsExecution(run, steps) && i < |steps| && steps[i] == Work(w, HandOff)
    ensures FateOf(run, steps, i, w).Forked?
    ensures run[i + 1].Queue(ComputeQueue) == run[i].Queue(ComputeQueue) + [FateOf(run, steps, i, w).child]
  {
    assert Links(run, steps, i);
    ToldAlways(run, steps, i, w);
    QueueAfterWork(run[i], w, HandOff, ComputeQueue);
  }

  /** A failed rip's directory is removed before the failure is recorded, and a done transcode's after that. */
  lemma CleanupRecords(run: seq<State>, steps: seq<Step>, i: nat, w: Worker)
    requires IsExecution(run, steps) && i < |steps| && TaskOf(run, steps, i, w).Some?
    ensures steps[i] == Work(w, CleanFailedRip(true)) ==>
      FateOf(run, steps, i, w).Failing? && run[i + 1].disk == run[i].disk - {TaskOf(run, steps, i, w).value}
    ensures steps[i] == Work(w, CleanSpool(true)) ==>
      && FateOf(run, steps, i, w) == Recorded(Done) && TaskOf(run, steps, i, w).value in run[i].seen
      && run[i + 1].disk == run[i].disk - {BasenameOf(run[i].seen[TaskOf(run, steps, i, w).value].1)}
  {
    assert Links(run, steps, i);
    ToldAlways(run, steps, i, w);
  }

  /** A worker is done with a job only when its outcome is on the row and the spool of a done transcode cleaned up, or
      when it found the row cancelled. */
  lemma ExitMeansSettled(run: seq<State>, steps: seq<Step>, i: nat, w: Worker)
    requires IsExecution(run, steps) && i < |steps| && steps[i] == Work(w, Exit)
    ensures TaskOf(run, steps, i, w).Some? && Settles(w, FateOf(run, steps, i, w))
  {
    assert Links(run, steps, i);
    ToldAlways(run, steps, i, w);
  }

  /** No pop of the worker and no restart since step m. */
  predicate SameTask(steps: seq<Step>, m: nat, i: nat, w: Worker) {
    forall k :: m <= k < i && k < |steps| ==> !steps[k].Crash? && steps[k] != Work(w, Pop)
  }

  predicate Delivers(step: Step, w: Worker) {
    step == Work(w, HandlerReturns(Done)) || (w.DriveWorker? && step == Work(w, HandOff))
  }

  /** `done` is decided by a handler that returned without an error or, for a rip, by its own hand-over; by nothing
      else, and for the same job. */
  lemma {:induction false} DoneMeansDelivered(run: seq<State>, steps: seq<Step>, i: nat, w: Worker) returns (m: nat)
    requires IsExecution(run, steps) && i < |run|
    requires FateOf(run, steps, i, w) == Ends(Done) || FateOf(run, steps, i, w) == Recorded(Done)
    ensures m < i && Delivers(steps[m], w) && SameTask(steps, m, i, w)
    decreases i
  {
    var step := steps[i - 1];
    if Delivers(step, w) {
      m := i - 1;
    } else {
      DoneDecidedBefore(run, steps, i - 1, w);
      m := DoneMeansDelivered(run, steps, i - 1, w);
    }
  }

  lemma DoneDecidedBefore(run: seq<State>, steps: seq<Step>, i: nat, w: Worker)
    requires IsExecution(run, steps) && i < |steps| && !Delivers(steps[i], w)
    requires FateOf(run, steps, i + 1, w) == Ends(Done) || FateOf(run, steps, i + 1, w) == Recorded(Done)
    ensures FateOf(run, steps, i, w) == Ends(Done) || FateOf(run, steps, i, w) == Recorded(Done)
    ensures !steps[i].Crash? && steps[i] != Work(w, Pop)
  {
    assert Links(run, steps, i);
    StaffedAlways(run, steps, i);
    ToldAlways(run, steps, i, w);
  }

  /** What the handler reports is what gets recorded: nothing that the worker does before its final write changes it. */
  lemma {:induction false} ReportStays(run: seq<State>, steps: seq<Step>, m: nat, i: nat, w: Worker, o: Outcome)
    requires IsExecution(run, steps) && m < i < |run| && SameTask(steps, m, i, w)
    requires steps[m] == Work(w, HandlerReturns(o)) || (o != Done && steps[m] == Work(w, RipReturns(o)))
    requires forall k :: m < k < i ==> !(steps[k].Work? && steps[k].worker == w && steps[k].action.FinalWrite?)
    ensures FateOf(run, steps, i, w) == Ends(o) || (o != Done && FateOf(run, steps, i, w) == Failing(o))
    decreases i
  {
    if m + 1 < i {
      ReportStays(run, steps, m, i - 1, w, o);
      assert Links(run, steps, i - 1);
      ToldAlways(run, steps, i - 1, w);
    }
  }

  /** A directory leaves the disk by a restart, with a deleted transcode, after its rip's own failure, or after its
      transcode was recorded as done. */
  lemma DirectoryLeaves(run: seq<State>, steps: seq<Step>, i: nat, dir: string)
    requires IsExecution(run, steps) && i < |steps| && dir in run[i].disk && dir !in run[i + 1].disk
    ensures match steps[i]
      case Crash(_, _) => true
      case Serve(r) => r.CleanDeleted?
      case Work(w, a) =>
        var task, fate := TaskOf(run, steps, i, w), FateOf(run, steps, i, w);
        && task.Some?
        && ((fate.Failing? && fate.outcome != Done && task == Some(dir))
            || (fate == Recorded(Done) && w.ComputeWorker? && task.value in run[i].seen
                && dir == BasenameOf(run[i].seen[task.value].1)))
  {
    assert Links(run, steps, i);
    if steps[i].Work? {
      ToldAlways(run, steps, i, steps[i].worker);
      assert run[i + 1].disk == DiskAfter(run[i], steps[i].worker, steps[i].action);
    } else if steps[i].Serve? {
      assert run[i + 1].disk == AfterRequest(run[i], steps[i].request).disk;
    }
  }
}
