/** Every job that says it is waiting or running is in somebody's hands: exactly which steps leave one behind, and that
    the daemon's own work can end every other. */
module Stranded {
  import opened Options
  import opened Jobs
  import opened Protocol
  import opened Ownership
  import opened Handlers

  /** Some worker still takes jobs from the queue. */
  ghost predicate Drained(s: State, q: QueueId) { exists w: Worker :: Drains(s, w, q) }

  predicate Drains(s: State, w: Worker, q: QueueId) { w.Exists() && w.Queue() == q && w !in s.gone }

  /** The queue that a job at a place is in or on its way to. */
  function Line(s: State, p: Place): Option<QueueId>
    requires p.InSend? ==> p.thread in s.sends
  {
    match p
    case InSend(t) => Some(s.sends[t].queue)
    case InQueue(q, _) => Some(q)
    case AtWorker(_) => None
    case InHandOff(_) => Some(ComputeQueue)
  }

  /** A sender that has yet to look for its queue finds it only before Close. */
  predicate Admitted(s: State, p: Place)
    requires p.InSend? ==> p.thread in s.sends
  {
    p.InSend? ==> s.sends[p.thread].found || s.sends[p.thread].queue.Pool() !in s.stopped
  }

  ghost predicate TendedAt(s: State, p: Place, j: JobId) {
    Holds(s, p, j) && Admitted(s, p) && (Line(s, p).Some? ==> Drained(s, Line(s, p).value))
  }

  ghost predicate Tended(s: State, j: JobId) { exists p :: TendedAt(s, p, j) }

  /** An active row in nobody's hands: no worker has the job, and the queue it is in or bound for is drained by no
      worker or refuses it. */
  ghost predicate IsStranded(s: State, j: JobId) { IsActive(s.rows, j) && !Tended(s, j) }

  // ---- What strands a job ----

  /** The job is let go of: a wait or a send given up at shutdown. */
  predicate Drops(s: State, step: Step, j: JobId)
    requires Enabled(s, step)
  {
    match step
    case Work(w, AbandonPop) => s.At(w).job == j
    case Work(w, HandOffStopped) => s.At(w).child == j
    case Serve(AbandonSend(t)) => s.sends[t].job == j
    case _ => false
  }

  ghost predicate Waits(s: State, q: QueueId, j: JobId) { exists p :: Holds(s, p, j) && Line(s, p) == Some(q) }

  /** The last worker of the queue that the job waits for returns. */
  ghost predicate Deserts(s: State, step: Step, j: JobId) {
    && step.Work? && Returns(step.worker, step.action)
    && Waits(s, step.worker.Queue(), j)
    && forall v: Worker :: Drains(s, v, step.worker.Queue()) ==> v == step.worker
  }

  /** Close drops the queues before the sender has looked for its own. */
  ghost predicate ShutsOut(s: State, step: Step, j: JobId) {
    && step.Serve? && step.request.Stop?
    && exists t :: Bound(s, t, j) && !s.sends[t].found && s.sends[t].queue.Pool() == step.request.pool
  }

  predicate Bound(s: State, t: nat, j: JobId) { Holds(s, InSend(t), j) }

  /** The job is put on its way to a queue that all workers have left or that Close has dropped. */
  ghost predicate ComesLate(s: State, step: Step, j: JobId) {
    match step
    case Work(_, CreateChild(c)) => c == j && !Drained(s, ComputeQueue)
    case Serve(Submit(_, d, id, _)) => id == j && (DrivePool in s.stopped || !Drained(s, DriveQueue(d)))
    case Serve(Retry(_, id)) => id == j && !Drained(s, ComputeQueue)
    case _ => false
  }

  ghost predicate Abandons(s: State, step: Step, j: JobId)
    requires Enabled(s, step)
  {
    Drops(s, step, j) || Deserts(s, step, j) || ShutsOut(s, step, j) || ComesLate(s, step, j)
  }

  /** Where a job is after the step if it is still anywhere. */
  function Destination(s: State, step: Step, p: Place): Place
    requires Enabled(s, step)
  {
    match step
    case Serve(SendJob(t)) => if p == InSend(t) then InQueue(s.sends[t].queue, |s.Queue(s.sends[t].queue)|) else p
    case Work(w, Pop) =>
      if p == InQueue(w.Queue(), 0) then AtWorker(w)
      else if p.InQueue? && p.queue == w.Queue() && p.index > 0 then InQueue(p.queue, p.index - 1) else p
    case Work(w, HandOff) => if p == InHandOff(w) then InQueue(ComputeQueue, |s.Queue(ComputeQueue)|) else p
    case _ => p
  }

  /** The steps after which the worker at p has done its last write for j or found it cancelled. */
  predicate Concludes(s: State, step: Step, p: Place)
    requires Enabled(s, step)
  {
    && step.Work? && p == AtWorker(step.worker)
    && (step.action.FinalWrite? || (step.action.GetJob? && NextPc(s, step.worker, step.action).Exiting?))
  }

  lemma HoldsAfter(s: State, step: Step, p: Place, j: JobId)
    requires HandlersOk(s) && Enabled(s, step) && !step.Crash?
    requires Holds(s, p, j) && !Drops(s, step, j) && !Concludes(s, step, p)
    ensures Holds(Apply(s, step), Destination(s, step, p), j)
    ensures Line(Apply(s, step), Destination(s, step, p)) in {None, Line(s, p)}
  {
    match step {
      case Work(w, a) => HoldsAfterWork(s, w, a, p, j);
      case Serve(r) =>
    }
  }

  lemma HoldsAfterWork(s: State, w: Worker, a: Action, p: Place, j: JobId)
    requires HandlersOk(s) && CanWork(s, w, a)
    requires Holds(s, p, j) && !Drops(s, Work(w, a), j) && !Concludes(s, Work(w, a), p)
    ensures Holds(AfterWork(s, w, a), Destination(s, Work(w, a), p), j)
    ensures Line(AfterWork(s, w, a), Destination(s, Work(w, a), p)) in {None, Line(s, p)}
  {
    match p {
      case InSend(_) => assert AfterWork(s, w, a).sends == s.sends;
      case InQueue(q, i) => QueuedAfterWork(s, w, a, q, i, j);
      case AtWorker(v) => HeldAfterWork(s, w, a, v, j);
      case InHandOff(v) => HandedAfterWork(s, w, a, v, j);
    }
  }

  lemma QueuedAfterWork(s: State, w: Worker, a: Action, q: QueueId, i: nat, j: JobId)
    requires CanWork(s, w, a) && Holds(s, InQueue(q, i), j)
    ensures Holds(AfterWork(s, w, a), Destination(s, Work(w, a), InQueue(q, i)), j)
    ensures Line(AfterWork(s, w, a), Destination(s, Work(w, a), InQueue(q, i))) in {None, Some(q)}
  {
    QueueAfterWork(s, w, a, q);
    PcAfterWork(s, w, a, w);
  }

  lemma HeldAfterWork(s: State, w: Worker, a: Action, v: Worker, j: JobId)
    requires HandlersOk(s) && CanWork(s, w, a) && Holds(s, AtWorker(v), j)
    requires !Drops(s, Work(w, a), j) && !Concludes(s, Work(w, a), AtWorker(v))
    ensures Holds(AfterWork(s, w, a), AtWorker(v), j)
  {
    PcAfterWork(s, w, a, v);
  }

  lemma HandedAfterWork(s: State, w: Worker, a: Action, v: Worker, j: JobId)
    requires CanWork(s, w, a) && Holds(s, InHandOff(v), j) && !Drops(s, Work(w, a), j)
    ensures Holds(AfterWork(s, w, a), Destination(s, Work(w, a), InHandOff(v)), j)
    ensures Line(AfterWork(s, w, a), Destination(s, Work(w, a), InHandOff(v))) == Some(ComputeQueue)
  {
    PcAfterWork(s, w, a, v);
    QueueAfterWork(s, w, a, ComputeQueue);
  }

  /** A worker that concludes leaves a row that is not active, unless its write goes nowhere. */
  lemma ConcludedIsInactive(s: State, step: Step, p: Place, j: JobId)
    requires Enabled(s, step) && Holds(s, p, j) && Concludes(s, step, p) && !Drops(s, step, j)
    ensures !IsActive(Apply(s, step).rows, j)
  {
  }

  /** A row that becomes active is in the hands of whoever made it so. */
  lemma ActivatedIsOwned(s: State, step: Step, j: JobId) returns (p: Place)
    requires Inv(s) && Enabled(s, step) && IsActive(Apply(s, step).rows, j) && !IsActive(s.rows, j)
    ensures Holds(Apply(s, step), p, j)
    ensures !ComesLate(s, step, j) ==> TendedAt(Apply(s, step), p, j)
  {
    match step {
      case Work(w, a) =>
        assert j in RowsAfter(s, w, a);
        PcAfterWork(s, w, a, w);
        p := if a.CreateChild? then InHandOff(w) else AtWorker(w);
        if a.CreateChild? { DrainedKept(s, step, ComputeQueue); }
      case Serve(r) =>
        assert j in RowsAfterRequest(s, r);
        p := InSend(r.thread);
        DrainedKept(s, step, AfterRequest(s, r).sends[r.thread].queue);
    }
  }

  /** A queue stops being drained only when its last worker returns, and is drained anew only after a restart. */
  lemma DrainedKept(s: State, step: Step, q: QueueId)
    requires Enabled(s, step) && !step.Crash?
    ensures Drained(Apply(s, step), q) ==> Drained(s, q)
    ensures Drained(s, q) && !Drained(Apply(s, step), q) ==>
      && step.Work? && Returns(step.worker, step.action) && q == step.worker.Queue()
      && forall v: Worker :: Drains(s, v, q) ==> v == step.worker
  {
    var s' := Apply(s, step);
    forall v: Worker | Drains(s', v, q) ensures Drains(s, v, q) {}
    forall v: Worker | Drains(s, v, q) && !Drains(s', v, q)
      ensures step.Work? && Returns(step.worker, step.action) && v == step.worker
    {}
  }

  lemma TendedAfter(s: State, step: Step, j: JobId)
    requires Inv(s) && HandlersOk(s) && Enabled(s, step)
    requires Tended(s, j) && !Abandons(s, step, j) && IsActive(Apply(s, step).rows, j)
    ensures Tended(Apply(s, step), j)
  {
    var p :| TendedAt(s, p, j);
    if Concludes(s, step, p) {
      ConcludedIsInactive(s, step, p, j);
    } else {
      HoldsAfter(s, step, p, j);
      if Line(s, p).Some? { DrainedKept(s, step, Line(s, p).value); }
      AdmittedKept(s, step, p, j);
      assert TendedAt(Apply(s, step), Destination(s, step, p), j);
    }
  }

  lemma AdmittedKept(s: State, step: Step, p: Place, j: JobId)
    requires Enabled(s, step) && !step.Crash? && Holds(s, p, j) && Admitted(s, p) && !ShutsOut(s, step, j)
    requires Holds(Apply(s, step), Destination(s, step, p), j)
    ensures Admitted(Apply(s, step), Destination(s, step, p))
  {
    if p.InSend? { assert Bound(s, p.thread, j); }
  }

  /** Where the job that a step lets go of was. */
  function DroppedFrom(s: State, step: Step): Place {
    match step
    case Work(w, a) => if a.HandOffStopped? then InHandOff(w) else AtWorker(w)
    case Serve(AbandonSend(t)) => InSend(t)
    case _ => InSend(0)   // no other step drops a job
  }

  lemma DroppedIsUnowned(s: State, step: Step, j: JobId)
    requires Inv(s) && Enabled(s, step) && Drops(s, step, j)
    ensures !Owned(Apply(s, step), j)
  {
    assert Holds(s, DroppedFrom(s, step), j);
    forall p | Holds(Apply(s, step), p, j) ensures false { HoldsBefore(s, step, p, j); }
  }

  lemma DesertedIsUntended(s: State, step: Step, j: JobId)
    requires Inv(s) && Enabled(s, step) && Deserts(s, step, j)
    ensures !Tended(Apply(s, step), j)
  {
    var s', q := Apply(s, step), step.worker.Queue();
    var p :| Holds(s, p, j) && Line(s, p) == Some(q);
    forall v: Worker | Drains(s', v, q) ensures false { assert Drains(s, v, q); }
    forall p' | Holds(s', p', j) ensures p' == p && Line(s', p') == Some(q) { HoldsBefore(s, step, p', j); }
  }

  lemma ShutOutIsUntended(s: State, step: Step, j: JobId)
    requires Inv(s) && Enabled(s, step) && ShutsOut(s, step, j)
    ensures !Tended(Apply(s, step), j)
  {
    var s' := Apply(s, step);
    var t :| Bound(s, t, j) && !s.sends[t].found && s.sends[t].queue.Pool() == step.request.pool;
    forall p | Holds(s', p, j) ensures p == InSend(t) && !Admitted(s', p) { HoldsBefore(s, step, p, j); }
  }

  lemma LateIsUntended(s: State, step: Step, j: JobId)
    requires Inv(s) && Enabled(s, step) && ComesLate(s, step, j)
    ensures !Tended(Apply(s, step), j)
  {
    var s' := Apply(s, step);
    IntroducedWasUnowned(s, step);
    forall p | Holds(s', p, j) ensures !TendedAt(s', p, j) {
      HoldsBefore(s, step, p, j);
      DrainedKept(s, step, Line(s', p).value);
    }
  }

  lemma UntendedAfter(s: State, step: Step, j: JobId)
    requires Inv(s) && Enabled(s, step) && IsStranded(s, j) && !step.Crash?
    ensures !Tended(Apply(s, step), j)
  {
    var s' := Apply(s, step);
    forall p | TendedAt(s', p, j) ensures false {
      HoldsBefore(s, step, p, j);
      var o := Origin(s, step, p);
      assert !TendedAt(s, o, j);
      LineBefore(s, step, p, j);
      DrainedKept(s, step, Line(s, o).value);
    }
  }

  /** Only a worker's pop takes a job out of its line, and then the queue is drained. */
  lemma LineBefore(s: State, step: Step, p: Place, j: JobId)
    requires Enabled(s, step) && !step.Crash? && Holds(Apply(s, step), p, j) && Introduced(step) != Some((j, p))
    requires Holds(s, Origin(s, step, p), j)
    ensures Line(Apply(s, step), p) == Line(s, Origin(s, step, p))
      || (Line(s, Origin(s, step, p)).Some? && Drained(s, Line(s, Origin(s, step, p)).value))
  {
    if step.Work? && step.action.Pop? { assert Drains(s, step.worker, step.worker.Queue()); }
  }

  /** After any step, a job is stranded exactly if its row is active and it either was stranded before or has just been
      abandoned. */
  lemma StrandedIff(s: State, step: Step, j: JobId)
    requires Inv(s) && HandlersOk(s) && Enabled(s, step)
    ensures IsStranded(Apply(s, step), j) <==>
      IsActive(Apply(s, step).rows, j) && (IsStranded(s, j) || Abandons(s, step, j))
  {
    if IsActive(Apply(s, step).rows, j) {
      if Drops(s, step, j) {
        DroppedIsUnowned(s, step, j);
      } else if Deserts(s, step, j) {
        DesertedIsUntended(s, step, j);
      } else if ShutsOut(s, step, j) {
        ShutOutIsUntended(s, step, j);
      } else if ComesLate(s, step, j) {
        LateIsUntended(s, step, j);
      } else if IsStranded(s, j) {
        UntendedAfter(s, step, j);
      } else if Tended(s, j) {
        TendedAfter(s, step, j);
      } else {
        var p := ActivatedIsOwned(s, step, j);
      }
    }
  }

  /** In every execution a stranded job was abandoned by a step since the last restart. */
  lemma {:induction false} StrandedWasAbandoned(run: seq<State>, steps: seq<Step>, i: nat, j: JobId) returns (m: nat)
    requires IsExecution(run, steps) && i < |run| && IsStranded(run[i], j)
    ensures m < i && Links(run, steps, m) && Abandons(run[m], steps[m], j)
    ensures forall k :: m <= k < i ==> !steps[k].Crash?
    decreases i
  {
    if i > 0 {
      StrandedBefore(run, steps, i - 1, j);
      if Abandons(run[i - 1], steps[i - 1], j) {
        m := i - 1;
      } else {
        m := StrandedWasAbandoned(run, steps, i - 1, j);
      }
    } else {
      NoneAtStart(run, steps, j);
    }
  }

  lemma StrandedBefore(run: seq<State>, steps: seq<Step>, i: nat, j: JobId)
    requires IsExecution(run, steps) && i < |steps| && IsStranded(run[i + 1], j)
    ensures Links(run, steps, i) && !steps[i].Crash?
    ensures IsStranded(run[i], j) || Abandons(run[i], steps[i], j)
  {
    InvAlways(run, steps, i);
    HandlersOkAlways(run, steps, i);
    assert Links(run, steps, i);
    StrandedIff(run[i], steps[i], j);
  }

  lemma NoneAtStart(run: seq<State>, steps: seq<Step>, j: JobId)
    requires IsExecution(run, steps)
    ensures !IsStranded(run[0], j)
  {
  }
}
