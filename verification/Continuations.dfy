/** From every reachable state the daemon's own work can bring each active job to an end, unless the job is stranded. */
module Continuations {
  import opened Options
  import opened Jobs
  import opened Protocol
  import opened Ownership
  import opened Handlers
  import opened Stranded

  // ---- Continuations ----

  ghost predicate Leads(s: State, steps: seq<Step>, s': State)
    decreases |steps|
  {
    if steps == [] then s' == s else Enabled(s, steps[0]) && Leads(Apply(s, steps[0]), steps[1..], s')
  }

  /** A step of a worker, or of a request that is sending its job: no cancel, deletion, restart or new request. */
  predicate OwnWork(step: Step) { step.Work? || (step.Serve? && (step.request.FindQueue? || step.request.SendJob?)) }

  predicate Ended(s: State, j: JobId) { j in s.rows && !IsActive(s.rows, j) }

  // ---- What workers rely on ----

  predicate OnDriveSide(pc: Pc) { pc.Ripping? || pc.RipFailed? || pc.Ripped? || pc.HandingOff? }

  /** Only stopped pools lose workers, and only idle ones; only drive workers hand over; no queue overflows. */
  ghost predicate Staffed(s: State) {
    && (forall w <- s.gone :: s.At(w).Idle? && w.Queue().Pool() in s.stopped)
    && (forall w: Worker :: !s.At(w).Idle? ==> w.Exists())
    && (forall w: Worker :: OnDriveSide(s.At(w)) ==> w.DriveWorker?)
    && (forall q: QueueId :: |s.Queue(q)| <= QUEUE_CAPACITY)
  }

  lemma StaffedKept(s: State, step: Step)
    requires Staffed(s) && Enabled(s, step)
    ensures Staffed(Apply(s, step))
  {
    match step {
      case Work(w, a) => StaffedAfterWork(s, w, a);
      case Serve(r) =>
        forall q: QueueId ensures |AfterRequest(s, r).Queue(q)| <= QUEUE_CAPACITY {
          assert AfterRequest(s, r).queues == QueuesAfterRequest(s, r) && |s.Queue(q)| <= QUEUE_CAPACITY;
        }
      case Crash(_, _) =>
    }
  }

  lemma StaffedAfterWork(s: State, w: Worker, a: Action)
    requires Staffed(s) && CanWork(s, w, a)
    ensures Staffed(AfterWork(s, w, a))
  {
    var s' := AfterWork(s, w, a);
    forall v: Worker ensures s'.At(v) == if v == w then NextPc(s, w, a) else s.At(v) {}
    forall q: QueueId ensures |s'.Queue(q)| <= QUEUE_CAPACITY {
      QueueAfterWork(s, w, a, q);
      assert |s.Queue(q)| <= QUEUE_CAPACITY;
    }
  }

  lemma {:induction false} StaffedAlways(run: seq<State>, steps: seq<Step>, i: nat)
    requires IsExecution(run, steps) && i < |run|
    ensures Staffed(run[i])
    decreases i
  {
    if i > 0 {
      StaffedAlways(run, steps, i - 1);
      assert Links(run, steps, i - 1);
      StaffedKept(run[i - 1], steps[i - 1]);
    }
  }

  // ---- While the daemon runs ----

  /** While neither pool is being closed, the one step that abandons a job is a Close that begins before its sender has
      found the queue ... */
  lemma AbandonedWhileOpenIff(run: seq<State>, steps: seq<Step>, i: nat, j: JobId)
    requires IsExecution(run, steps) && i < |steps| && run[i].stopped == {} && Links(run, steps, i)
    ensures Abandons(run[i], steps[i], j) <==> ShutsOut(run[i], steps[i], j)
  {
    StaffedAlways(run, steps, i);
    forall d: nat ensures Drained(run[i], DriveQueue(d)) { assert Drains(run[i], DriveWorker(d), DriveQueue(d)); }
    assert Drains(run[i], ComputeWorker(0), ComputeQueue);
  }

  lemma {:induction false} StoppedGrows(run: seq<State>, steps: seq<Step>, m: nat, i: nat)
    requires IsExecution(run, steps) && m <= i < |run| && forall k :: m <= k < i ==> !steps[k].Crash?
    ensures run[m].stopped <= run[i].stopped
    decreases i
  {
    if m < i {
      StoppedGrows(run, steps, m, i - 1);
      assert Links(run, steps, i - 1);
    }
  }

  /** ... so in every execution, over any number of restarts, every job that says it is waiting or running is in
      somebody's hands until a Close begins. */
  lemma NoneStrandedWhileOpen(run: seq<State>, steps: seq<Step>, i: nat, j: JobId)
    requires IsExecution(run, steps) && i < |run| && run[i].stopped == {}
    ensures !IsStranded(run[i], j)
  {
    if IsStranded(run[i], j) {
      var m := StrandedWasAbandoned(run, steps, i, j);
      StoppedGrows(run, steps, m, i);
      AbandonedWhileOpenIff(run, steps, m, j);
      assert run[m + 1].stopped == run[m].stopped + {steps[m].request.pool};
      StoppedGrows(run, steps, m + 1, i);
    }
  }

  // ---- One worker at a time ----

  /** How many steps a worker is from being idle, at most. */
  function Rank(pc: Pc): nat {
    match pc
    case Idle => 0
    case Popped(_) => 6
    case Registered(_) => 5
    case Loaded(_, _) => 4
    case Started(_, _) => 4
    case Ripping(_) => 5
    case RipFailed(_, _) => 4
    case Ripped(_) => 4
    case HandingOff(_, _) => 4
    case Finishing(_, _, _) => 3
    case CleaningUp(_, _) => 2
    case Exiting(_) => 1
  }

  predicate Room(s: State, q: QueueId) { |s.Queue(q)| < QUEUE_CAPACITY }

  predicate Blocked(s: State, w: Worker) {
    s.At(w).HandingOff? && !Room(s, ComputeQueue) && ComputePool !in s.stopped
  }

  /** A step that brings a busy worker closer to being idle. */
  function Onward(s: State, w: Worker): Action
    requires !s.At(w).Idle?
  {
    match s.At(w)
    case Popped(_) => Register
    case Registered(_) => GetJob
    case Loaded(_, _) => LookupFails
    case Started(_, _) => HandlerReturns(Failed)
    case Ripping(_) => RipReturns(Failed)
    case RipFailed(_, _) => CleanFailedRip(true)
    case Ripped(_) => ChildRefused(Failed)
    case HandingOff(_, _) => if Room(s, ComputeQueue) then HandOff else HandOffStopped
    case Finishing(_, _, _) => FinalWrite("")
    case CleaningUp(_, _) => CleanSpool(true)
    case Exiting(_) => Exit
  }

  lemma OnwardEnabled(s: State, w: Worker)
    requires !s.At(w).Idle? && !Blocked(s, w)
    ensures CanWork(s, w, Onward(s, w)) && !Returns(w, Onward(s, w)) && !Onward(s, w).Pop?
    ensures Rank(NextPc(s, w, Onward(s, w))) < Rank(s.At(w))
  {
  }

  lemma OnwardWorks(s: State, w: Worker)
    requires Staffed(s) && !s.At(w).Idle? && !Blocked(s, w)
    ensures CanWork(s, w, Onward(s, w)) && !Returns(w, Onward(s, w))
    ensures var s' := AfterWork(s, w, Onward(s, w));
      && Rank(s'.At(w)) < Rank(s.At(w))
      && (forall v: Worker :: v != w ==> s'.At(v) == s.At(v))
      && s'.gone == s.gone && s'.stopped == s.stopped
      && (forall q: QueueId :: w.ComputeWorker? || q != ComputeQueue ==> s'.Queue(q) == s.Queue(q))
  {
    OnwardEnabled(s, w);
    var s' := AfterWork(s, w, Onward(s, w));
    assert s'.At(w) == NextPc(s, w, Onward(s, w));
    forall q: QueueId | w.ComputeWorker? || q != ComputeQueue ensures s'.Queue(q) == s.Queue(q) {
      QueueAfterWork(s, w, Onward(s, w), q);
    }
  }

  lemma PopWorks(s: State, w: Worker)
    requires s.At(w).Idle? && w.Exists() && w !in s.gone && s.Queue(w.Queue()) != []
    ensures CanWork(s, w, Pop)
    ensures var s' := AfterWork(s, w, Pop);
      && (forall v: Worker :: v != w ==> s'.At(v) == s.At(v))
      && s'.gone == s.gone && s'.stopped == s.stopped
      && |s'.Queue(w.Queue())| == |s.Queue(w.Queue())| - 1
      && (forall q: QueueId :: q != w.Queue() ==> s'.Queue(q) == s.Queue(q))
  {
    forall q: QueueId ensures q != w.Queue() ==> AfterWork(s, w, Pop).Queue(q) == s.Queue(q) {
      QueueAfterWork(s, w, Pop, q);
    }
    QueueAfterWork(s, w, Pop, w.Queue());
  }

  // ---- The next step towards the end of a job ----

  /** d is the worker that has the job, or one that drains its queue. */
  predicate Handler(s: State, p: Place, j: JobId, d: Worker) {
    && Holds(s, p, j) && Admitted(s, p)
    && match Line(s, p)
       case None => p == AtWorker(d)
       case Some(q) => Drains(s, d, q)
  }

  predicate Outside(p: Place) { p.InSend? || p.InHandOff? }

  const HELPER := ComputeWorker(0)

  /** A sender that has not looked for its queue. */
  predicate Entering(s: State, p: Place) { p.InSend? && p.thread in s.sends && !s.sends[p.thread].found }

  /** Find the queue; get into it when there is room; otherwise let the worker move on, or first a compute worker when
      it waits for room in the compute queue. */
  function NextStep(s: State, p: Place, j: JobId, d: Worker): Step
    requires Handler(s, p, j, d)
  {
    if Entering(s, p) then Serve(FindQueue(p.thread))
    else if p.InSend? && Room(s, d.Queue()) then Serve(SendJob(p.thread))
    else if p.InHandOff? && Room(s, ComputeQueue) then Work(p.worker, HandOff)
    else
      var w := if Blocked(s, d) then HELPER else d;
      Work(w, if s.At(w).Idle? then Pop else Onward(s, w))
  }

  function Stage(s: State, p: Place): nat {
    if Entering(s, p) then 3 else if Outside(p) then 2 else if p.InQueue? then 1 else 0
  }

  function Index(p: Place): nat { if p.InQueue? then p.index else 0 }

  function Full(s: State, p: Place, d: Worker): nat { if Outside(p) && !Room(s, d.Queue()) then 1 else 0 }

  function Wait(s: State, d: Worker): nat { if Blocked(s, d) then 1 + Rank(s.At(HELPER)) else 0 }

  /** What the next step does to the job's place and to the measure of the work left, in this order of weight. */
  predicate Closer(s: State, p: Place, s': State, p': Place, d: Worker) {
    || Stage(s', p') < Stage(s, p)
    || (Stage(s', p') == Stage(s, p) && (Index(p') < Index(p)
    || (Index(p') == Index(p) && (Full(s', p', d) < Full(s, p, d)
    || (Full(s', p', d) == Full(s, p, d) && (Rank(s'.At(d)) < Rank(s.At(d))
    || (Rank(s'.At(d)) == Rank(s.At(d)) && Wait(s', d) < Wait(s, d))))))))
  }

  ghost predicate Ready(s: State, p: Place, j: JobId, d: Worker) {
    Inv(s) && HandlersOk(s) && Staffed(s) && Handler(s, p, j, d) && IsActive(s.rows, j)
  }

  lemma NextStepEnabled(s: State, p: Place, j: JobId, d: Worker)
    requires Ready(s, p, j, d)
    ensures Enabled(s, NextStep(s, p, j, d)) && OwnWork(NextStep(s, p, j, d))
    ensures !Drops(s, NextStep(s, p, j, d), j)
  {
    var step := NextStep(s, p, j, d);
    if step.Work? && !step.action.HandOff? {
      var w := step.worker;
      if s.At(w).Idle? {
        PopWorks(s, w);
      } else {
        OnwardWorks(s, w);
        if s.At(w).HandingOff? { assert Holds(s, InHandOff(w), s.At(w).child); }
      }
    }
  }

  /** The job is still where the same worker will come to it ... */
  lemma HandlerKept(s: State, p: Place, j: JobId, d: Worker)
    requires Ready(s, p, j, d) && Enabled(s, NextStep(s, p, j, d)) && !Drops(s, NextStep(s, p, j, d), j)
    requires !Concludes(s, NextStep(s, p, j, d), p)
    ensures var step := NextStep(s, p, j, d); Handler(Apply(s, step), Destination(s, step, p), j, d)
  {
    StaffKept(s, p, j, d);
    HandlerAfter(s, NextStep(s, p, j, d), p, j, d);
  }

  lemma HandlerAfter(s: State, step: Step, p: Place, j: JobId, d: Worker)
    requires HandlersOk(s) && Handler(s, p, j, d) && Enabled(s, step) && OwnWork(step) && Apply(s, step).gone == s.gone
    requires !Drops(s, step, j) && !Concludes(s, step, p)
    requires step.Work? && p.InQueue? && Destination(s, step, p).AtWorker? ==> step.worker == d
    ensures Handler(Apply(s, step), Destination(s, step, p), j, d)
  {
    HoldsAfter(s, step, p, j);
    AdmittedKept(s, step, p, j);
    if Line(Apply(s, step), Destination(s, step, p)).None? { WorkerKept(s, step, p, d); }
  }

  lemma StaffKept(s: State, p: Place, j: JobId, d: Worker)
    requires Ready(s, p, j, d) && Enabled(s, NextStep(s, p, j, d))
    ensures Apply(s, NextStep(s, p, j, d)).gone == s.gone
  {
    var step := NextStep(s, p, j, d);
    if step.Work? && !step.action.HandOff? && !s.At(step.worker).Idle? { OnwardEnabled(s, step.worker); }
  }

  /** A job that leaves the queue goes to the worker that takes it, and one drained by d to d. */
  lemma WorkerKept(s: State, step: Step, p: Place, d: Worker)
    requires Enabled(s, step) && Destination(s, step, p).AtWorker?
    requires p == AtWorker(d) || (p.InQueue? && step.Work? && step.worker == d)
    ensures Destination(s, step, p) == AtWorker(d)
  {
  }

  /** ... and closer to its end. */
  lemma NextStepCloser(s: State, p: Place, j: JobId, d: Worker)
    requires Ready(s, p, j, d) && Enabled(s, NextStep(s, p, j, d))
    ensures var step := NextStep(s, p, j, d); Closer(s, p, Apply(s, step), Destination(s, step, p), d)
  {
    if Entering(s, p) || (p.InSend? && Room(s, d.Queue())) || (p.InHandOff? && Room(s, ComputeQueue)) {
    } else if Blocked(s, d) {
      HelperCloser(s, p, j, d);
    } else {
      HandlerCloser(s, p, j, d);
    }
  }

  lemma HelperCloser(s: State, p: Place, j: JobId, d: Worker)
    requires Ready(s, p, j, d) && Blocked(s, d) && !Entering(s, p) && !(Outside(p) && Room(s, d.Queue()))
    ensures var step := NextStep(s, p, j, d);
      Enabled(s, step) && Closer(s, p, Apply(s, step), Destination(s, step, p), d)
  {
    assert s.At(d).HandingOff? && d.DriveWorker? && HELPER !in s.gone;
    if s.At(HELPER).Idle? { PopWorks(s, HELPER); } else { OnwardWorks(s, HELPER); }
  }

  lemma HandlerCloser(s: State, p: Place, j: JobId, d: Worker)
    requires Ready(s, p, j, d) && !Blocked(s, d) && !Entering(s, p) && !(Outside(p) && Room(s, d.Queue()))
    ensures var step := NextStep(s, p, j, d);
      Enabled(s, step) && Closer(s, p, Apply(s, step), Destination(s, step, p), d)
  {
    if s.At(d).Idle? { IdleCloser(s, p, j, d); } else { BusyCloser(s, p, j, d); }
  }

  lemma IdleCloser(s: State, p: Place, j: JobId, d: Worker)
    requires Ready(s, p, j, d) && s.At(d).Idle? && !Entering(s, p) && !(Outside(p) && Room(s, d.Queue()))
    ensures NextStep(s, p, j, d) == Work(d, Pop) && CanWork(s, d, Pop)
    ensures Closer(s, p, AfterWork(s, d, Pop), Destination(s, Work(d, Pop), p), d)
  {
    PopWorks(s, d);
    if p.InQueue? {
      if p.index == 0 { TakenCloser(s, p, d); } else { ShiftedCloser(s, p, d); }
    }
  }

  lemma TakenCloser(s: State, p: Place, d: Worker)
    requires p == InQueue(d.Queue(), 0) && CanWork(s, d, Pop)
    ensures Closer(s, p, AfterWork(s, d, Pop), Destination(s, Work(d, Pop), p), d)
  {
  }

  lemma ShiftedCloser(s: State, p: Place, d: Worker)
    requires p.InQueue? && p.queue == d.Queue() && p.index > 0 && CanWork(s, d, Pop)
    ensures Closer(s, p, AfterWork(s, d, Pop), Destination(s, Work(d, Pop), p), d)
  {
  }

  lemma BusyCloser(s: State, p: Place, j: JobId, d: Worker)
    requires Ready(s, p, j, d) && !s.At(d).Idle? && !Blocked(s, d)
    requires !Entering(s, p) && !(Outside(p) && Room(s, d.Queue()))
    ensures NextStep(s, p, j, d) == Work(d, Onward(s, d)) && CanWork(s, d, Onward(s, d))
    ensures Closer(s, p, AfterWork(s, d, Onward(s, d)), Destination(s, Work(d, Onward(s, d)), p), d)
  {
    OnwardWorks(s, d);
  }

  lemma ReadyKept(s: State, p: Place, j: JobId, d: Worker)
    requires Ready(s, p, j, d) && Enabled(s, NextStep(s, p, j, d)) && !Drops(s, NextStep(s, p, j, d), j)
    requires IsActive(Apply(s, NextStep(s, p, j, d)).rows, j)
    ensures Ready(Apply(s, NextStep(s, p, j, d)), Destination(s, NextStep(s, p, j, d), p), j, d)
  {
    var step := NextStep(s, p, j, d);
    if Concludes(s, step, p) { ConcludedIsInactive(s, step, p, j); }
    HandlerKept(s, p, j, d);
    InvKept(s, step);
    HandlersOkKept(s, step);
    StaffedKept(s, step);
  }

  lemma CanEnd(s: State, p: Place, j: JobId, d: Worker) returns (steps: seq<Step>, s': State)
    requires Ready(s, p, j, d)
    ensures Leads(s, steps, s') && (forall step <- steps :: OwnWork(step)) && Ended(s', j)
    decreases Stage(s, p), Index(p), Full(s, p, d), Rank(s.At(d)), Wait(s, d)
  {
    var step := NextStep(s, p, j, d);
    NextStepEnabled(s, p, j, d);
    var s1, p1 := Apply(s, step), Destination(s, step, p);
    assert j in s1.rows;
    if IsActive(s1.rows, j) {
      ReadyKept(s, p, j, d);
      NextStepCloser(s, p, j, d);
      var rest: seq<Step>;
      rest, s' := CanEnd(s1, p1, j, d);
      steps := [step] + rest;
    } else {
      steps, s' := [step], s1;
    }
  }

  // ---- A stranded job stays ----

  lemma StrandedStays(s: State, step: Step, j: JobId)
    requires Inv(s) && HandlersOk(s) && Enabled(s, step) && IsStranded(s, j) && OwnWork(step)
    ensures IsStranded(Apply(s, step), j)
  {
    if step.Work? {
      var w := step.worker;
      if s.At(w).Owns(j) { assert TendedAt(s, AtWorker(w), j); }
      assert Apply(s, step).rows == RowsAfter(s, w, step.action);
    }
    StrandedIff(s, step, j);
  }

  lemma {:induction false} StrandedThroughout(s: State, steps: seq<Step>, s': State, j: JobId)
    requires Inv(s) && HandlersOk(s) && IsStranded(s, j) && Leads(s, steps, s') && forall step <- steps :: OwnWork(step)
    ensures IsStranded(s', j)
    decreases |steps|
  {
    if steps != [] {
      InvKept(s, steps[0]);
      HandlersOkKept(s, steps[0]);
      StrandedStays(s, steps[0], j);
      StrandedThroughout(Apply(s, steps[0]), steps[1..], s', j);
    }
  }

  ghost predicate WorkCanEnd(s: State, j: JobId) {
    exists steps: seq<Step>, s': State :: Leads(s, steps, s') && (forall step <- steps :: OwnWork(step)) && Ended(s', j)
  }

  /** In every reachable state, an active job can be brought to an end by workers and pending sends alone if and only if
      it is not stranded. */
  lemma WorkCanEndIff(run: seq<State>, steps: seq<Step>, i: nat, j: JobId)
    requires IsExecution(run, steps) && i < |run| && IsActive(run[i].rows, j)
    ensures WorkCanEnd(run[i], j) <==> !IsStranded(run[i], j)
  {
    var s := run[i];
    InvAlways(run, steps, i);
    HandlersOkAlways(run, steps, i);
    StaffedAlways(run, steps, i);
    if p :| TendedAt(s, p, j) {
      var d: Worker;
      if Line(s, p).Some? { d :| Drains(s, d, Line(s, p).value); } else { d := p.worker; }
      var more, s' := CanEnd(s, p, j, d);
    } else {
      forall more: seq<Step>, s': State | Leads(s, more, s') && forall step <- more :: OwnWork(step)
        ensures !Ended(s', j)
      {
        StrandedThroughout(s, more, s', j);
      }
    }
  }

  /** So until a Close begins, every active job can be brought to an end. */
  lemma EveryJobCanEndWhileOpen(run: seq<State>, steps: seq<Step>, i: nat, j: JobId)
    requires IsExecution(run, steps) && i < |run| && run[i].stopped == {} && IsActive(run[i].rows, j)
    ensures WorkCanEnd(run[i], j)
  {
    NoneStrandedWhileOpen(run, steps, i, j);
    WorkCanEndIff(run, steps, i, j);
  }
}
