/** The job, queue and spool protocol as a transition system.

    One step is one SQL statement or transaction, one channel operation, or one change of the
    spool directory; any enabled step of any thread may come next. Workers follow `runJob`
    (daemon/jobs/orchestrator.go) and `runOne` (daemon/jobs/compute.go) one program counter at
    a time; requests, cancels, deletions and crashes are steps of their own. */
module Protocol {
  import opened Options
  import opened Jobs

  /** Each is stopped by its own Close. */
  datatype Pool = DrivePool | ComputePool

  datatype QueueId = DriveQueue(drive: nat) | ComputeQueue
  {
    function Pool(): Pool { if DriveQueue? then DrivePool else ComputePool }
  }

  const COMPUTE_WORKERS := 8

  /** One goroutine per drive, and the fixed number of compute workers. */
  datatype Worker = DriveWorker(drive: nat) | ComputeWorker(index: nat)
  {
    function Queue(): QueueId {
      match this
      case DriveWorker(d) => DriveQueue(d)
      case ComputeWorker(_) => ComputeQueue
    }

    predicate Exists() { ComputeWorker? ==> index < COMPUTE_WORKERS }
  }

  /** How a handler can end. */
  type Outcome = s: JobState | s.Done? || s.Failed? || s.Cancelled? witness Done

  /** Where a worker is with its job. `row` is the copy it read with GetJob. */
  datatype Pc =
    | Idle
    | Popped(job: JobId)                                      // waiting for spool capacity or a slot
    | Registered(job: JobId)                                  // cancel function registered, row not read yet
    | Loaded(job: JobId, row: Job)                            // row read and not cancelled
    | Started(job: JobId, row: Job)                           // `running` written, handler under way
    | Ripping(job: JobId)                                     // spool directory made, RunRip under way
    | RipFailed(job: JobId, outcome: Outcome)                // RunRip failed, spool cleanup next
    | Ripped(job: JobId)                                      // RunRip succeeded, child row next
    | HandingOff(job: JobId, child: JobId)                    // child row made, Compute.Enqueue next
    | Finishing(job: JobId, outcome: Outcome, spool: string) // final write next
    | CleaningUp(job: JobId, spool: string)                   // transcode done, spool cleanup next
    | Exiting(job: JobId)                                     // nothing left but deferred calls
  {
    /** The worker has taken the job and has not made its final write yet. */
    predicate Owns(j: JobId) { !Idle? && !CleaningUp? && !Exiting? && job == j }
    /** ... and for a rip, it can still create its spool directory or its child. */
    predicate BeforeChild() { !Idle? && !CleaningUp? && !Exiting? && !HandingOff? && !Finishing? }
  }

  /** A request thread that has written its row and is to send the job. Orchestrator.enqueue first looks for the queue
      under its lock, which fails once Close has dropped the queues; `found` says that this is done. */
  datatype Send = Send(queue: QueueId, job: JobId, found: bool)

  /** DeleteJob between its read and its delete, and between its delete and its spool cleanup. */
  datatype Deletion = Checked(job: JobId, row: Job) | RowGone(spool: string)

  /** `handled` are the disc types that have a handler, `types` the type of every disc ever stored.
      `stopped` holds the pools whose Close has begun, `gone` the workers that have returned because of it.
      `seen` records the kind and spool path of every id ever created, `forked` the rips that
      have created their child, `starts` and `resets` how often a job began and was reset.
      Only proofs look at these last four. */
  datatype State = State(
    root: string,
    rows: Table,
    disk: set<string>,
    queues: map<QueueId, seq<JobId>>,
    sends: map<nat, Send>,
    workers: map<Worker, Pc>,
    dead: set<Worker>,
    deletions: map<nat, Deletion>,
    handled: set<string>,
    types: map<nat, string>,
    stopped: set<Pool>,
    gone: set<Worker>,
    seen: map<JobId, (Kind, string)>,
    forked: set<string>,
    starts: map<JobId, nat>,
    resets: map<JobId, nat>)
  {
    function Queue(q: QueueId): seq<JobId> { if q in queues then queues[q] else [] }
    function At(w: Worker): Pc { if w in workers then workers[w] else Idle }
    predicate HasHandler(disc: nat) { disc in types && types[disc] in handled }
  }

  const QUEUE_CAPACITY := 64

  function Initial(root: string, handled: set<string>): State {
    State(root, map[], {}, map[], map[], map[], {}, map[], handled, map[], {}, {}, map[], {}, map[], map[])
  }

  /** What a worker can do next. */
  datatype Action =
    | Pop
    | AbandonPop                               // shutdown while waiting
    | Leave                                    // shutdown while idle
    | Register
    | GetJob
    | LookupFails                              // disc, drive, profile or handler missing
    | NoHandler(now: string)                   // runJob's write through its own context
    | MarkRunning(now: string)
    | HandlerReturns(outcome: Outcome)
    | CreateSpool
    | RipReturns(outcome: Outcome)
    | CleanFailedRip(removed: bool)
    | CreateChild(child: JobId)
    | ChildRefused(outcome: Outcome)
    | HandOff
    | HandOffStopped
    | FinalWrite(now: string)
    | CleanSpool(removed: bool)
    | Exit

  /** What the rest of the daemon can do. */
  datatype Request =
    | StoreDisc(disc: nat, discType: string)                     // a disc is identified for the first time
    | Retype(disc: nat, discType: string)                        // UpdateDiscType
    | Submit(thread: nat, drive: nat, id: JobId, row: Job)       // CreateJob in Submit or SubmitScan
    | FindQueue(thread: nat)                                     // enqueue gets the drive's queue
    | Retry(thread: nat, id: JobId)                              // ResetTranscodeJob in RetryTranscode
    | SendJob(thread: nat)                                       // the channel send in either
    | AbandonSend(thread: nat)                                   // ... or errStopped
    | KillContext(worker: Worker)                                // a cancel function is called
    | Stop(pool: Pool)                                           // Close of a pool
    | CancelWrite(id: JobId, now: string)                        // CancelJobIfActive
    | CheckDelete(thread: nat, id: JobId)
    | DeleteRow(thread: nat, cascaded: set<JobId>)               // DeleteJobAndOrphans
    | CleanDeleted(thread: nat, removed: bool)
    | DropRows(ids: set<JobId>)                                  // history, retention, disc deletion, cascades

  /** `stuck` names the directories that GC fails to remove. */
  datatype Step =
    | Work(worker: Worker, action: Action)
    | Serve(request: Request)
    | Crash(now: string, stuck: set<string>)

  /** A write through the worker's own context needs that context alive and the row present. */
  predicate CanWrite(s: State, w: Worker) { w !in s.dead && !s.At(w).Idle? && s.At(w).job in s.rows }

  // ---- Worker steps ----

  predicate CanWork(s: State, w: Worker, a: Action) {
    var pc := s.At(w);
    match a
    case Pop => pc.Idle? && w.Exists() && w !in s.gone && s.Queue(w.Queue()) != []
    case AbandonPop => pc.Popped? && w.Queue().Pool() in s.stopped
    case Leave => pc.Idle? && w.Exists() && w !in s.gone && w.Queue().Pool() in s.stopped
    case Register => pc.Popped?
    case GetJob => pc.Registered?
    case LookupFails => pc.Loaded?
    case NoHandler(_) => pc.Loaded? && w.DriveWorker? && pc.row.disc in s.types && !s.HasHandler(pc.row.disc)
    case MarkRunning(_) => pc.Loaded? && (w.ComputeWorker? ==> pc.row.spoolPath != "")
    case HandlerReturns(_) => pc.Started?
    case CreateSpool => pc.Started? && w.DriveWorker? && pc.row.kind != Scan
    case RipReturns(_) => pc.Ripping?
    case CleanFailedRip(_) => pc.RipFailed?
    case CreateChild(c) => pc.Ripped? && CanWrite(s, w) && c !in s.seen
    case ChildRefused(outcome) => pc.Ripped? && !outcome.Done?
    case HandOff => pc.HandingOff? && |s.Queue(ComputeQueue)| < QUEUE_CAPACITY
    case HandOffStopped => pc.HandingOff? && ComputePool in s.stopped
    case FinalWrite(_) => pc.Finishing?
    case CleanSpool(_) => pc.CleaningUp?
    case Exit => pc.Exiting?
  }

  /** The control flow of runJob and runOne. */
  function NextPc(s: State, w: Worker, a: Action): Pc
    requires CanWork(s, w, a)
  {
    var pc := s.At(w);
    match a
    case Pop => Popped(s.Queue(w.Queue())[0])
    case AbandonPop => Idle
    case Leave => Idle
    case Register => Registered(pc.job)
    case GetJob =>
      if !CanWrite(s, w) then Finishing(pc.job, Failed, "")
      else if w.ComputeWorker? && s.rows[pc.job].kind != Transcode then Finishing(pc.job, Failed, "")
      else if s.rows[pc.job].state == Cancelled then Exiting(pc.job)
      else Loaded(pc.job, s.rows[pc.job])
    case LookupFails => Finishing(pc.job, Failed, "")
    case NoHandler(_) => Exiting(pc.job)
    case MarkRunning(_) => if CanWrite(s, w) then Started(pc.job, pc.row) else Finishing(pc.job, Failed, "")
    case HandlerReturns(outcome) => Finishing(pc.job, outcome, if w.ComputeWorker? then pc.row.spoolPath else "")
    case CreateSpool => Ripping(pc.job)
    case RipReturns(outcome) => if outcome.Done? then Ripped(pc.job) else RipFailed(pc.job, outcome)
    case CleanFailedRip(_) => Finishing(pc.job, pc.outcome, "")
    case CreateChild(c) => HandingOff(pc.job, c)
    case ChildRefused(outcome) => Finishing(pc.job, outcome, "")
    case HandOff => Finishing(pc.job, Done, "")
    case HandOffStopped => Finishing(pc.job, Failed, "")
    case FinalWrite(_) => if pc.outcome.Done? && pc.spool != "" then CleaningUp(pc.job, pc.spool) else Exiting(pc.job)
    case CleanSpool(_) => Exiting(pc.job)
    case Exit => Idle
  }

  function ChildRow(s: State, rip: JobId): Job
    requires rip in s.rows
  {
    Job(Transcode, Queued, s.rows[rip].disc, Some(rip), SpoolPath(s.root, rip), "", 0)
  }

  function RowsAfter(s: State, w: Worker, a: Action): Table
    requires CanWork(s, w, a)
  {
    match a
    case NoHandler(now) => if w in s.dead then s.rows else WithState(s.rows, s.At(w).job, Failed, now)
    case MarkRunning(now) => if CanWrite(s, w) then WithState(s.rows, s.At(w).job, Running, now) else s.rows
    case CreateChild(c) => s.rows[c := ChildRow(s, s.At(w).job)]
    case FinalWrite(now) => WithState(s.rows, s.At(w).job, s.At(w).outcome, now)
    case _ => s.rows
  }

  function DiskAfter(s: State, w: Worker, a: Action): set<string>
    requires CanWork(s, w, a)
  {
    match a
    case CreateSpool => s.disk + {s.At(w).job}
    case CleanFailedRip(removed) => if removed then s.disk - {s.At(w).job} else s.disk
    case CleanSpool(removed) => if removed then s.disk - {BasenameOf(s.At(w).spool)} else s.disk
    case _ => s.disk
  }

  function QueuesAfter(s: State, w: Worker, a: Action): map<QueueId, seq<JobId>>
    requires CanWork(s, w, a)
  {
    match a
    case Pop => s.queues[w.Queue() := s.Queue(w.Queue())[1..]]
    case HandOff => s.queues[ComputeQueue := s.Queue(ComputeQueue) + [s.At(w).child]]
    case _ => s.queues
  }

  /** A drive worker also returns when the shutdown ends its wait for spool capacity. */
  predicate Returns(w: Worker, a: Action) { a.Leave? || (a.AbandonPop? && w.DriveWorker?) }

  function AfterWork(s: State, w: Worker, a: Action): State
    requires CanWork(s, w, a)
  {
    s.(workers := s.workers[w := NextPc(s, w, a)],
       rows := RowsAfter(s, w, a),
       disk := DiskAfter(s, w, a),
       queues := QueuesAfter(s, w, a),
       dead := if a.Register? then s.dead - {w} else s.dead,
       gone := if Returns(w, a) then s.gone + {w} else s.gone,
       starts := if a.Register? then s.starts[s.At(w).job := Count(s.starts, s.At(w).job) + 1] else s.starts,
       seen := if a.CreateChild? then s.seen[a.child := (Transcode, SpoolPath(s.root, s.At(w).job))] else s.seen,
       forked := if a.CreateChild? then s.forked + {s.At(w).job} else s.forked)
  }

  // ---- Requests ----

  predicate CanServe(s: State, r: Request) {
    match r
    case StoreDisc(disc, _) => disc !in s.types
    case Retype(disc, discType) => disc in s.types && discType in s.handled
    case Submit(t, _, id, row) =>
      && t !in s.sends && id !in s.seen && s.HasHandler(row.disc)
      && row.kind != Transcode && row.state == Queued && row.spoolPath == ""
    case Retry(t, id) => t !in s.sends && RetryRefusal(s.rows, id) == None
    case FindQueue(t) => t in s.sends && !s.sends[t].found && s.sends[t].queue.Pool() !in s.stopped
    case SendJob(t) => t in s.sends && s.sends[t].found && |s.Queue(s.sends[t].queue)| < QUEUE_CAPACITY
    case AbandonSend(t) => t in s.sends && s.sends[t].queue.Pool() in s.stopped
    case Stop(_) => true
    case KillContext(w) => !s.At(w).Idle? && !s.At(w).Popped?
    case CancelWrite(_, _) => true
    case CheckDelete(t, id) => t !in s.deletions && id in s.rows && !s.rows[id].state.Active()
    case DeleteRow(t, _) => t in s.deletions && s.deletions[t].Checked?
    case CleanDeleted(t, _) => t in s.deletions && s.deletions[t].RowGone?
    case DropRows(_) => true
  }

  function Count(m: map<JobId, nat>, j: JobId): nat { if j in m then m[j] else 0 }

  function RowsAfterRequest(s: State, r: Request): Table
    requires CanServe(s, r)
  {
    match r
    case Submit(_, _, id, row) => s.rows[id := row]
    case Retry(_, id) => Reset(s.rows, id)
    case CancelWrite(id, now) => CancelledIfActive(s.rows, id, now)
    case DeleteRow(t, cascaded) =>
      if s.deletions[t].job in s.rows then s.rows - {s.deletions[t].job} - cascaded else s.rows
    case DropRows(ids) => s.rows - ids
    case _ => s.rows
  }

  function SendsAfterRequest(s: State, r: Request): map<nat, Send>
    requires CanServe(s, r)
  {
    match r
    case Submit(t, d, id, _) => s.sends[t := Send(DriveQueue(d), id, false)]
    case Retry(t, id) => s.sends[t := Send(ComputeQueue, id, true)]
    case FindQueue(t) => s.sends[t := s.sends[t].(found := true)]
    case SendJob(t) => s.sends - {t}
    case AbandonSend(t) => s.sends - {t}
    case _ => s.sends
  }

  function DeletionsAfterRequest(s: State, r: Request): map<nat, Deletion>
    requires CanServe(s, r)
  {
    match r
    case CheckDelete(t, id) => s.deletions[t := Checked(id, s.rows[id])]
    case DeleteRow(t, _) =>
      var Checked(j, row) := s.deletions[t];
      if j in s.rows && row.kind == Transcode && row.spoolPath != ""
      then s.deletions[t := RowGone(row.spoolPath)] else s.deletions - {t}
    case CleanDeleted(t, _) => s.deletions - {t}
    case _ => s.deletions
  }

  function QueuesAfterRequest(s: State, r: Request): map<QueueId, seq<JobId>>
    requires CanServe(s, r)
  {
    if r.SendJob? then
      var Send(q, j, _) := s.sends[r.thread];
      s.queues[q := s.Queue(q) + [j]]
    else s.queues
  }

  function AfterRequest(s: State, r: Request): State
    requires CanServe(s, r)
  {
    s.(rows := RowsAfterRequest(s, r),
       sends := SendsAfterRequest(s, r),
       deletions := DeletionsAfterRequest(s, r),
       queues := QueuesAfterRequest(s, r),
       disk := if r.CleanDeleted? && r.removed then s.disk - {BasenameOf(s.deletions[r.thread].spool)} else s.disk,
       types := if r.StoreDisc? || r.Retype? then s.types[r.disc := r.discType] else s.types,
       dead := if r.KillContext? then s.dead + {r.worker} else s.dead,
       stopped := if r.Stop? then s.stopped + {r.pool} else s.stopped,
       seen := if r.Submit? then s.seen[r.id := (r.row.kind, r.row.spoolPath)] else s.seen,
       resets := if r.Retry? then s.resets[r.id := Count(s.resets, r.id) + 1] else s.resets)
  }

  // ---- Crash and restart ----

  /** Memory is lost; NewOrchestrator marks jobs interrupted, then the spool is collected. */
  ghost function AfterCrash(s: State, now: string, stuck: set<string>): State {
    var rows := MarkedInterrupted(s.rows, now);
    s.(rows := rows, disk := AfterGC(rows, s.disk, stuck), queues := map[], sends := map[], workers := map[],
       dead := {}, deletions := map[], stopped := {}, gone := {})
  }

  /** Spool.GC: unreferenced entries go, except those whose removal failed. */
  ghost function AfterGC(t: Table, disk: set<string>, stuck: set<string>): set<string> {
    set name | name in disk && (Referenced(t, name) || name in stuck)
  }

  // ---- Runs ----

  predicate Enabled(s: State, step: Step) {
    match step
    case Work(w, a) => CanWork(s, w, a)
    case Serve(r) => CanServe(s, r)
    case Crash(_, _) => true
  }

  ghost function Apply(s: State, step: Step): State
    requires Enabled(s, step)
  {
    match step
    case Work(w, a) => AfterWork(s, w, a)
    case Serve(r) => AfterRequest(s, r)
    case Crash(now, stuck) => AfterCrash(s, now, stuck)
  }

  /** Step i is enabled and leads from each state of the run to the next. */
  ghost predicate Links(run: seq<State>, steps: seq<Step>, i: nat)
    requires |run| == |steps| + 1 && i < |steps|
  {
    Enabled(run[i], steps[i]) && run[i + 1] == Apply(run[i], steps[i])
  }

  ghost predicate IsRun(run: seq<State>, steps: seq<Step>) {
    && |run| == |steps| + 1
    && forall i :: 0 <= i < |steps| ==> Links(run, steps, i)
  }

  /** A run of the daemon over any number of restarts, from a fresh data directory. */
  ghost predicate IsExecution(run: seq<State>, steps: seq<Step>) {
    IsRun(run, steps) && exists root, handled :: run[0] == Initial(root, handled)
  }
}
