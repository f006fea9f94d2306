/** Runs that go well: what each request does when nobody interferes, and that a waiting job can be done. */
module Completion {
  import opened Options
  import opened Jobs
  import opened Protocol
  import opened Ownership
  import opened Handlers
  import opened Settled
  import opened SpoolRetention
  import opened Stranded
  import opened Continuations

  lemma LeadsFrom(s: State, step: Step, s1: State, rest: seq<Step>, s2: State)
    requires Enabled(s, step) && s1 == Apply(s, step) && Leads(s1, rest, s2)
    ensures Leads(s, [step] + rest, s2)
  {
    assert ([step] + rest)[1..] == rest;
  }

  lemma LeadsThree(s: State, a: Step, s1: State, b: Step, s2: State, rest: seq<Step>, s3: State)
    requires Enabled(s, a) && s1 == Apply(s, a) && Enabled(s1, b) && s2 == Apply(s1, b) && Leads(s2, rest, s3)
    ensures Leads(s, [a] + ([b] + rest), s3)
  {
    LeadsFrom(s1, b, s2, rest, s3);
    LeadsFrom(s, a, s1, [b] + rest, s3);
  }

  lemma ThreeSteps(s: State, a: Step, s1: State, b: Step, s2: State, c: Step, s3: State)
    requires Enabled(s, a) && s1 == Apply(s, a) && Enabled(s1, b) && s2 == Apply(s1, b) && Leads(s2, [c], s3)
    ensures Leads(s, [a, b, c], s3)
  {
    LeadsThree(s, a, s1, b, s2, [c], s3);
    assert [a] + ([b] + [c]) == [a, b, c];
  }

  lemma Next(s: State, step: Step) returns (s': State)
    requires Enabled(s, step)
    ensures s' == Apply(s, step) && Leads(s, [step], s')
  {
    s' := Apply(s, step);
    assert [step][1..] == [] && Leads(s', [], s');
  }

  // ---- A waiting job can be done ----

  /** While the job waits, no step of the daemon's own work touches its row. */
  lemma RowWaits(s: State, step: Step, p: Place, j: JobId)
    requires Inv(s) && Enabled(s, step) && OwnWork(step) && Holds(s, p, j) && !p.AtWorker? && j in s.rows
    ensures j in Apply(s, step).rows && Apply(s, step).rows[j] == s.rows[j]
  {
    if step.Work? {
      var w := step.worker;
      assert Holds(s, AtWorker(w), j) <==> s.At(w).Owns(j);
      assert Apply(s, step).rows == RowsAfter(s, w, step.action);
    }
  }

  lemma StillReady(s: State, p: Place, j: JobId, d: Worker)
    requires Ready(s, p, j, d) && SpoolInv(s) && !p.AtWorker?
    ensures var step := NextStep(s, p, j, d);
      && Enabled(s, step) && OwnWork(step)
      && Ready(Apply(s, step), Destination(s, step, p), j, d) && SpoolInv(Apply(s, step))
      && Closer(s, p, Apply(s, step), Destination(s, step, p), d)
  {
    var step := NextStep(s, p, j, d);
    NextStepEnabled(s, p, j, d);
    RowWaits(s, step, p, j);
    ReadyKept(s, p, j, d);
    SpoolInvKept(s, step);
    NextStepCloser(s, p, j, d);
  }

  lemma CanBeDone(s: State, p: Place, j: JobId, d: Worker) returns (steps: seq<Step>, s': State)
    requires Ready(s, p, j, d) && SpoolInv(s) && !p.AtWorker?
    ensures Leads(s, steps, s') && forall step <- steps :: OwnWork(step)
    ensures j in s'.rows && s'.rows[j].state == Done
    decreases Stage(s, p), Index(p), Full(s, p, d), Rank(s.At(d)), Wait(s, d)
  {
    var step := NextStep(s, p, j, d);
    StillReady(s, p, j, d);
    var s1 := Next(s, step);
    var p1 := Destination(s, step, p);
    var rest: seq<Step>;
    if p1.AtWorker? {
      PoppedByHandler(s, step, p, j, d);
      rest, s' := PoppedCanSucceed(s1, j, d);
    } else {
      rest, s' := CanBeDone(s1, p1, j, d);
    }
    LeadsFrom(s, step, s1, rest, s');
    steps := [step] + rest;
  }

  lemma PoppedByHandler(s: State, step: Step, p: Place, j: JobId, d: Worker)
    requires Enabled(s, step) && !p.AtWorker? && Destination(s, step, p) == AtWorker(d) && Holds(s, p, j)
    ensures Apply(s, step).At(d) == Popped(j)
  {
    PcAfterWork(s, d, Pop, d);
  }

  /** Register, read, mark as running, a handler without an error, the final write. */
  lemma PoppedCanSucceed(s: State, j: JobId, d: Worker) returns (steps: seq<Step>, s': State)
    requires Ready(s, AtWorker(d), j, d) && SpoolInv(s) && s.At(d) == Popped(j)
    ensures Leads(s, steps, s') && forall step <- steps :: OwnWork(step)
    ensures j in s'.rows && s'.rows[j].state == Done
  {
    assert d.ComputeWorker? ==> IsTranscode(s, j);
    var s1, s2 := PoppedCanLoad(s, j, d);
    var rest: seq<Step>;
    rest, s' := LoadedCanSucceed(s2, j, d);
    LeadsFrom(s1, Work(d, GetJob), s2, rest, s');
    LeadsFrom(s, Work(d, Register), s1, [Work(d, GetJob)] + rest, s');
    steps := [Work(d, Register)] + ([Work(d, GetJob)] + rest);
  }

  lemma PoppedCanLoad(s: State, j: JobId, d: Worker) returns (s1: State, s2: State)
    requires s.At(d) == Popped(j) && IsActive(s.rows, j) && (d.ComputeWorker? ==> s.rows[j].kind == Transcode)
    ensures Enabled(s, Work(d, Register)) && s1 == Apply(s, Work(d, Register))
    ensures Enabled(s1, Work(d, GetJob)) && s2 == Apply(s1, Work(d, GetJob))
    ensures s2.At(d) == Loaded(j, s.rows[j]) && CanWrite(s2, d)
  {
    s1 := Next(s, Work(d, Register));
    PcAfterWork(s, d, Register, d);
    s2 := Next(s1, Work(d, GetJob));
    PcAfterWork(s1, d, GetJob, d);
  }

  lemma LoadedCanSucceed(s: State, j: JobId, d: Worker) returns (steps: seq<Step>, s': State)
    requires s.At(d).Loaded? && s.At(d).job == j && CanWrite(s, d)
    requires d.ComputeWorker? ==> s.At(d).row.spoolPath != ""
    ensures Leads(s, steps, s') && forall step <- steps :: OwnWork(step)
    ensures j in s'.rows && s'.rows[j].state == Done
  {
    var s1 := Next(s, Work(d, MarkRunning("")));
    PcAfterWork(s, d, MarkRunning(""), d);
    var s2 := Next(s1, Work(d, HandlerReturns(Done)));
    PcAfterWork(s1, d, HandlerReturns(Done), d);
    s' := Next(s2, Work(d, FinalWrite("")));
    LeadsThree(s, Work(d, MarkRunning("")), s1, Work(d, HandlerReturns(Done)), s2, [Work(d, FinalWrite(""))], s');
    steps := [Work(d, MarkRunning(""))] + ([Work(d, HandlerReturns(Done))] + [Work(d, FinalWrite(""))]);
  }

  /** In every reachable state, an active job that waits in a queue or on its way to one, and is not stranded, can still
      be brought to `done` by workers and pending sends alone. */
  lemma WaitingCanSucceed(run: seq<State>, steps: seq<Step>, i: nat, j: JobId, p: Place)
      returns (more: seq<Step>, s': State)
    requires IsExecution(run, steps) && i < |run| && IsActive(run[i].rows, j) && !IsStranded(run[i], j)
    requires Holds(run[i], p, j) && !p.AtWorker?
    ensures Leads(run[i], more, s') && forall step <- more :: OwnWork(step)
    ensures j in s'.rows && s'.rows[j].state == Done
  {
    var s := run[i];
    InvAlways(run, steps, i);
    HandlersOkAlways(run, steps, i);
    StaffedAlways(run, steps, i);
    SpoolInvAlways(run, steps, i);
    assert TendedAt(s, p, j);
    var d: Worker :| Drains(s, d, Line(s, p).value);
    more, s' := CanBeDone(s, p, j, d);
  }

  lemma RipMakesChild(s: State, w: Worker, c: JobId) returns (s1: State, s2: State, s3: State)
    requires s.At(w).Started? && w.DriveWorker? && s.At(w).row.kind == Rip && CanWrite(s, w) && c !in s.seen
    ensures Enabled(s, Work(w, CreateSpool)) && s1 == Apply(s, Work(w, CreateSpool))
    ensures Enabled(s1, Work(w, RipReturns(Done))) && s2 == Apply(s1, Work(w, RipReturns(Done)))
    ensures Enabled(s2, Work(w, CreateChild(c))) && s3 == Apply(s2, Work(w, CreateChild(c)))
    ensures var j := s.At(w).job;
      && s3.At(w) == HandingOff(j, c) && s3.disk == s.disk + {j} && s3.queues == s.queues
      && s3.rows == s.rows[c := Job(Transcode, Queued, s.rows[j].disc, Some(j), s.root + "/" + j, "", 0)]
  {
    s1 := Next(s, Work(w, CreateSpool));
    PcAfterWork(s, w, CreateSpool, w);
    s2 := Next(s1, Work(w, RipReturns(Done)));
    PcAfterWork(s1, w, RipReturns(Done), w);
    assert s2.rows == s.rows && s2.seen == s.seen && s2.dead == s.dead;
    s3 := Next(s2, Work(w, CreateChild(c)));
    PcAfterWork(s2, w, CreateChild(c), w);
  }

  lemma RipSendsChild(s: State, w: Worker, now: string) returns (s': State)
    requires s.At(w).HandingOff? && s.At(w).job in s.rows && Room(s, ComputeQueue)
    ensures Leads(s, [Work(w, HandOff)] + [Work(w, FinalWrite(now))], s')
    ensures s'.disk == s.disk && s'.Queue(ComputeQueue) == s.Queue(ComputeQueue) + [s.At(w).child]
    ensures s'.rows == s.rows[s.At(w).job := s.rows[s.At(w).job].(state := Done, finishedAt := now)]
  {
    var s1 := Next(s, Work(w, HandOff));
    PcAfterWork(s, w, HandOff, w);
    QueueAfterWork(s, w, HandOff, ComputeQueue);
    s' := Next(s1, Work(w, FinalWrite(now)));
    QueueAfterWork(s1, w, FinalWrite(now), ComputeQueue);
    LeadsFrom(s, Work(w, HandOff), s1, [Work(w, FinalWrite(now))], s');
  }

  /** A rip that has started can hand over: it ends as done, with its directory on disk and a queued transcode of the
      same disc, pointing to it, last in the compute queue. */
  lemma RipCanHandOver(s: State, w: Worker, c: JobId, now: string) returns (steps: seq<Step>, s': State)
    requires s.At(w).Started? && w.DriveWorker? && s.At(w).row.kind == Rip && CanWrite(s, w)
    requires c !in s.seen && c != s.At(w).job && Room(s, ComputeQueue)
    ensures Leads(s, steps, s') && forall step <- steps :: OwnWork(step)
    ensures var j := s.At(w).job;
      && s'.disk == s.disk + {j} && s'.Queue(ComputeQueue) == s.Queue(ComputeQueue) + [c]
      && s'.rows == s.rows[c := Job(Transcode, Queued, s.rows[j].disc, Some(j), s.root + "/" + j, "", 0)]
                          [j := s.rows[j].(state := Done, finishedAt := now)]
  {
    var s1, s2, s3 := RipMakesChild(s, w, c);
    s' := RipSendsChild(s3, w, now);
    var rest := [Work(w, CreateChild(c))] + ([Work(w, HandOff)] + [Work(w, FinalWrite(now))]);
    LeadsFrom(s2, Work(w, CreateChild(c)), s3, [Work(w, HandOff)] + [Work(w, FinalWrite(now))], s');
    steps := [Work(w, CreateSpool)] + ([Work(w, RipReturns(Done))] + rest);
    LeadsThree(s, Work(w, CreateSpool), s1, Work(w, RipReturns(Done)), s2, rest, s');
  }

  // ---- Requests alone ----

  /** Submit puts the row into the table and the id at the end of the queue of its drive. */
  lemma SubmitAlone(s: State, t: nat, d: nat, id: JobId, row: Job) returns (s': State)
    requires t !in s.sends && id !in s.seen && s.HasHandler(row.disc)
    requires row.kind in {Rip, Scan} && row.state == Queued && row.spoolPath == ""
    requires DrivePool !in s.stopped && |s.Queue(DriveQueue(d))| < 64
    ensures Leads(s, [Serve(Submit(t, d, id, row)), Serve(FindQueue(t)), Serve(SendJob(t))], s')
    ensures s'.rows == s.rows[id := row] && s'.sends == s.sends && s'.disk == s.disk
    ensures s'.queues == s.queues[DriveQueue(d) := s.Queue(DriveQueue(d)) + [id]]
  {
    var s1 := SubmitWrites(s, t, d, id, row);
    var s2: State;
    s2, s' := SendAlone(s1, t);
    assert s'.sends == s.sends;
    ThreeSteps(s, Serve(Submit(t, d, id, row)), s1, Serve(FindQueue(t)), s2, Serve(SendJob(t)), s');
  }

  lemma SubmitWrites(s: State, t: nat, d: nat, id: JobId, row: Job) returns (s': State)
    requires CanServe(s, Submit(t, d, id, row))
    ensures Enabled(s, Serve(Submit(t, d, id, row))) && s' == Apply(s, Serve(Submit(t, d, id, row)))
    ensures s'.rows == s.rows[id := row] && s'.sends == s.sends[t := Send(DriveQueue(d), id, false)]
    ensures s'.queues == s.queues && s'.disk == s.disk && s'.stopped == s.stopped
  {
    s' := Next(s, Serve(Submit(t, d, id, row)));
  }

  lemma SendAlone(s: State, t: nat) returns (s1: State, s2: State)
    requires t in s.sends && !s.sends[t].found && s.sends[t].queue.Pool() !in s.stopped && Room(s, s.sends[t].queue)
    ensures Enabled(s, Serve(FindQueue(t))) && s1 == Apply(s, Serve(FindQueue(t)))
    ensures Leads(s1, [Serve(SendJob(t))], s2)
    ensures s2.rows == s.rows && s2.disk == s.disk && s2.sends == s.sends - {t}
    ensures s2.queues == s.queues[s.sends[t].queue := s.Queue(s.sends[t].queue) + [s.sends[t].job]]
  {
    s1 := Next(s, Serve(FindQueue(t)));
    assert s1.sends == s.sends[t := s.sends[t].(found := true)] && s1.queues == s.queues;
    s2 := Next(s1, Serve(SendJob(t)));
  }

  /** RetryTranscode resets exactly failed and interrupted transcodes, and puts the job at the end of the queue. */
  lemma RetryAlone(s: State, t: nat, id: JobId)
    requires t !in s.sends
    ensures CanServe(s, Retry(t, id)) <==>
      id in s.rows && s.rows[id].kind == Transcode && s.rows[id].state in {Failed, Interrupted}
    ensures CanServe(s, Retry(t, id)) && |s.Queue(ComputeQueue)| < 64 ==>
      var s1 := AfterRequest(s, Retry(t, id));
      && CanServe(s1, SendJob(t))
      && var s' := AfterRequest(s1, SendJob(t));
         && s'.rows == s.rows[id := s.rows[id].(state := Queued, finishedAt := "")]
         && s'.queues == s.queues[ComputeQueue := s.Queue(ComputeQueue) + [id]]
         && s'.sends == s.sends && s'.disk == s.disk
  {
    if CanServe(s, Retry(t, id)) {
      var s1 := AfterRequest(s, Retry(t, id));
      assert s1.sends == s.sends[t := Send(ComputeQueue, id, true)] && s1.queues == s.queues;
    }
  }

  /** DeleteJob takes a finished transcode's row and then its directory. */
  lemma DeleteAlone(s: State, t: nat, id: JobId, cascaded: set<JobId>) returns (s': State)
    requires t !in s.deletions && id in s.rows && s.rows[id].kind == Transcode && s.rows[id].spoolPath != ""
    requires s.rows[id].state in {Done, Failed, Cancelled, Interrupted}
    ensures Leads(s, [Serve(CheckDelete(t, id)), Serve(DeleteRow(t, cascaded)), Serve(CleanDeleted(t, true))], s')
    ensures s'.rows == s.rows - {id} - cascaded && s'.disk == s.disk - {BasenameOf(s.rows[id].spoolPath)}
    ensures s'.deletions == s.deletions
  {
    var s1 := Next(s, Serve(CheckDelete(t, id)));
    assert s1.deletions == s.deletions[t := Checked(id, s.rows[id])] && s1.rows == s.rows;
    var s2 := Next(s1, Serve(DeleteRow(t, cascaded)));
    assert s2.deletions == s.deletions[t := RowGone(s.rows[id].spoolPath)];
    s' := Next(s2, Serve(CleanDeleted(t, true)));
    ThreeSteps(s, Serve(CheckDelete(t, id)), s1, Serve(DeleteRow(t, cascaded)), s2, Serve(CleanDeleted(t, true)), s');
  }

  /** Each drive's worker and each of the eight compute workers, while it is idle and has not returned, can take the
      head of its queue. */
  lemma PopAlone(s: State, w: Worker)
    requires s.At(w).Idle? && w !in s.gone && s.Queue(w.Queue()) != []
    ensures CanWork(s, w, Pop) <==> (w.ComputeWorker? ==> w.index < 8)
    ensures CanWork(s, w, Pop) ==>
      var s' := AfterWork(s, w, Pop);
      && s'.At(w) == Popped(s.Queue(w.Queue())[0])
      && s'.queues == s.queues[w.Queue() := s.Queue(w.Queue())[1..]] && s'.rows == s.rows
  {
  }

  /** A worker that returns at shutdown, from its wait for spool capacity or when idle, takes no further job. */
  lemma ReturnedTakesNone(s: State, w: Worker, a: Action)
    requires CanWork(s, w, a) && (a.Leave? || (a.AbandonPop? && w.DriveWorker?))
    ensures !CanWork(AfterWork(s, w, a), w, Pop) && AfterWork(s, w, a).At(w) == Idle
  {
  }

  /** A cancel writes `cancelled` exactly on a row that has not ended, and a killed context makes the next write of its
      worker fail. */
  lemma CancelAlone(s: State, id: JobId, now: string, w: Worker)
    ensures AfterRequest(s, CancelWrite(id, now)).rows ==
      if id in s.rows && s.rows[id].state in {Queued, Identifying, Running, Paused}
      then s.rows[id := s.rows[id].(state := Cancelled, finishedAt := now)] else s.rows
    ensures CanServe(s, KillContext(w)) ==> !CanWrite(AfterRequest(s, KillContext(w)), w)
  {
  }

  /** When the other requests can come, and what they change. */
  lemma OthersAlone(s: State, disc: nat, discType: string, pool: Pool, w: Worker, ids: set<JobId>)
    ensures CanServe(s, StoreDisc(disc, discType)) <==> disc !in s.types
    ensures CanServe(s, Retype(disc, discType)) <==> disc in s.types && discType in s.handled
    ensures CanServe(s, Retype(disc, discType)) ==>
      AfterRequest(s, Retype(disc, discType)).types == s.types[disc := discType]
    ensures CanServe(s, Stop(pool)) && AfterRequest(s, Stop(pool)).stopped == s.stopped + {pool}
    ensures CanServe(s, KillContext(w)) <==> !s.At(w).Idle? && !s.At(w).Popped?
    ensures CanServe(s, DropRows(ids)) && AfterRequest(s, DropRows(ids)).rows == s.rows - ids
  {
  }

  /** A Close can strand a job: submitted, sent, and then the drive's worker returns. */
  lemma CloseCanStrand() returns (run: seq<State>, steps: seq<Step>, j: JobId)
    ensures IsExecution(run, steps) && |steps| == 6
    ensures steps[4] == Serve(Stop(DrivePool)) && steps[5] == Work(DriveWorker(0), Leave)
    ensures !IsStranded(run[4], j) && IsStranded(run[6], j) && run[6].rows[j].state == Queued
  {
    j := "0";
    var w := DriveWorker(0);
    run, steps := Sent(w, j);
    NoneStrandedWhileOpen(run, steps, 4, j);
    var before := run[4];
    run, steps := Extend(run, steps, Serve(Stop(DrivePool)));
    assert run[5] == AfterRequest(before, Stop(DrivePool));
    InvAlways(run, steps, 5);
    HandlersOkAlways(run, steps, 5);
    LeavingStrands(run[5], w, j);
    run, steps := Extend(run, steps, Work(w, Leave));
  }

  /** A drive's worker that returns leaves behind what is in its queue. */
  lemma LeavingStrands(s: State, w: Worker, j: JobId)
    requires Inv(s) && HandlersOk(s) && IsActive(s.rows, j) && w.DriveWorker? && s.At(w).Idle? && w !in s.gone
    requires DrivePool in s.stopped && j in s.Queue(w.Queue())
    ensures CanWork(s, w, Leave) && IsStranded(AfterWork(s, w, Leave), j)
    ensures AfterWork(s, w, Leave).rows == s.rows
  {
    var i :| 0 <= i < |s.Queue(w.Queue())| && s.Queue(w.Queue())[i] == j;
    assert Holds(s, InQueue(w.Queue(), i), j) && Waits(s, w.Queue(), j);
    assert Deserts(s, Work(w, Leave), j);
    StrandedIff(s, Work(w, Leave), j);
  }
}
