/** The objects behind the protocol steps: the store's job statements, the spool directory and the two request
    handlers that combine them. Each method is proved against the function that the protocol uses for it. */
module Store {
  import opened Options
  import opened Jobs
  import opened Protocol
  import opened Retention

  class JobStore {
    var jobs: Table

    method CreateJob(id: JobId, job: Job)
      requires id !in jobs
      modifies this
      ensures jobs == old(jobs)[id := job]
    {
      jobs := jobs[id := job];
    }

    method GetJob(id: JobId) returns (r: Option<Job>)
      ensures r == if id in jobs then Some(jobs[id]) else None
    {
      if id in jobs { r := Some(jobs[id]); } else { r := None; }
    }

    method UpdateJobState(id: JobId, state: JobState, now: string) returns (found: bool)
      modifies this
      ensures found == (id in old(jobs)) && jobs == WithState(old(jobs), id, state, now)
    {
      found := id in jobs;
      if found {
        var job := jobs[id].(state := state);
        if !state.Active() { job := job.(finishedAt := now); }
        jobs := jobs[id := job];
      }
    }

    method CancelJobIfActive(id: JobId, now: string)
      modifies this
      ensures jobs == CancelledIfActive(old(jobs), id, now)
      ensures !IsActive(jobs, id) && jobs.Keys == old(jobs).Keys
      ensures forall j <- jobs :: jobs[j] != old(jobs)[j] <==> j == id && IsActive(old(jobs), id)
      ensures IsActive(old(jobs), id) ==> jobs[id] == old(jobs)[id].(state := Cancelled, finishedAt := now)
    {
      if id in jobs && jobs[id].state.Active() {
        jobs := jobs[id := jobs[id].(state := Cancelled, finishedAt := now)];
      }
    }

    method ResetTranscodeJob(id: JobId) returns (error: Option<RetryError>)
      modifies this
      ensures error == RetryRefusal(old(jobs), id)
      ensures jobs == if error.None? then Reset(old(jobs), id) else old(jobs)
    {
      if id !in jobs { return Some(NotFound); }
      if jobs[id].kind != Transcode { return Some(InvalidKind); }
      match jobs[id].state {
        case Failed =>
        case Interrupted =>
        case _ => return Some(InvalidState);
      }
      jobs := jobs[id := jobs[id].(state := Queued, finishedAt := "")];
      error := None;
    }

    /** Afterwards no row is active, and only rows that were have changed; n counts them. */
    method MarkInterruptedJobs(now: string) returns (n: nat)
      modifies this
      ensures jobs == MarkedInterrupted(old(jobs), now)
      ensures jobs.Keys == old(jobs).Keys && forall j <- jobs :: !IsActive(jobs, j)
      ensures forall j <- jobs :: jobs[j] != old(jobs)[j] <==> IsActive(old(jobs), j)
      ensures forall j <- jobs :: jobs[j] == old(jobs)[j].(state := jobs[j].state, finishedAt := jobs[j].finishedAt)
      ensures forall j <- jobs :: IsActive(old(jobs), j) ==> jobs[j].state == Interrupted && jobs[j].finishedAt == now
      ensures n == |set j | j in jobs && jobs[j] != old(jobs)[j]|
    {
      n := 0;
      var todo := jobs.Keys;
      ghost var changed: set<JobId> := {};
      while todo != {}
        invariant todo <= jobs.Keys == old(jobs).Keys && changed <= jobs.Keys - todo && n == |changed|
        invariant forall j <- jobs :: j in changed <==> j !in todo && IsActive(old(jobs), j)
        invariant forall j <- jobs ::
          jobs[j] == if j in changed then Stamped(old(jobs)[j], Interrupted, now) else old(jobs)[j]
        decreases todo
      {
        var j :| j in todo;
        todo := todo - {j};
        if jobs[j].state.Active() {
          jobs := jobs[j := jobs[j].(state := Interrupted, finishedAt := now)];
          n, changed := n + 1, changed + {j};
        }
      }
      assert changed == set j | j in jobs && jobs[j] != old(jobs)[j];
    }

    /** The jobs part of DeleteJobAndOrphans: children go with their parent. */
    method DeleteJob(id: JobId) returns (found: bool)
      modifies this
      ensures found == (id in old(jobs)) && jobs == if found then Delete(old(jobs), {id}) else old(jobs)
    {
      found := id in jobs;
      if found { jobs := Delete(jobs, {id}); }
    }

    /** Two queries, and for each spool path a scan back to its last separator. */
    method ActiveSpoolReferences() returns (names: set<string>)
      ensures forall name :: name in names <==> Referenced(jobs, name)
    {
      names := {};
      ghost var done: set<JobId> := {};
      var todo := jobs.Keys;
      while todo != {}
        invariant done + todo == jobs.Keys && done !! todo
        invariant forall name :: name in names <==>
          || (name in done && jobs[name].kind == Rip && jobs[name].state.Active())
          || (name != "" && exists id :: id in done && ReferencesSpool(jobs[id], name))
        decreases todo
      {
        var id :| id in todo;
        todo, done := todo - {id}, done + {id};
        var job := jobs[id];
        if job.kind == Rip && job.state.Active() {
          names := names + {id};
        } else if job.kind == Transcode && job.spoolPath != "" && HoldsSpool(job.state) {
          var base := Basename(job.spoolPath);
          if base != "" { names := names + {base}; }
          assert ReferencesSpool(job, base);
        }
      }
    }
  }

  /** basenameOf, and the same loop in ActiveSpoolReferences. */
  method Basename(p: string) returns (name: string)
    ensures name == BasenameOf(p)
  {
    var i := |p|;
    assert p[..i] == p;
    while i > 0
      invariant 0 <= i <= |p| && BasenameOf(p) == BasenameOf(p[..i]) + p[i..]
    {
      if IsSeparator(p[i - 1]) {
        assert BasenameOf(p[..i]) == "";
        return p[i..];
      }
      assert p[..i][..i - 1] == p[..i - 1] && p[i - 1..] == [p[i - 1]] + p[i..];
      i := i - 1;
    }
    name := p;
  }

  /** The spool root as the set of its entries. */
  class SpoolDir {
    var entries: set<string>

    method Create(id: JobId)
      modifies this
      ensures entries == old(entries) + {id}
    {
      entries := entries + {id};
    }

    method Cleanup(id: string) returns (ok: bool)
      modifies this
      ensures ok == (id != "") && entries == if ok then old(entries) - {id} else old(entries)
    {
      if id == "" { return false; }
      entries := entries - {id};
      ok := true;
    }

    /** One pass over the entries; the removals named by `failing` fail, and are logged and skipped. */
    method GC(store: JobStore, failing: set<string>) returns (removed: nat)
      modifies this
      ensures entries == AfterGC(store.jobs, old(entries), failing)
      ensures removed == |old(entries)| - |entries|
    {
      var keep := store.ActiveSpoolReferences();
      var todo := entries;
      removed := 0;
      while todo != {}
        invariant todo <= entries <= old(entries) && store.jobs == old(store.jobs)
        invariant forall name <- old(entries) ::
          name in entries <==> name in todo || Referenced(store.jobs, name) || name in failing
        invariant removed == |old(entries)| - |entries|
        decreases todo
      {
        var name :| name in todo;
        todo := todo - {name};
        if name !in keep && name !in failing {
          entries := entries - {name};
          removed := removed + 1;
        }
      }
    }
  }

  // ---- Request handlers ----

  /** Waiting: no answer yet, the handler is blocked in its send. */
  datatype Status = Waiting | Accepted | NoContent | NotFoundStatus | Conflict | Unprocessable | Gone | InternalError

  datatype Sent = Delivered | ErrStopped | Blocked

  /** The part of the compute pool that requests see. */
  class ComputePool {
    var queue: seq<JobId>
    var stopped: bool

    /** Appends, fails after Close without having appended, or blocks while the queue is full. */
    method Enqueue(id: JobId) returns (r: Sent)
      modifies this
      ensures r == Delivered ==> |old(queue)| < QUEUE_CAPACITY
      ensures r == ErrStopped ==> old(stopped)
      ensures r == Blocked <==> |old(queue)| >= QUEUE_CAPACITY && !old(stopped)
      ensures queue == if r == Delivered then old(queue) + [id] else old(queue)
      ensures stopped == old(stopped)
    {
      var room := |queue| < QUEUE_CAPACITY;
      if !room && !stopped { return Blocked; }
      var pick: bool := *;   // select chooses when both channels are ready
      if stopped && (!room || pick) { return ErrStopped; }
      queue := queue + [id];
      r := Delivered;
    }
  }

  /** RetryTranscode without a profile change, in the handler's order of checks. When no other request interferes, it
      refuses and changes nothing, or resets the row and puts the job at the end of the queue, or, while the pool is
      shutting down, leaves the row queued and the job nowhere. */
  method RetryTranscode(store: JobStore, spool: SpoolDir, pool: ComputePool, id: JobId) returns (status: Status)
    modifies store, pool
    ensures status == NotFoundStatus <==> RetryRefusal(old(store.jobs), id) == Some(NotFound)
    ensures status == Conflict <==> RetryRefusal(old(store.jobs), id) == Some(InvalidState)
    ensures status == Unprocessable <==>
            (RetryRefusal(old(store.jobs), id) == Some(InvalidKind)
             || (RetryRefusal(old(store.jobs), id) == None && old(store.jobs)[id].spoolPath == ""))
    ensures status == Gone <==> RetryRefusal(old(store.jobs), id) == None && old(store.jobs)[id].spoolPath != ""
                                && BasenameOf(old(store.jobs)[id].spoolPath) !in spool.entries
    ensures status == Waiting ==> |old(pool.queue)| >= QUEUE_CAPACITY && !old(pool.stopped)
    ensures status == InternalError ==> old(pool.stopped)
    ensures status == Accepted ==> |old(pool.queue)| < QUEUE_CAPACITY
    ensures status != NoContent
    ensures store.jobs == if status in {Accepted, InternalError, Waiting} then Reset(old(store.jobs), id)
                          else old(store.jobs)
    ensures pool.queue == if status == Accepted then old(pool.queue) + [id] else old(pool.queue)
  {
    var found := store.GetJob(id);
    if found.None? { return NotFoundStatus; }
    var job := found.value;
    if job.kind != Transcode { return Unprocessable; }
    if !job.state.Failed? && !job.state.Interrupted? { return Conflict; }
    if job.spoolPath == "" { return Unprocessable; }
    var dir := Basename(job.spoolPath);
    if dir !in spool.entries { return Gone; }
    var error := store.ResetTranscodeJob(id);
    var sent := pool.Enqueue(id);
    match sent {
      case Delivered => status := Accepted;
      case ErrStopped => status := InternalError;
      case Blocked => status := Waiting;
    }
  }

  /** DeleteJob: terminal rows only; a transcode takes its spool directory with it. */
  method DeleteJob(store: JobStore, spool: SpoolDir, id: JobId) returns (status: Status)
    requires "" !in spool.entries
    modifies store, spool
    ensures status == NotFoundStatus <==> id !in old(store.jobs)
    ensures status == Conflict <==> id in old(store.jobs) && old(store.jobs)[id].state.Active()
    ensures status in {NotFoundStatus, Conflict, NoContent}
    ensures store.jobs == if status == NoContent then Delete(old(store.jobs), {id}) else old(store.jobs)
    ensures spool.entries == if status == NoContent && old(store.jobs)[id].kind == Transcode
                             then old(spool.entries) - {BasenameOf(old(store.jobs)[id].spoolPath)}
                             else old(spool.entries)
  {
    var found := store.GetJob(id);
    if found.None? { return NotFoundStatus; }
    var job := found.value;
    match job.state {
      case Done =>
      case Failed =>
      case Cancelled =>
      case Interrupted =>
      case _ => return Conflict;
    }
    var removed := store.DeleteJob(id);
    if job.kind == Transcode && job.spoolPath != "" {
      var parent := Basename(job.spoolPath);
      var ok := spool.Cleanup(parent);
    }
    status := NoContent;
  }
}
