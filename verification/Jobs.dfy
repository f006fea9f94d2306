/** The jobs table and the statements of `Store` that change it, as functions on tables.
    A table maps job ids to rows; each function is the effect of one SQL statement or
    transaction (daemon/state/store.go). */
module Jobs {
  import opened Options

  predicate IsSeparator(c: char) { c == '/' || c == '\\' }

  predicate SeparatorFree(s: string) { forall c <- s :: !IsSeparator(c) }

  /** Ids are UUIDs: non-empty and free of path separators. */
  type JobId = s: string | s != "" && SeparatorFree(s) witness "0"

  datatype Kind = Rip | Transcode | Scan

  datatype JobState = Queued | Identifying | Running | Paused | Done | Failed | Cancelled | Interrupted
  {
    predicate Active() { Queued? || Identifying? || Running? || Paused? }
    predicate Retryable() { Failed? || Interrupted? }
  }

  /** `spoolPath` is "" for jobs without a spool; `finishedAt` is "" until a terminal write. */
  datatype Job = Job(kind: Kind, state: JobState, disc: nat, parent: Option<JobId>,
                     spoolPath: string, finishedAt: string, outputBytes: int)

  type Table = map<JobId, Job>

  /** Four states are under way and four are final; two of the final ones can be retried. */
  lemma StatesSplit(state: JobState)
    ensures state.Active() <==> state in {Queued, Identifying, Running, Paused}
    ensures state.Active() <==> state !in {Done, Failed, Cancelled, Interrupted}
    ensures state.Retryable() <==> state in {Failed, Interrupted}
  {
  }

  predicate IsActive(t: Table, id: JobId) { id in t && t[id].state.Active() }

  function Stamped(job: Job, state: JobState, now: string): Job {
    if state.Active() then job.(state := state) else job.(state := state, finishedAt := now)
  }

  /** UpdateJobState: an unconditional write that does nothing when the row is gone. */
  function WithState(t: Table, id: JobId, state: JobState, now: string): Table {
    if id in t then t[id := Stamped(t[id], state, now)] else t
  }

  /** CancelJobIfActive: guarded on the state column. */
  function CancelledIfActive(t: Table, id: JobId, now: string): Table {
    if IsActive(t, id) then t[id := Stamped(t[id], Cancelled, now)] else t
  }

  datatype RetryError = NotFound | InvalidKind | InvalidState

  /** The checks ResetTranscodeJob makes inside its transaction, in its order. */
  function RetryRefusal(t: Table, id: JobId): Option<RetryError> {
    if id !in t then Some(NotFound)
    else if t[id].kind != Transcode then Some(InvalidKind)
    else if !t[id].state.Retryable() then Some(InvalidState)
    else None
  }

  function Reset(t: Table, id: JobId): Table
    requires RetryRefusal(t, id) == None
  {
    t[id := t[id].(state := Queued, finishedAt := "")]
  }

  /** MarkInterruptedJobs, run when the daemon starts. */
  function MarkedInterrupted(t: Table, now: string): Table {
    map id | id in t :: if IsActive(t, id) then Stamped(t[id], Interrupted, now) else t[id]
  }

  // ---- Spool names ----

  /** The part of a path after its last separator (basenameOf and the scan in ActiveSpoolReferences). */
  function BasenameOf(p: string): (name: string)
    ensures SeparatorFree(name)
  {
    if p == "" || IsSeparator(p[|p| - 1]) then "" else BasenameOf(p[..|p| - 1]) + [p[|p| - 1]]
  }

  /** It holds neither a slash nor a backslash, and stands at the start or behind one of them. */
  lemma BasenameMeaning(p: string)
    ensures '/' !in BasenameOf(p) && '\\' !in BasenameOf(p)
    ensures exists before: string ::
      p == before + BasenameOf(p) && (before == "" || before[|before| - 1] in {'/', '\\'})
  {
    assert IsSeparator('/') && IsSeparator('\\');
    var before := BeforeBasename(p);
  }

  lemma {:induction false} BeforeBasename(p: string) returns (before: string)
    ensures p == before + BasenameOf(p) && (before == "" || IsSeparator(before[|before| - 1]))
  {
    if p == "" || IsSeparator(p[|p| - 1]) {
      before := p;
    } else {
      var n := |p| - 1;
      before := BeforeBasename(p[..n]);
      assert p == p[..n] + [p[n]];
    }
  }

  function SpoolPath(root: string, rip: JobId): string { root + "/" + rip }

  /** A separator-free suffix behind a separator is the whole basename. */
  lemma {:induction false} BasenameAfterSeparator(prefix: string, name: string)
    requires prefix != "" && IsSeparator(prefix[|prefix| - 1]) && SeparatorFree(name)
    ensures BasenameOf(prefix + name) == name
  {
    if name == "" {
      assert prefix + name == prefix;
    } else {
      var init, last := name[..|name| - 1], name[|name| - 1];
      assert (prefix + name)[..|prefix + name| - 1] == prefix + init;
      assert last in name && init + [last] == name;
      BasenameAfterSeparator(prefix, init);
    }
  }

  /** Cleanup keyed on a row's spool_path reaches the directory that Spool.Create made. */
  lemma BasenameOfSpoolPath(root: string, rip: JobId)
    ensures BasenameOf(SpoolPath(root, rip)) == rip
  {
    assert SpoolPath(root, rip) == (root + "/") + rip;
    BasenameAfterSeparator(root + "/", rip);
  }

  /** States in which a transcode row still lays claim to its spool directory. */
  predicate HoldsSpool(state: JobState) { state.Active() || state.Retryable() }

  /** What ActiveSpoolReferences selects: the directory names that GC must keep. */
  ghost predicate Referenced(t: Table, name: string) {
    || (name in t && t[name].kind == Rip && t[name].state.Active())
    || (name != "" && exists id :: id in t && ReferencesSpool(t[id], name))
  }

  predicate ReferencesSpool(job: Job, name: string) {
    job.kind == Transcode && job.spoolPath != "" && HoldsSpool(job.state) && BasenameOf(job.spoolPath) == name
  }
}
