/** A spool directory lives for as long as some transcode row may still read it. */
module SpoolRetention {
  import opened Options
  import opened Jobs
  import opened Protocol
  import opened Ownership
  import opened Settled

  predicate IsTranscode(s: State, j: JobId) { j in s.seen && s.seen[j].0 == Transcode }

  /** The directory a transcode was created with. */
  function Dir(s: State, j: JobId): string
    requires j in s.seen
  {
    BasenameOf(s.seen[j].1)
  }

  /** Transcodes are the one child of a rip each, and own its directory. */
  ghost predicate DirsOwned(s: State) {
    && (forall j :: IsTranscode(s, j) ==> s.seen[j].1 != "" && Dir(s, j) in s.forked)
    && (forall i, j :: IsTranscode(s, i) && IsTranscode(s, j) && Dir(s, i) == Dir(s, j) ==> i == j)
    && (forall r :: r in s.forked ==> r != "" && SeparatorFree(r) && r in s.seen)
  }

  /** Places in which a rip can still create its directory or child. */
  predicate Unforked(s: State, p: Place)
    requires p.InSend? ==> p.thread in s.sends
  {
    p.DriveSide(s) && (p.AtWorker? ==> s.At(p.worker).BeforeChild())
  }

  ghost predicate RipsUnforked(s: State) {
    forall p, j: JobId :: Holds(s, p, j) && Unforked(s, p) ==> j !in s.forked
  }

  /** Copies of spool paths held by workers and deletion handlers are the paths the jobs were created with. */
  predicate CopyOk(s: State, j: JobId, row: Job) { j in s.seen && s.seen[j] == (row.kind, row.spoolPath) }

  ghost predicate PcOk(s: State, w: Worker) {
    match s.At(w)
    case Loaded(j, row) => CopyOk(s, j, row)
    case Started(j, row) => CopyOk(s, j, row)
    case Finishing(j, _, spool) => spool != "" ==> IsTranscode(s, j) && s.seen[j].1 == spool
    case Ripping(j) => w.DriveWorker? && j in s.disk
    case Ripped(j) => w.DriveWorker? && j in s.disk
    case RipFailed(_, _) => w.DriveWorker?
    case CleaningUp(_, spool) => Retired(s, BasenameOf(spool))
    case _ => true
  }

  ghost predicate DeletionOk(s: State, d: Deletion) {
    match d
    case Checked(j, row) => CopyOk(s, j, row)
    case RowGone(spool) => Retired(s, BasenameOf(spool))
  }

  ghost predicate CopiesOk(s: State) {
    && (forall w :: PcOk(s, w))
    && (forall t <- s.deletions :: DeletionOk(s, s.deletions[t]))
  }

  /** No row will ever need the directory again. */
  ghost predicate Retired(s: State, dir: string) {
    && dir in s.forked
    && forall j <- s.rows :: IsTranscode(s, j) && Dir(s, j) == dir ==> s.rows[j].state == Done && !Owned(s, j)
  }

  ghost predicate NeedsDir(s: State, j: JobId) {
    IsTranscode(s, j) && j in s.rows && (HoldsSpool(s.rows[j].state) || Owned(s, j))
  }

  ghost predicate DirsPresent(s: State) { forall j :: NeedsDir(s, j) ==> Dir(s, j) in s.disk }

  ghost predicate SpoolInv(s: State) { DirsOwned(s) && RipsUnforked(s) && CopiesOk(s) && DirsPresent(s) }

  // ---- Names ----

  lemma DirsOwnedKept(s: State, step: Step)
    requires Inv(s) && SpoolInv(s) && Enabled(s, step)
    ensures DirsOwned(Apply(s, step))
  {
    if step.Work? && step.action.CreateChild? {
      NewChildDirsOwned(s, step.worker, step.action.child);
    } else {
      var s' := Apply(s, step);
      assert s'.forked == s.forked;
      forall j | j in s'.seen ensures IsTranscode(s', j) <==> IsTranscode(s, j) {
        if j in s.seen { SeenGrows(s, step, j); }
      }
      forall j | j in s.seen ensures j in s'.seen && s'.seen[j] == s.seen[j] { SeenGrows(s, step, j); }
    }
  }

  lemma NewChildDirsOwned(s: State, w: Worker, c: JobId)
    requires Inv(s) && SpoolInv(s) && CanWork(s, w, CreateChild(c))
    ensures DirsOwned(AfterWork(s, w, CreateChild(c)))
  {
    var s', rip := AfterWork(s, w, CreateChild(c)), s.At(w).job;
    BasenameOfSpoolPath(s.root, rip);
    RipNotForked(s, w, c);
    assert s'.forked == s.forked + {rip} && s'.seen == s.seen[c := (Transcode, SpoolPath(s.root, rip))];
    OthersElsewhere(s, w, c);
  }

  lemma RipNotForked(s: State, w: Worker, c: JobId)
    requires Inv(s) && SpoolInv(s) && CanWork(s, w, CreateChild(c))
    ensures s.At(w).job !in s.forked && s.At(w).job in s.seen
  {
    assert PcOk(s, w) && Holds(s, AtWorker(w), s.At(w).job) && Unforked(s, AtWorker(w));
  }

  lemma OthersElsewhere(s: State, w: Worker, c: JobId)
    requires SpoolInv(s) && CanWork(s, w, CreateChild(c)) && s.At(w).job !in s.forked
    requires AfterWork(s, w, CreateChild(c)).seen == s.seen[c := (Transcode, SpoolPath(s.root, s.At(w).job))]
    ensures forall j | IsTranscode(AfterWork(s, w, CreateChild(c)), j) && j != c ::
      IsTranscode(s, j) && Dir(AfterWork(s, w, CreateChild(c)), j) == Dir(s, j) != s.At(w).job
  {
  }

  lemma ForkedBefore(s: State, step: Step, r: string)
    requires Enabled(s, step) && r in Apply(s, step).forked
    ensures r in s.forked || (step.Work? && step.action.CreateChild? && r == s.At(step.worker).job)
  {
  }

  lemma UnforkedBefore(s: State, step: Step, p: Place, j: JobId)
    requires Enabled(s, step) && Holds(Apply(s, step), p, j) && Unforked(Apply(s, step), p)
    requires Introduced(step) != Some((j, p)) && Holds(s, Origin(s, step, p), j)
    ensures Unforked(s, Origin(s, step, p))
    ensures step.Work? && step.action.CreateChild? ==> p != AtWorker(step.worker)
  {
    SideKept(s, step, p, j);
    match p {
      case AtWorker(w) =>
      case _ =>
    }
  }

  lemma RipsUnforkedKept(s: State, step: Step)
    requires Inv(s) && SpoolInv(s) && Enabled(s, step)
    ensures RipsUnforked(Apply(s, step))
  {
    var s' := Apply(s, step);
    forall p, j: JobId | Holds(s', p, j) && Unforked(s', p) ensures j !in s'.forked {
      if j in s'.forked {
        ForkedBefore(s, step, j);
        HoldsBefore(s, step, p, j);
        if Introduced(step) != Some((j, p)) {
          UnforkedBefore(s, step, p, j);
          if j !in s.forked { assert Holds(s, AtWorker(step.worker), j); }
        }
      }
    }
  }

  // ---- Retired directories ----

  lemma RetiredKept(s: State, step: Step, dir: string)
    requires Inv(s) && SpoolInv(s) && Enabled(s, step) && Retired(s, dir)
    ensures Retired(Apply(s, step), dir)
  {
    var s' := Apply(s, step);
    forall j | j in s'.rows && IsTranscode(s', j) && Dir(s', j) == dir
      ensures s'.rows[j].state == Done && !Owned(s', j)
    {
      RowBefore(s, step, j);
      if j in s.rows {
        SeenGrows(s, step, j);
        SettledKept(s, step, j);
      } else {
        IntroducedIsNew(s, step);
        ChildDirNew(s, step, j);
      }
    }
  }

  lemma ChildDirNew(s: State, step: Step, c: JobId)
    requires Inv(s) && SpoolInv(s) && Enabled(s, step) && Introduced(step).Some? && Introduced(step).value.0 == c
    requires c !in s.seen && IsTranscode(Apply(s, step), c)
    ensures step.Work? && step.action.CreateChild? && s.At(step.worker).job == Dir(Apply(s, step), c)
    ensures Dir(Apply(s, step), c) !in s.forked && Dir(Apply(s, step), c) in s.disk
  {
    var w := step.worker;
    BasenameOfSpoolPath(s.root, s.At(w).job);
    assert PcOk(s, w) && Holds(s, AtWorker(w), s.At(w).job) && Unforked(s, AtWorker(w));
  }

  /** A transcode's final write of `done` retires its directory. */
  lemma DoneRetires(s: State, w: Worker, now: string)
    requires Inv(s) && SpoolInv(s) && CanWork(s, w, FinalWrite(now)) && s.At(w).outcome.Done? && s.At(w).spool != ""
    ensures Retired(AfterWork(s, w, FinalWrite(now)), BasenameOf(s.At(w).spool))
  {
    var s', j := AfterWork(s, w, FinalWrite(now)), s.At(w).job;
    assert PcOk(s, w);
    if j in s.rows { FinalWriteSettles(s, w, now); }
    forall i | i in s'.rows && IsTranscode(s', i) && Dir(s', i) == BasenameOf(s.At(w).spool) ensures i == j {
      assert IsTranscode(s, i) && Dir(s, i) == Dir(s, j);
    }
  }

  lemma DeleteRetires(s: State, t: nat, cascaded: set<JobId>)
    requires Inv(s) && SpoolInv(s) && CanServe(s, DeleteRow(t, cascaded))
    requires t in DeletionsAfterRequest(s, DeleteRow(t, cascaded))
    ensures Retired(AfterRequest(s, DeleteRow(t, cascaded)), BasenameOf(s.deletions[t].row.spoolPath))
  {
    var s', j := AfterRequest(s, DeleteRow(t, cascaded)), s.deletions[t].job;
    assert DeletionOk(s, s.deletions[t]) && IsTranscode(s, j);
    forall i | i in s'.rows && IsTranscode(s', i) && Dir(s', i) == Dir(s, j) ensures i == j {
      assert IsTranscode(s, i);
    }
  }

  // ---- Removals ----

  /** Outside a restart only the directory of a failed rip and retired directories are removed. */
  lemma DiskRemoval(s: State, step: Step, dir: string)
    requires Inv(s) && SpoolInv(s) && Enabled(s, step) && !step.Crash? && dir in s.disk && dir !in Apply(s, step).disk
    ensures || (step.Work? && step.action.CleanFailedRip? && dir == s.At(step.worker).job && dir !in s.forked)
            || Retired(s, dir)
  {
    match step {
      case Work(w, a) =>
        assert PcOk(s, w);
        if a.CleanFailedRip? { assert Holds(s, AtWorker(w), s.At(w).job) && Unforked(s, AtWorker(w)); }
      case Serve(r) => assert r.CleanDeleted? && DeletionOk(s, s.deletions[r.thread]);
    }
  }

  lemma RippingDirKept(s: State, step: Step, w: Worker)
    requires Inv(s) && SpoolInv(s) && Enabled(s, step) && !step.Crash?
    requires (s.At(w).Ripping? || s.At(w).Ripped?) && Apply(s, step).At(w) == s.At(w)
    ensures s.At(w).job in Apply(s, step).disk
  {
    var j := s.At(w).job;
    assert PcOk(s, w) && Holds(s, AtWorker(w), j) && Unforked(s, AtWorker(w));
    if j !in Apply(s, step).disk {
      DiskRemoval(s, step, j);
      assert Holds(s, AtWorker(step.worker), j);
    }
  }

  lemma CopyOkKept(s: State, step: Step, j: JobId, row: Job)
    requires Enabled(s, step) && CopyOk(s, j, row)
    ensures CopyOk(Apply(s, step), j, row)
  {
    SeenGrows(s, step, j);
  }

  lemma PcOkKept(s: State, step: Step, w: Worker)
    requires Inv(s) && SpoolInv(s) && Enabled(s, step) && !step.Crash?
    ensures PcOk(Apply(s, step), w)
  {
    if step.Work? && step.worker == w {
      PcOkAfterOwnStep(s, w, step.action);
    } else {
      assert Apply(s, step).At(w) == s.At(w);
      OtherPcOkKept(s, step, w);
    }
  }

  lemma OtherPcOkKept(s: State, step: Step, w: Worker)
    requires Inv(s) && SpoolInv(s) && Enabled(s, step) && !step.Crash? && Apply(s, step).At(w) == s.At(w)
    ensures PcOk(Apply(s, step), w)
  {
    assert PcOk(s, w);
    match s.At(w) {
      case Loaded(j, row) => CopyOkKept(s, step, j, row);
      case Started(j, row) => CopyOkKept(s, step, j, row);
      case Finishing(j, _, spool) => if spool != "" { SeenGrows(s, step, j); }
      case Ripping(_) => RippingDirKept(s, step, w);
      case Ripped(_) => RippingDirKept(s, step, w);
      case CleaningUp(_, spool) => RetiredKept(s, step, BasenameOf(spool));
      case _ =>
    }
  }

  lemma PcOkAfterOwnStep(s: State, w: Worker, a: Action)
    requires Inv(s) && SpoolInv(s) && CanWork(s, w, a)
    ensures PcOk(AfterWork(s, w, a), w)
  {
    assert PcOk(s, w);
    assert AfterWork(s, w, a).At(w) == NextPc(s, w, a);
    match a {
      case FinalWrite(now) => if NextPc(s, w, a).CleaningUp? { DoneRetires(s, w, now); }
      case HandlerReturns(_) => assert Holds(s, AtWorker(w), s.At(w).job);
      case _ =>
    }
  }

  lemma CopiesOkKept(s: State, step: Step)
    requires Inv(s) && SpoolInv(s) && Enabled(s, step)
    ensures CopiesOk(Apply(s, step))
  {
    var s' := Apply(s, step);
    if !step.Crash? {
      forall w ensures PcOk(s', w) { PcOkKept(s, step, w); }
      forall t | t in s'.deletions ensures DeletionOk(s', s'.deletions[t]) {
        if t in s.deletions && s'.deletions[t] == s.deletions[t] {
          match s.deletions[t] {
            case Checked(j, row) => CopyOkKept(s, step, j, row);
            case RowGone(spool) => RetiredKept(s, step, BasenameOf(spool));
          }
        } else if step.request.DeleteRow? {
          DeleteRetires(s, t, step.request.cascaded);
        }
      }
    }
  }

  // ---- Presence ----

  /** A row changes into a state that holds the spool only from such a state, or by its owner. */
  lemma NeededBefore(s: State, step: Step, j: JobId)
    requires Inv(s) && SpoolInv(s) && Enabled(s, step) && NeedsDir(Apply(s, step), j) && j in s.rows
    ensures NeedsDir(s, j)
  {
    var s' := Apply(s, step);
    RowBefore(s, step, j);
    SeenGrows(s, step, j);
    if p :| Holds(s', p, j) {
      HoldsBefore(s, step, p, j);
    } else {
      HeldSpoolBefore(s, step, j);
    }
  }

  lemma HeldSpoolBefore(s: State, step: Step, j: JobId)
    requires Inv(s) && Enabled(s, step) && j in s.rows && j in Apply(s, step).rows
    requires s.rows[j].kind == Transcode && HoldsSpool(Apply(s, step).rows[j].state)
    ensures HoldsSpool(s.rows[j].state) || Owned(s, j)
  {
    match step {
      case Work(w, a) =>
        assert Apply(s, step).rows == RowsAfter(s, w, a);
        if s.At(w).Owns(j) { assert Holds(s, AtWorker(w), j); }
      case Serve(r) => assert Apply(s, step).rows == RowsAfterRequest(s, r);
      case Crash(_, _) =>
    }
  }

  lemma DirsPresentKept(s: State, step: Step)
    requires Inv(s) && SpoolInv(s) && Enabled(s, step)
    ensures DirsPresent(Apply(s, step))
  {
    var s' := Apply(s, step);
    forall j | NeedsDir(s', j) ensures Dir(s', j) in s'.disk { DirPresentKept(s, step, j); }
  }

  lemma DirPresentKept(s: State, step: Step, j: JobId)
    requires Inv(s) && SpoolInv(s) && Enabled(s, step) && NeedsDir(Apply(s, step), j)
    ensures Dir(Apply(s, step), j) in Apply(s, step).disk
  {
    var s' := Apply(s, step);
    RowBefore(s, step, j);
    if j !in s.rows {
      IntroducedIsNew(s, step);
      ChildDirNew(s, step, j);
    } else {
      NeededBefore(s, step, j);
      SeenGrows(s, step, j);
      if step.Crash? {
        assert ReferencesSpool(s'.rows[j], Dir(s', j));
      } else if Dir(s', j) !in s'.disk {
        DiskRemoval(s, step, Dir(s, j));
      }
    }
  }

  lemma SpoolInvKept(s: State, step: Step)
    requires Inv(s) && SpoolInv(s) && Enabled(s, step)
    ensures SpoolInv(Apply(s, step))
  {
    DirsOwnedKept(s, step);
    RipsUnforkedKept(s, step);
    CopiesOkKept(s, step);
    DirsPresentKept(s, step);
  }

  lemma {:induction false} SpoolInvAlways(run: seq<State>, steps: seq<Step>, i: nat)
    requires IsExecution(run, steps) && i < |run|
    ensures Inv(run[i]) && SpoolInv(run[i])
    decreases i
  {
    InvAlways(run, steps, i);
    if i > 0 {
      SpoolInvAlways(run, steps, i - 1);
      assert Links(run, steps, i - 1);
      SpoolInvKept(run[i - 1], steps[i - 1]);
    }
  }

  // ---- Main results ----

  /** In every reachable state, a transcode row that is active, failed or interrupted has its directory on disk. */
  lemma SpoolRetained(run: seq<State>, steps: seq<Step>, i: nat, j: JobId)
    requires IsExecution(run, steps) && i < |run| && j in run[i].rows
    requires run[i].rows[j].kind == Transcode && HoldsSpool(run[i].rows[j].state)
    ensures run[i].rows[j].spoolPath != "" && BasenameOf(run[i].rows[j].spoolPath) in run[i].disk
  {
    SpoolInvAlways(run, steps, i);
    assert NeedsDir(run[i], j);
  }

  /** A job that may be reset has its directory at that moment. */
  lemma RetryFindsSpool(run: seq<State>, steps: seq<Step>, i: nat, j: JobId)
    requires IsExecution(run, steps) && i < |run| && RetryRefusal(run[i].rows, j) == None
    ensures run[i].rows[j].spoolPath != "" && BasenameOf(run[i].rows[j].spoolPath) in run[i].disk
  {
    SpoolRetained(run, steps, i, j);
  }

  lemma {:induction false} SeenStays(run: seq<State>, steps: seq<Step>, i: nat, k: nat, j: JobId)
    requires IsExecution(run, steps) && i <= k < |run| && j in run[i].seen
    ensures j in run[k].seen && run[k].seen[j] == run[i].seen[j]
    decreases k
  {
    if i < k {
      SeenStays(run, steps, i, k - 1, j);
      assert Links(run, steps, k - 1);
      SeenGrows(run[k - 1], steps[k - 1], j);
    }
  }

  /** RetryTranscode reads the row at one step and looks for the directory at a later one. If the row it read could be
      retried and the directory is not there, then by now the job is deleted, done or cancelled. */
  lemma RetryGoneMeansOver(run: seq<State>, steps: seq<Step>, i: nat, k: nat, j: JobId)
    requires IsExecution(run, steps) && i <= k < |run| && RetryRefusal(run[i].rows, j) == None
    requires BasenameOf(run[i].rows[j].spoolPath) !in run[k].disk
    ensures i < k && (j !in run[k].rows || run[k].rows[j].state.Done? || run[k].rows[j].state.Cancelled?)
  {
    RetryFindsSpool(run, steps, i, j);
    InvAlways(run, steps, i);
    InvAlways(run, steps, k);
    SeenStays(run, steps, i, k, j);
    if j in run[k].rows && HoldsSpool(run[k].rows[j].state) { SpoolRetained(run, steps, k, j); }
  }

  /** A transcode under way reads a directory that is there, cancelled or not, unless its row was deleted. */
  lemma TranscodeReadsItsSpool(run: seq<State>, steps: seq<Step>, i: nat, w: Worker)
    requires IsExecution(run, steps) && i < |run| && w.ComputeWorker?
    requires run[i].At(w).Started? && run[i].At(w).job in run[i].rows
    ensures BasenameOf(run[i].At(w).row.spoolPath) in run[i].disk
  {
    var s, j := run[i], run[i].At(w).job;
    SpoolInvAlways(run, steps, i);
    assert PcOk(s, w) && Holds(s, AtWorker(w), j);
    assert NeedsDir(s, j);
  }

  predicate RetryableFrom(job: Job, name: string) {
    job.kind == Transcode && job.state.Retryable() && BasenameOf(job.spoolPath) == name
  }

  predicate HasRetryable(t: Table, name: string) { exists j <- t :: RetryableFrom(t[j], name) }

  /** After a restart whose removals succeed, the spool holds exactly the directories of the transcodes that can be
      retried: no such directory is missing, and nothing else is left. */
  lemma RestartKeepsExactlyRetryable(run: seq<State>, steps: seq<Step>, i: nat, now: string, name: string)
    requires IsExecution(run, steps) && i < |steps| && steps[i] == Crash(now, {})
    ensures name in run[i + 1].disk <==> HasRetryable(run[i + 1].rows, name)
  {
    var s' := run[i + 1];
    SpoolInvAlways(run, steps, i);
    SpoolInvAlways(run, steps, i + 1);
    assert Links(run, steps, i);
    forall j | j in s'.rows ensures !s'.rows[j].state.Active() {}
    if j :| j in s'.rows && RetryableFrom(s'.rows[j], name) {
      SpoolRetained(run, steps, i + 1, j);
    }
    if name in s'.disk {
      assert Referenced(s'.rows, name);
      var j :| j in s'.rows && ReferencesSpool(s'.rows[j], name);
    }
  }
}
