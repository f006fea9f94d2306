/** The history statements of daemon/state/store.go that delete jobs and then discs: PruneHistory, ClearHistory and
    DeleteJobAndOrphans. Deleting a disc deletes its jobs, deleting a job deletes its children. */
module History {
  import opened Options
  import opened Jobs
  import opened Timestamps
  import opened Retention

  /** `drive` is None for a NULL or empty drive_id. */
  datatype Disc = Disc(drive: Option<nat>, createdAt: string)

  type Discs = map<nat, Disc>

  /** The foreign keys of the jobs table. */
  ghost predicate Linked(t: Table, discs: Discs) {
    forall j <- t :: t[j].disc in discs && (t[j].parent.Some? ==> t[j].parent.value in t)
  }

  // ---- Sweeping discs ----

  predicate NewerOnDrive(discs: Discs, d: nat, e: nat)
    requires d in discs && e in discs
  {
    discs[e].drive == discs[d].drive && Less(discs[d].createdAt, discs[e].createdAt)
  }

  /** On no drive, or not the newest disc of its drive. */
  predicate Superseded(discs: Discs, d: nat)
    requires d in discs
  {
    discs[d].drive.None? || exists e <- discs :: NewerOnDrive(discs, d, e)
  }

  /** The discs left when the guard is evaluated on all candidates first. */
  function Swept(discs: Discs, candidates: set<nat>): Discs {
    discs - set d | d in discs && d in candidates && Superseded(discs, d)
  }

  function JobsOf(t: Table, discs: set<nat>): set<JobId> { set j | j in t && t[j].disc in discs }

  function DiscsOf(t: Table): set<nat> { set j | j in t :: t[j].disc }

  /** The newest disc of a drive is never swept ... */
  lemma {:induction false} NewestAbove(discs: Discs, d: nat, among: set<nat>) returns (top: nat)
    requires among <= discs.Keys && d in among && discs[d].drive.Some?
    ensures top in among && discs[top].drive == discs[d].drive
    ensures top == d || NewerOnDrive(discs, d, top)
    ensures forall e <- among :: !NewerOnDrive(discs, top, e)
    decreases among
  {
    if e :| e in among && NewerOnDrive(discs, d, e) {
      LessIrreflexive(discs[d].createdAt);
      top := NewestAbove(discs, e, among - {d});
      if top != e { LessTransitive(discs[d].createdAt, discs[e].createdAt, discs[top].createdAt); }
      LessTotal(discs[d].createdAt, discs[top].createdAt);
    } else {
      top := d;
    }
  }

  /** ... so every drive that had a disc still has its newest one. */
  lemma NewestSurvives(discs: Discs, candidates: set<nat>, d: nat)
    requires d in discs && discs[d].drive.Some?
    ensures exists top ::
      top in Swept(discs, candidates) && discs[top].drive == discs[d].drive && !Superseded(discs, top)
  {
    var top := NewestAbove(discs, d, discs.Keys);
    assert !Superseded(discs, top);
  }

  /** As long as only superseded discs are gone, the guard's answer for a remaining disc does not change. */
  lemma GuardStable(discs: Discs, left: Discs, d: nat)
    requires left.Keys <= discs.Keys && (forall e <- left :: left[e] == discs[e]) && d in left
    requires forall e <- discs :: e in left || Superseded(discs, e)
    ensures Superseded(left, d) <==> Superseded(discs, d)
  {
    if Superseded(discs, d) && discs[d].drive.Some? {
      var top := NewestAbove(discs, d, discs.Keys);
      assert !Superseded(discs, top);
      assert NewerOnDrive(left, d, top);
    }
  }

  // ---- What each operation leaves ----

  /** Discs whose jobs have all finished, and that have one. */
  function HistoryDiscs(t: Table): set<nat> {
    set d | d in DiscsOf(t) && forall j <- t :: t[j].disc == d ==> !t[j].state.Active()
  }

  function Finished(t: Table): set<JobId> { set j | j in t && !t[j].state.Active() }

  /** The jobs left by ClearHistory's first statement, and then by its second. */
  function AfterDiscs(t: Table, discs: Discs): Table {
    Delete(t, JobsOf(t, discs.Keys - Swept(discs, HistoryDiscs(t)).Keys))
  }

  function Cleared(t: Table, discs: Discs): Table {
    Delete(AfterDiscs(t, discs), Finished(AfterDiscs(t, discs)))
  }

  datatype Result = Result(success: nat, failure: nat, discs: nat)

  /** DELETE FROM jobs: the rows it names in rowid order, each with its cascade; RowsAffected leaves out those that an
      earlier cascade took. */
  method DeleteRows(t: Table, order: seq<JobId>, ids: set<JobId>) returns (left: Table, n: nat)
    requires Inserted(t, order) && ids <= t.Keys
    ensures left == Delete(t, ids) && n == |Counted(t, ids)|
    ensures Inserted(left, order)
  {
    left, n := t, 0;
    DeleteStart(t, order, ids);
    for k := 0 to |order|
      invariant left == Remaining(t, order, ids, k) && n == Affected(t, order, ids, k)
    {
      DeleteStep(t, order, ids, k, left, n);
      if order[k] in ids && order[k] in left {
        left := Delete(left, {order[k]});
        n := n + 1;
      }
    }
    DeleteFinish(t, order, ids);
  }

  class Database {
    var jobs: Table
    var discs: Discs
    /** The ids of all rows ever inserted, in rowid order. */
    var order: seq<JobId>

    ghost predicate Valid()
      reads this
    {
      Inserted(jobs, order)
    }

    constructor ()
      ensures Valid() && jobs == map[] && discs == map[] && order == []
    {
      jobs, discs, order := map[], map[], [];
    }

    /** The insert fails when the disc or the parent it refers to is missing. */
    method CreateJob(id: JobId, job: Job) returns (ok: bool)
      requires Valid() && id !in order
      modifies this`jobs, this`order
      ensures Valid() && ok == (job.disc in discs && (job.parent.Some? ==> job.parent.value in old(jobs)))
      ensures jobs == if ok then old(jobs)[id := job] else old(jobs)
      ensures Linked(old(jobs), discs) ==> Linked(jobs, discs)
    {
      ok := job.disc in discs && (job.parent.Some? ==> job.parent.value in jobs);
      if ok {
        InsertLast(jobs, order, id, job);
        jobs := jobs[id := job];
        order := order + [id];
      }
    }

    /** DELETE FROM discs over candidates that have no job, taking rows in any order and evaluating the guard against
        the shrinking table: the outcome is that of evaluating it on all rows first. */
    method SweepDiscs(candidates: set<nat>) returns (removed: nat)
      modifies this`discs
      ensures discs == Swept(old(discs), candidates) && removed == |old(discs)| - |discs|
    {
      removed := 0;
      var todo := candidates;
      while todo != {}
        invariant todo <= candidates && removed == |old(discs)| - |discs|
        invariant discs.Keys <= old(discs).Keys && forall e <- discs :: discs[e] == old(discs)[e]
        invariant forall e <- old(discs) ::
          e in discs <==> e in todo || e !in candidates || !Superseded(old(discs), e)
        decreases todo
      {
        var d :| d in todo;
        todo := todo - {d};
        if d in discs {
          GuardStable(old(discs), discs, d);
          if Superseded(discs, d) {
            discs := discs - {d};
            removed := removed + 1;
          }
        }
      }
    }

    method PruneHistory(p: Policy) returns (r: Result)
      requires Valid()
      modifies this
      ensures Valid() && jobs == Pruned(old(jobs), p)
      ensures discs == if p.Active() then Swept(old(discs), old(discs).Keys - DiscsOf(jobs)) else old(discs)
      ensures r.success == ReportedSuccess(old(jobs), p) && r.failure == ReportedFailure(old(jobs), p)
      ensures r.discs == |old(discs)| - |discs|
    {
      NothingSelected(jobs, Success, p.success);
      NothingSelected(Delete(jobs, Selected(jobs, Success, p.success)), Failure, p.failure);
      r := Result(0, 0, 0);
      if !p.Active() { return; }
      if p.success.Active() {
        var n;
        jobs, n := DeleteRows(jobs, order, Selected(jobs, Success, p.success));
        r := r.(success := n);
      }
      if p.failure.Active() {
        var n;
        jobs, n := DeleteRows(jobs, order, Selected(jobs, Failure, p.failure));
        r := r.(failure := n);
      }
      var removed := SweepDiscs(discs.Keys - DiscsOf(jobs));
      r := r.(discs := removed);
    }

    method CountWouldPrune(p: Policy) returns (r: Result)
      ensures r == Result(|Selected(jobs, Success, p.success)|, |Selected(jobs, Failure, p.failure)|, 0)
    {
      NothingSelected(jobs, Success, p.success);
      NothingSelected(jobs, Failure, p.failure);
      r := Result(0, 0, 0);
      if p.success.Active() { r := r.(success := |Selected(jobs, Success, p.success)|); }
      if p.failure.Active() { r := r.(failure := |Selected(jobs, Failure, p.failure)|); }
    }

    method ClearHistory() returns (deleted: nat)
      requires Valid()
      modifies this
      ensures Valid() && jobs == Cleared(old(jobs), old(discs)) && discs == Swept(old(discs), HistoryDiscs(old(jobs)))
      ensures deleted == |Finished(old(jobs))|
    {
      deleted := |Finished(jobs)|;
      var before := discs.Keys;
      var removed := SweepDiscs(HistoryDiscs(jobs));
      jobs := Delete(jobs, JobsOf(jobs, before - discs.Keys));
      jobs := Delete(jobs, Finished(jobs));
      ClearStillInserted(old(jobs), old(discs), order);
    }

    /** One finished job and its children go; its disc follows when it has no other job and is superseded. */
    method DeleteJobAndOrphans(id: JobId) returns (found: bool)
      requires Valid()
      modifies this
      ensures Valid()
      ensures found == (id in old(jobs)) && jobs == if found then Delete(old(jobs), {id}) else old(jobs)
      ensures discs == if found then Swept(old(discs), {old(jobs)[id].disc} - DiscsOf(jobs)) else old(discs)
    {
      if id !in jobs { return false; }
      var disc := jobs[id].disc;
      jobs := Delete(jobs, {id});
      StillInserted(old(jobs), jobs, order);
      if disc !in DiscsOf(jobs) {
        var removed := SweepDiscs({disc});
        assert {disc} - DiscsOf(jobs) == {disc};
      } else {
        assert {disc} - DiscsOf(jobs) == {};
      }
      found := true;
    }
  }

  lemma StillInserted(t: Table, t1: Table, order: seq<JobId>)
    requires Inserted(t, order) && Within(t1, t)
    ensures Inserted(t1, order)
  {
  }

  lemma ClearStillInserted(t: Table, discs: Discs, order: seq<JobId>)
    requires Inserted(t, order)
    ensures Inserted(Cleared(t, discs), order)
  {
    StillInserted(t, Cleared(t, discs), order);
  }

  /** The table and the count when the scan has passed k rows. */
  function Remaining(t: Table, order: seq<JobId>, ids: set<JobId>, k: nat): Table
    requires k <= |order|
  {
    Delete(t, Before(order, k, ids))
  }

  function Affected(t: Table, order: seq<JobId>, ids: set<JobId>, k: nat): nat
    requires k <= |order|
  {
    |Before(order, k, ids) - Below(t, ids)|
  }

  lemma DeleteStart(t: Table, order: seq<JobId>, ids: set<JobId>)
    ensures Remaining(t, order, ids, 0) == t && Affected(t, order, ids, 0) == 0
  {
    assert Before(order, 0, ids) == {};
    assert Children(t, {}) == {};
  }

  lemma DeleteFinish(t: Table, order: seq<JobId>, ids: set<JobId>)
    requires Inserted(t, order) && ids <= t.Keys
    ensures Remaining(t, order, ids, |order|) == Delete(t, ids) && Affected(t, order, ids, |order|) == |Counted(t, ids)|
    ensures Inserted(Delete(t, ids), order)
  {
    assert Before(order, |order|, ids) == ids;
  }

  lemma DeleteStep(t: Table, order: seq<JobId>, ids: set<JobId>, k: nat, left: Table, n: nat)
    requires Inserted(t, order) && k < |order| && ids <= t.Keys
    requires left == Remaining(t, order, ids, k) && n == Affected(t, order, ids, k)
    ensures Remaining(t, order, ids, k + 1) ==
      if order[k] in ids && order[k] in left then Delete(left, {order[k]}) else left
    ensures Affected(t, order, ids, k + 1) == if order[k] in ids && order[k] in left then n + 1 else n
  {
    BeforeNext(order, k, ids);
    if order[k] in ids {
      DeleteNext(t, Before(order, k, ids), order[k]);
      CountStep(t, order, ids, k);
    } else {
      assert Before(order, k + 1, ids) == Before(order, k, ids);
    }
  }

  lemma CountStep(t: Table, order: seq<JobId>, ids: set<JobId>, k: nat)
    requires Inserted(t, order) && k < |order| && ids <= t.Keys && order[k] in ids
    requires Before(order, k + 1, ids) == Before(order, k, ids) + {order[k]}
    ensures Affected(t, order, ids, k + 1) ==
      if order[k] in Remaining(t, order, ids, k) then Affected(t, order, ids, k) + 1 else Affected(t, order, ids, k)
  {
    GoneIffBelow(t, order, ids, k);
    CountNext(Before(order, k, ids), Below(t, ids), order[k]);
  }

  lemma InsertLast(t: Table, order: seq<JobId>, id: JobId, job: Job)
    requires Inserted(t, order) && id !in order && (job.parent.Some? ==> job.parent.value in t)
    ensures Inserted(t[id := job], order + [id])
  {
    var t', order' := t[id := job], order + [id];
    forall k | 0 <= k < |order'| && order'[k] in t' && t'[order'[k]].parent.Some?
      ensures t'[order'[k]].parent.value in order'[..k]
    {
      assert order'[..k] == order[..k];
      if k == |order| { assert order[..k] == order; } else { assert order[k] in order; }
    }
  }

  lemma BeforeNext(order: seq<JobId>, k: nat, ids: set<JobId>)
    requires k < |order|
    ensures Before(order, k + 1, ids) == Before(order, k, ids) + if order[k] in ids then {order[k]} else {}
  {
  }

  lemma DeleteNext(t: Table, done: set<JobId>, j: JobId)
    ensures Delete(t, done + {j}) == if j in Doomed(t, done) then Delete(t, done) else Delete(Delete(t, done), {j})
  {
    DoomedClosed(t, done);
    DoomedClosed(t, done + {j});
    if j in Doomed(t, done) {
      DoomedLeast(t, done + {j}, Doomed(t, done));
      DoomedLeast(t, done, Doomed(t, done + {j}));
    } else {
      DeleteTwice(t, done, {j});
    }
  }

  lemma CountNext(done: set<JobId>, below: set<JobId>, j: JobId)
    requires j !in done
    ensures |done + {j} - below| == |done - below| + if j in below then 0 else 1
  {
    if j in below {
      assert done + {j} - below == done - below;
    } else {
      assert done + {j} - below == (done - below) + {j};
    }
  }

  // ---- ClearHistory ----

  /** In-progress work none of which hangs on a finished parent. */
  ghost predicate ActiveStandAlone(t: Table) { ChildClosed(t, Finished(t)) }

  lemma OnlyFinishedDiscsGo(t: Table, discs: Discs)
    ensures JobsOf(t, discs.Keys - Swept(discs, HistoryDiscs(t)).Keys) <= Finished(t)
  {
  }

  /** ClearHistory leaves exactly the active jobs if and only if no active job has a finished parent. */
  lemma ClearExactIff(t: Table, discs: Discs)
    ensures Cleared(t, discs) == t - Finished(t) <==> ActiveStandAlone(t)
  {
    var ids := JobsOf(t, discs.Keys - Swept(discs, HistoryDiscs(t)).Keys);
    var t1 := AfterDiscs(t, discs);
    OnlyFinishedDiscsGo(t, discs);
    DoomedClosed(t, ids);
    DoomedClosed(t1, Finished(t1));
    if ActiveStandAlone(t) {
      DoomedLeast(t, ids, Finished(t));
      DoomedLeast(t1, Finished(t1), Finished(t));
      assert Cleared(t, discs) == t - Finished(t);
    }
    if Cleared(t, discs) == t - Finished(t) {
      forall j | j in t && ChildOf(t[j], Finished(t)) ensures j in Finished(t) { ClearTakesChildren(t, discs, j); }
    }
  }

  /** Whatever has a finished parent goes, in progress or not. */
  lemma ClearTakesChildren(t: Table, discs: Discs, j: JobId)
    requires j in t && ChildOf(t[j], Finished(t))
    ensures j !in Cleared(t, discs)
  {
    var ids := JobsOf(t, discs.Keys - Swept(discs, HistoryDiscs(t)).Keys);
    var t1 := AfterDiscs(t, discs);
    DoomedClosed(t, ids);
    DoomedClosed(t1, Finished(t1));
    assert t[j].parent.value in Doomed(t, ids) || t[j].parent.value in Finished(t1);
  }

  /** The number it returns is the number of rows that went exactly then; it is never more. */
  lemma ClearCountIff(t: Table, discs: Discs)
    ensures |Finished(t)| <= |t| - |Cleared(t, discs)|
    ensures |Finished(t)| == |t| - |Cleared(t, discs)| <==> ActiveStandAlone(t)
  {
    DoomedClosed(AfterDiscs(t, discs), Finished(AfterDiscs(t, discs)));
    ClearExactIff(t, discs);
    CountDecides(t, Cleared(t, discs), Finished(t));
  }

  lemma CountDecides(t: Table, left: Table, f: set<JobId>)
    requires f <= t.Keys && left.Keys <= t.Keys - f && forall j <- left :: left[j] == t[j]
    ensures |f| <= |t| - |left| && (|f| == |t| - |left| <==> left == t - f)
  {
    SubsetSize(left.Keys, t.Keys - f);
    assert |t.Keys - f| == |t.Keys| - |f|;
  }

  /** No remaining job loses its disc or its parent, and no job in progress loses its disc. */
  lemma ClearKeepsLinks(t: Table, discs: Discs)
    requires Linked(t, discs)
    ensures Linked(Cleared(t, discs), Swept(discs, HistoryDiscs(t)))
    ensures forall j <- Cleared(t, discs) :: t[j].parent.Some? ==> t[j].parent.value in Cleared(t, discs)
    ensures forall j <- t :: t[j].state.Active() ==> t[j].disc in Swept(discs, HistoryDiscs(t))
    ensures forall d <- discs :: d !in DiscsOf(t) ==> d in Swept(discs, HistoryDiscs(t))
  {
    var t1 := AfterDiscs(t, discs);
    DoomedClosed(t, JobsOf(t, discs.Keys - Swept(discs, HistoryDiscs(t)).Keys));
    DoomedClosed(t1, Finished(t1));
  }

  /** A rip that is done, whenever, and whose transcode still runs: the running job goes too. */
  lemma ClearCanTakeRunningJob(finishedAt: string, identifiedAt: string)
      returns (t: Table, discs: Discs, transcode: JobId)
    ensures Linked(t, discs) && transcode in t && t[transcode].state == Running
    ensures transcode !in Cleared(t, discs) && t[transcode].disc in Swept(discs, HistoryDiscs(t))
  {
    var rip: JobId := "0";
    transcode := "1";
    t := Family(rip, transcode, finishedAt, Running, "");
    discs := map[0 := Disc(Some(0), identifiedAt)];
    assert rip in Finished(t) && ChildOf(t[transcode], Finished(t));
    ClearTakesChildren(t, discs, transcode);
    ClearKeepsLinks(t, discs);
  }

  // ---- PruneHistory and DeleteJobAndOrphans ----

  lemma DeleteKeepsLinks(t: Table, discs: Discs, ids: set<JobId>)
    requires Linked(t, discs)
    ensures Linked(Delete(t, ids), discs)
  {
    DoomedClosed(t, ids);
  }

  /** Neither takes a disc from a remaining job, nor a parent. */
  lemma SweepKeepsLinks(t: Table, discs: Discs, candidates: set<nat>)
    requires Linked(t, discs) && candidates !! DiscsOf(t)
    ensures Linked(t, Swept(discs, candidates))
  {
  }

  lemma PruneKeepsLinks(t: Table, discs: Discs, p: Policy)
    requires Linked(t, discs)
    ensures Linked(Pruned(t, p), Swept(discs, discs.Keys - DiscsOf(Pruned(t, p))))
  {
    var t1 := Delete(t, Selected(t, Success, p.success));
    DeleteKeepsLinks(t, discs, Selected(t, Success, p.success));
    DeleteKeepsLinks(t1, discs, Selected(t1, Failure, p.failure));
    SweepKeepsLinks(Pruned(t, p), discs, discs.Keys - DiscsOf(Pruned(t, p)));
  }

  lemma DeleteJobKeepsLinks(t: Table, discs: Discs, id: JobId)
    requires Linked(t, discs) && id in t
    ensures var left := Delete(t, {id}); Linked(left, Swept(discs, {t[id].disc} - DiscsOf(left)))
  {
    var left := Delete(t, {id});
    DeleteKeepsLinks(t, discs, {id});
    SweepKeepsLinks(left, discs, {t[id].disc} - DiscsOf(left));
  }

  /** A second PruneHistory with the same policy at the same time leaves jobs and discs as they are. */
  lemma PruneHistoryIdempotent(t: Table, discs: Discs, p: Policy)
    ensures var t1 := Pruned(t, p); var discs1 := Swept(discs, discs.Keys - DiscsOf(t1));
      Pruned(t1, p) == t1 && Swept(discs1, discs1.Keys - DiscsOf(t1)) == discs1
  {
    PruneIdempotent(t, p);
    var t1 := Pruned(t, p);
    var discs1 := Swept(discs, discs.Keys - DiscsOf(t1));
    forall d | d in discs1 && d !in DiscsOf(t1) ensures !Superseded(discs1, d) { GuardStable(discs, discs1, d); }
  }

  /** DELETE /api/jobs/:id refuses a row in progress, yet takes rows in progress with a finished one: exactly those that
      descend from it. */
  lemma DeleteTakesActiveIff(t: Table, id: JobId, j: JobId)
    requires id in t && !t[id].state.Active() && j in t && t[j].state.Active()
    ensures j !in Delete(t, {id}) <==> Descends(t, {id}, j)
  {
    DoomedSplit(t, {id});
    BelowIff(t, {id}, j);
  }

  lemma DeleteCanTakeRunningJob(finishedAt: string) returns (t: Table, rip: JobId, transcode: JobId)
    ensures rip in t && t[rip].state == Done && transcode in t && t[transcode].state == Running
    ensures transcode !in Delete(t, {rip})
  {
    rip, transcode := "0", "1";
    t := Family(rip, transcode, finishedAt, Running, "");
    assert Lineage(t, [rip, transcode]);
    DeleteTakesActiveIff(t, rip, transcode);
  }

  // ---- Which discs go ----

  /** Some disc of the same drive was created later. */
  predicate HasLaterDisc(discs: Discs, d: nat)
    requires d in discs
  {
    exists e :: e in discs && discs[e].drive == discs[d].drive && Less(discs[d].createdAt, discs[e].createdAt)
  }

  lemma SweptMeaning(discs: Discs, candidates: set<nat>, d: nat)
    requires d in discs
    ensures d !in Swept(discs, candidates) <==> d in candidates && (discs[d].drive == None || HasLaterDisc(discs, d))
  {
    if e :| e in discs && discs[e].drive == discs[d].drive && Less(discs[d].createdAt, discs[e].createdAt) {
      assert NewerOnDrive(discs, d, e);
    }
  }

  /** ClearHistory drops exactly the discs that have jobs, all in a final state, and are on no drive or not the newest
      of theirs. */
  lemma ClearedDiscIff(t: Table, discs: Discs, d: nat)
    requires d in discs
    ensures d !in Swept(discs, HistoryDiscs(t)) <==>
      && (exists j :: j in t && t[j].disc == d)
      && (forall j <- t :: t[j].disc == d ==> t[j].state in {Done, Failed, Cancelled, Interrupted})
      && (discs[d].drive == None || HasLaterDisc(discs, d))
  {
    SweptMeaning(discs, HistoryDiscs(t), d);
    if j :| j in t && t[j].disc == d { assert d in DiscsOf(t); }
  }

  /** PruneHistory drops exactly the discs that no remaining job refers to and that are on no drive or not the newest of
      theirs. */
  lemma PrunedDiscIff(t: Table, discs: Discs, p: Policy, d: nat)
    requires d in discs
    ensures d !in Swept(discs, discs.Keys - DiscsOf(Pruned(t, p))) <==>
      && (forall j <- Pruned(t, p) :: Pruned(t, p)[j].disc != d)
      && (discs[d].drive == None || HasLaterDisc(discs, d))
  {
    SweptMeaning(discs, discs.Keys - DiscsOf(Pruned(t, p)), d);
  }
}
