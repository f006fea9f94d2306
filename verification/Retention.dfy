/** Retention of finished jobs: the selection that `retentionWhere` builds, PruneHistory and CountWouldPrune
    (daemon/state/store.go), over a jobs table whose `parent_job_id` deletes children with their parent
    (daemon/state/migrations/014_job_kind_and_spool.sql). */
module Retention {
  import opened Options
  import opened Jobs
  import opened Timestamps

  // ---- ON DELETE CASCADE ----

  predicate ChildOf(job: Job, ids: set<JobId>) { job.parent.Some? && job.parent.value in ids }

  /** The given rows, their children, the children of those, and so on. */
  function Doomed(t: Table, ids: set<JobId>): set<JobId>
    decreases t.Keys - ids
  {
    var children := set j | j in t && j !in ids && ChildOf(t[j], ids);
    if children == {} then ids
    else
      assert children <= t.Keys - ids;
      Doomed(t, ids + children)
  }

  function Delete(t: Table, ids: set<JobId>): Table { t - Doomed(t, ids) }

  ghost predicate ChildClosed(t: Table, ids: set<JobId>) { forall j <- t :: ChildOf(t[j], ids) ==> j in ids }

  lemma {:induction false} DoomedClosed(t: Table, ids: set<JobId>)
    ensures ids <= Doomed(t, ids) && ChildClosed(t, Doomed(t, ids))
    decreases t.Keys - ids
  {
    var children := set j | j in t && j !in ids && ChildOf(t[j], ids);
    if c :| c in children {
      assert c in t.Keys - ids;
      DoomedClosed(t, ids + children);
    } else {
      forall j | j in t && ChildOf(t[j], ids) ensures j in ids { assert j !in children; }
    }
  }

  lemma {:induction false} DoomedLeast(t: Table, ids: set<JobId>, closed: set<JobId>)
    requires ids <= closed && ChildClosed(t, closed)
    ensures Doomed(t, ids) <= closed
    decreases t.Keys - ids
  {
    var children := set j | j in t && j !in ids && ChildOf(t[j], ids);
    if c :| c in children {
      assert c in t.Keys - ids;
      DoomedLeast(t, ids + children, closed);
    }
  }

  /** Each row of a line of descent is the parent of the next. */
  ghost predicate Lineage(t: Table, path: seq<JobId>) {
    && |path| >= 2
    && forall k :: 1 <= k < |path| ==> path[k] in t && t[path[k]].parent == Some(path[k - 1])
  }

  ghost predicate Descends(t: Table, ids: set<JobId>, j: JobId) {
    exists path: seq<JobId> :: Lineage(t, path) && path[0] in ids && path[|path| - 1] == j
  }

  /** The children of the rows, their children, and so on: those that a cascade takes whether named or not. */
  function Below(t: Table, ids: set<JobId>): set<JobId> { Doomed(t, Children(t, ids)) }

  function Children(t: Table, ids: set<JobId>): set<JobId> { set j | j in t && ChildOf(t[j], ids) }

  lemma BelowClosed(t: Table, ids: set<JobId>)
    ensures ChildClosed(t, Below(t, ids)) && forall j <- t :: ChildOf(t[j], ids) ==> j in Below(t, ids)
  {
    DoomedClosed(t, Children(t, ids));
  }

  lemma {:induction false} LineageBelow(t: Table, ids: set<JobId>, path: seq<JobId>)
    requires Lineage(t, path) && path[0] in ids
    ensures path[|path| - 1] in Below(t, ids)
  {
    BelowClosed(t, ids);
    var n := |path| - 1;
    if n == 1 {
      assert ChildOf(t[path[1]], ids);
    } else {
      LineageBelow(t, ids, path[..n]);
      assert ChildOf(t[path[n]], Below(t, ids));
    }
  }

  /** The rows below are the proper descendants ... */
  lemma BelowIff(t: Table, ids: set<JobId>, j: JobId)
    ensures j in Below(t, ids) <==> Descends(t, ids, j)
  {
    if Descends(t, ids, j) {
      var path: seq<JobId> :| Lineage(t, path) && path[0] in ids && path[|path| - 1] == j;
      LineageBelow(t, ids, path);
    }
    var heirs := set i | i in t && Descends(t, ids, i);
    forall i | i in t && ChildOf(t[i], ids) ensures i in heirs {
      assert Lineage(t, [t[i].parent.value, i]);
    }
    forall i | i in t && ChildOf(t[i], heirs) ensures i in heirs {
      var path: seq<JobId> :| Lineage(t, path) && path[0] in ids && path[|path| - 1] == t[i].parent.value;
      assert Lineage(t, path + [i]);
    }
    DoomedLeast(t, Children(t, ids), heirs);
  }

  /** ... and a delete takes the named rows and those. */
  lemma DoomedSplit(t: Table, ids: set<JobId>)
    ensures Doomed(t, ids) == ids + Below(t, ids)
  {
    BelowClosed(t, ids);
    DoomedClosed(t, ids);
    DoomedLeast(t, ids, ids + Below(t, ids));
    DoomedLeast(t, Children(t, ids), Doomed(t, ids));
  }

  // ---- DELETE row by row ----

  /** The order of rowids: a row is inserted after its parent. */
  ghost predicate Inserted(t: Table, order: seq<JobId>) {
    && (forall i, k :: 0 <= i < k < |order| ==> order[i] != order[k])
    && (forall j <- t :: j in order)
    && (forall k :: 0 <= k < |order| && order[k] in t && t[order[k]].parent.Some? ==>
          t[order[k]].parent.value in order[..k])
  }

  /** RowsAffected: the named rows that are still there when the scan in rowid order comes to them. */
  function Counted(t: Table, ids: set<JobId>): set<JobId> { ids - Below(t, ids) }

  lemma DeleteTwice(t: Table, a: set<JobId>, b: set<JobId>)
    ensures Delete(Delete(t, a), b) == Delete(t, a + b)
  {
    var t1 := Delete(t, a);
    DoomedClosed(t, a);
    DoomedClosed(t, a + b);
    DoomedClosed(t1, b);
    DoomedLeast(t, a, Doomed(t, a + b));
    DoomedLeast(t1, b, Doomed(t, a + b));
    DoomedLeast(t, a + b, Doomed(t, a) + Doomed(t1, b));
  }

  lemma DoomedGrows(t: Table, a: set<JobId>, b: set<JobId>)
    requires a <= b
    ensures Doomed(t, a) <= Doomed(t, b)
  {
    DoomedClosed(t, b);
    DoomedLeast(t, a, Doomed(t, b));
  }

  function Before(order: seq<JobId>, k: nat, ids: set<JobId>): set<JobId>
    requires k <= |order|
  {
    set i | 0 <= i < k && order[i] in ids :: order[i]
  }

  /** A named row below another has gone by the time the scan comes to it ... */
  lemma BelowGoneInTime(t: Table, order: seq<JobId>, ids: set<JobId>, k: nat)
    requires Inserted(t, order) && k < |order| && order[k] in Below(t, ids)
    requires forall j <- ids :: j in order
    ensures order[k] in Doomed(t, Before(order, k, ids))
  {
    var intime := set i | 0 <= i < |order| && order[i] in t && order[i] in Doomed(t, Before(order, i, ids)) :: order[i];
    forall i: nat | i < |order| && order[i] in t && (ChildOf(t[order[i]], ids) || ChildOf(t[order[i]], intime))
      ensures order[i] in intime
    {
      var parent := t[order[i]].parent.value;
      var m :| 0 <= m < i && order[..i][m] == parent;
      assert order[m] == parent;
      DoomedClosed(t, Before(order, i, ids));
      if parent in ids {
        assert parent in Before(order, i, ids);
      } else {
        var n :| 0 <= n < |order| && order[n] in Doomed(t, Before(order, n, ids)) && order[n] == parent;
        assert Before(order, n, ids) <= Before(order, i, ids);
        DoomedGrows(t, Before(order, n, ids), Before(order, i, ids));
      }
      assert order[i] in Doomed(t, Before(order, i, ids));
    }
    DoomedLeast(t, Children(t, ids), intime);
    var n :| 0 <= n < |order| && order[n] in Doomed(t, Before(order, n, ids)) && order[n] == order[k];
    assert n == k;
  }

  /** ... and no other has. */
  lemma GoneIffBelow(t: Table, order: seq<JobId>, ids: set<JobId>, k: nat)
    requires Inserted(t, order) && k < |order| && order[k] in ids && (forall j <- ids :: j in order)
    ensures order[k] in Doomed(t, Before(order, k, ids)) <==> order[k] in Below(t, ids)
  {
    var done := Before(order, k, ids);
    if order[k] in Below(t, ids) { BelowGoneInTime(t, order, ids, k); }
    BelowClosed(t, ids);
    DoomedLeast(t, done, done + Below(t, ids));
    assert order[k] !in done;
  }

  // ---- Selection ----

  datatype Bucket = Success | Failure

  /** One bucket's limits: the age cutoff as text, and the number to keep; None and 0 mean no limit. */
  datatype Limit = Limit(cutoff: Option<string>, count: nat)
  {
    predicate Active() { cutoff.Some? || count > 0 }
  }

  datatype Policy = Policy(success: Limit, failure: Limit)
  {
    predicate Active() { success.Active() || failure.Active() }
  }

  predicate InBucket(job: Job, b: Bucket) {
    && job.finishedAt != ""
    && if b.Success? then job.state.Done? else job.state.Failed? || job.state.Cancelled? || job.state.Interrupted?
  }

  function Members(t: Table, b: Bucket): set<JobId> { set j | j in t && InBucket(t[j], b) }

  /** ORDER BY finished_at DESC, id DESC: i comes before j. */
  predicate Newer(t: Table, i: JobId, j: JobId)
    requires i in t && j in t
  {
    Less(t[j].finishedAt, t[i].finishedAt) || (t[j].finishedAt == t[i].finishedAt && Less(j, i))
  }

  /** How many of the set come before j. */
  function Rank(t: Table, ids: set<JobId>, j: JobId): nat
    requires ids <= t.Keys && j in t
  {
    |set i | i in ids && Newer(t, i, j)|
  }

  /** ... LIMIT n. */
  function Newest(t: Table, ids: set<JobId>, n: nat): set<JobId>
    requires ids <= t.Keys
  {
    set j | j in ids && Rank(t, ids, j) < n
  }

  predicate TooOld(job: Job, lim: Limit) { lim.cutoff.Some? && Less(job.finishedAt, lim.cutoff.value) }

  /** The rows that retentionWhere selects for a bucket. */
  function Selected(t: Table, b: Bucket, lim: Limit): set<JobId> {
    set j | j in Members(t, b) && (TooOld(t[j], lim) || (lim.count > 0 && j !in Newest(t, Members(t, b), lim.count)))
  }

  // ---- The order behind LIMIT ----

  lemma NewerTotal(t: Table, i: JobId, j: JobId)
    requires i in t && j in t
    ensures i != j ==> (Newer(t, i, j) <==> !Newer(t, j, i))
    ensures !Newer(t, i, i)
  {
    LessTotal(t[i].finishedAt, t[j].finishedAt);
    LessTotal(i, j);
    LessTotal(i, i);
    LessTotal(t[i].finishedAt, t[i].finishedAt);
  }

  lemma NewerTransitive(t: Table, i: JobId, j: JobId, k: JobId)
    requires i in t && j in t && k in t && Newer(t, i, j) && Newer(t, j, k)
    ensures Newer(t, i, k)
  {
    if Less(t[k].finishedAt, t[j].finishedAt) && Less(t[j].finishedAt, t[i].finishedAt) {
      LessTransitive(t[k].finishedAt, t[j].finishedAt, t[i].finishedAt);
    } else if t[i].finishedAt == t[j].finishedAt == t[k].finishedAt {
      LessTransitive(k, j, i);
    }
  }

  lemma SubsetSize(a: set<JobId>, b: set<JobId>)
    requires a <= b
    ensures |a| <= |b| && (|a| == |b| ==> a == b)
  {
    assert b == a + (b - a);
  }

  lemma RankMonotone(t: Table, ids: set<JobId>, i: JobId, j: JobId)
    requires ids <= t.Keys && i in ids && j in ids && Newer(t, i, j)
    ensures Rank(t, ids, i) < Rank(t, ids, j)
  {
    var before, later := set k | k in ids && Newer(t, k, i), set k | k in ids && Newer(t, k, j);
    forall k | k in before ensures k in later { NewerTransitive(t, k, i, j); }
    NewerTotal(t, i, i);
    SubsetSize(before + {i}, later);
  }

  /** The last in the order: everything else is newer. */
  lemma {:induction false} Oldest(t: Table, ids: set<JobId>) returns (o: JobId)
    requires ids <= t.Keys && ids != {}
    ensures o in ids && forall i <- ids :: i != o ==> Newer(t, i, o)
    decreases ids
  {
    o :| o in ids;
    if ids != {o} {
      var o' := Oldest(t, ids - {o});
      NewerTotal(t, o, o');
      if !Newer(t, o, o') {
        forall i | i in ids && i != o ensures Newer(t, i, o) {
          if i != o' { NewerTransitive(t, i, o', o); }
        }
      } else {
        o := o';
      }
    }
  }

  /** The oldest row is last, and the others rank as they would without it. */
  lemma RankWithout(t: Table, ids: set<JobId>, o: JobId)
    requires ids <= t.Keys && o in ids && forall i <- ids :: i != o ==> Newer(t, i, o)
    ensures Rank(t, ids, o) == |ids| - 1
    ensures forall j <- ids - {o} :: Rank(t, ids, j) == Rank(t, ids - {o}, j)
  {
    NewerTotal(t, o, o);
    assert (set i | i in ids && Newer(t, i, o)) == ids - {o};
    forall j | j in ids - {o} ensures Rank(t, ids, j) == Rank(t, ids - {o}, j) {
      NewerTotal(t, o, j);
      assert (set i | i in ids && Newer(t, i, j)) == (set i | i in ids - {o} && Newer(t, i, j));
    }
  }

  /** LIMIT n keeps n rows, or all when there are fewer ... */
  lemma {:induction false} NewestSize(t: Table, ids: set<JobId>, n: nat)
    requires ids <= t.Keys
    ensures |Newest(t, ids, n)| == if |ids| < n then |ids| else n
    decreases ids
  {
    if ids == {} {
      assert Newest(t, ids, n) == {};
    } else {
      var o := Oldest(t, ids);
      var rest := ids - {o};
      RankWithout(t, ids, o);
      NewestSize(t, rest, n);
      if n < |ids| {
        assert Newest(t, ids, n) == Newest(t, rest, n);
      } else {
        assert Newest(t, ids, n) == Newest(t, rest, n) + {o};
      }
    }
  }

  /** ... and every row it keeps is newer than every row it leaves out. */
  lemma NewestIsNewer(t: Table, ids: set<JobId>, n: nat, i: JobId, j: JobId)
    requires ids <= t.Keys && i in Newest(t, ids, n) && j in ids && j !in Newest(t, ids, n)
    ensures Newer(t, i, j)
  {
    NewerTotal(t, i, j);
    if !Newer(t, i, j) { RankMonotone(t, ids, j, i); }
  }

  /** Being too old passes from a row to every older one. */
  lemma OlderIsTooOld(t: Table, i: JobId, j: JobId, lim: Limit)
    requires i in t && j in t && Newer(t, i, j) && TooOld(t[i], lim)
    ensures TooOld(t[j], lim)
  {
    if Less(t[j].finishedAt, t[i].finishedAt) {
      LessTransitive(t[j].finishedAt, t[i].finishedAt, lim.cutoff.value);
    }
  }

  // ---- PruneHistory and CountWouldPrune ----

  /** The jobs left by the two DELETE statements of PruneHistory, one per bucket. */
  function Pruned(t: Table, p: Policy): Table {
    var t1 := Delete(t, Selected(t, Success, p.success));
    Delete(t1, Selected(t1, Failure, p.failure))
  }

  /** Everything the policy names. */
  function Named(t: Table, p: Policy): set<JobId> {
    Selected(t, Success, p.success) + Selected(t, Failure, p.failure)
  }

  /** A bucket without a limit runs no statement, which is as good as selecting nothing. */
  lemma NothingSelected(t: Table, b: Bucket, lim: Limit)
    ensures !lim.Active() ==> Selected(t, b, lim) == {} && Delete(t, Selected(t, b, lim)) == t
  {
  }

  ghost predicate Within(t1: Table, t: Table) { t1.Keys <= t.Keys && forall j <- t1 :: t1[j] == t[j] }

  lemma RankShrinks(t1: Table, t: Table, b: Bucket, j: JobId)
    requires Within(t1, t) && j in t1
    ensures Members(t1, b) <= Members(t, b) && Rank(t1, Members(t1, b), j) <= Rank(t, Members(t, b), j)
  {
    SubsetSize(set i | i in Members(t1, b) && Newer(t1, i, j), set i | i in Members(t, b) && Newer(t, i, j));
  }

  /** With fewer rows in the table, fewer are selected. */
  lemma SelectionShrinks(t1: Table, t: Table, b: Bucket, lim: Limit)
    requires Within(t1, t)
    ensures Selected(t1, b, lim) <= Selected(t, b, lim)
  {
    forall j | j in Selected(t1, b, lim) ensures j in Selected(t, b, lim) { RankShrinks(t1, t, b, j); }
  }

  lemma DeletedAreGone(t: Table, ids: set<JobId>, b: Bucket, lim: Limit, t': Table)
    requires Selected(t, b, lim) <= ids && Within(t', Delete(t, ids))
    ensures Selected(t', b, lim) == {}
  {
    DoomedClosed(t, ids);
    SelectionShrinks(t', t, b, lim);
  }

  /** Pruning again with the same policy at the same time removes nothing, cascades or not. */
  lemma PruneIdempotent(t: Table, p: Policy)
    ensures Pruned(Pruned(t, p), p) == Pruned(t, p)
  {
    var s := Selected(t, Success, p.success);
    var t1 := Delete(t, s);
    var f := Selected(t1, Failure, p.failure);
    var t2 := Delete(t1, f);
    DeletedAreGone(t, s, Success, p.success, t2);
    DeletedAreGone(t1, f, Failure, p.failure, t2);
    assert Delete(t2, {}) == t2;
  }

  /** If deleting a closed set of named rows leaves a selected row in place, it stays selected: the newest rows that
      shut it out are still there. */
  lemma StaysSelected(t: Table, gone: set<JobId>, p: Policy, j: JobId)
    requires ChildClosed(t, Named(t, p)) && gone <= Named(t, p)
    requires j in Selected(t, Failure, p.failure) && j !in gone
    ensures j in Selected(t - gone, Failure, p.failure)
  {
    var lim, t1 := p.failure, t - gone;
    var all, left := Members(t, Failure), Members(t1, Failure);
    if !TooOld(t[j], lim) {
      var top := Newest(t, all, lim.count);
      NewestSize(t, all, lim.count);
      RankBelowSize(t, all, j);
      forall i | i in top ensures i in left && Newer(t1, i, j) {
        NewestIsNewer(t, all, lim.count, i, j);
        if TooOld(t[i], lim) { OlderIsTooOld(t, i, j, lim); }
        assert i !in Selected(t, Failure, lim) && i !in Selected(t, Success, p.success);
      }
      SubsetSize(top, set i | i in left && Newer(t1, i, j));
    }
  }

  lemma RankBelowSize(t: Table, ids: set<JobId>, j: JobId)
    requires ids <= t.Keys && j in ids
    ensures Rank(t, ids, j) < |ids|
  {
    NewerTotal(t, j, j);
    SubsetSize((set i | i in ids && Newer(t, i, j)) + {j}, ids);
  }

  /** What PruneHistory leaves is exactly what the policy does not name, row by row, if and only if no row that is to
      stay has a parent that is to go. */
  lemma PruneExactIff(t: Table, p: Policy)
    ensures Pruned(t, p) == t - Named(t, p) <==> ChildClosed(t, Named(t, p))
  {
    var s := Selected(t, Success, p.success);
    var t1 := Delete(t, s);
    var f := Selected(t1, Failure, p.failure);
    DoomedClosed(t, s);
    DoomedClosed(t1, f);
    SelectionShrinks(t1, t, Failure, p.failure);
    if ChildClosed(t, Named(t, p)) {
      DoomedLeast(t, s, Named(t, p));
      DoomedLeast(t1, f, Named(t, p));
      forall j | j in Named(t, p) ensures j !in Pruned(t, p) {
        if j in t1 { StaysSelected(t, Doomed(t, s), p, j); }
      }
      assert Pruned(t, p) == t - Named(t, p);
    }
    if Pruned(t, p) == t - Named(t, p) {
      forall j | j in t && ChildOf(t[j], Named(t, p)) ensures j in Named(t, p) {
        var parent := t[j].parent.value;
        assert parent !in Pruned(t, p);
        assert parent in Doomed(t, s) || parent in Doomed(t1, f);
        assert j !in Pruned(t, p);
      }
    }
  }

  function LimitOf(p: Policy, b: Bucket): Limit { if b.Success? then p.success else p.failure }

  /** Then a bucket is left with exactly its newest rows, up to the count, that also pass the age test. */
  lemma BucketLeft(t: Table, p: Policy, b: Bucket)
    requires ChildClosed(t, Named(t, p))
    ensures var lim := LimitOf(p, b);
      Members(Pruned(t, p), b) ==
        set j | j in (if lim.count == 0 then Members(t, b) else Newest(t, Members(t, b), lim.count))
                && !TooOld(t[j], lim)
  {
    PruneExactIff(t, p);
  }

  lemma RankExists(t: Table, ids: set<JobId>, n: nat) returns (j: JobId)
    requires ids <= t.Keys && n < |ids|
    ensures j in ids && Rank(t, ids, j) == n
  {
    NewestSize(t, ids, n);
    NewestSize(t, ids, n + 1);
    if Newest(t, ids, n + 1) <= Newest(t, ids, n) { SubsetSize(Newest(t, ids, n + 1), Newest(t, ids, n)); }
    j :| j in Newest(t, ids, n + 1) && j !in Newest(t, ids, n);
  }

  /** When the cascade of the first DELETE leaves the second one its rows: it takes none of them itself, and it takes
      other rows of that bucket only if age alone decides there. */
  ghost predicate FailureUntouched(t: Table, p: Policy) {
    var taken := Doomed(t, Selected(t, Success, p.success));
    && taken !! Selected(t, Failure, p.failure)
    && (taken !! Members(t, Failure) || forall j <- Selected(t, Failure, p.failure) :: TooOld(t[j], p.failure))
  }

  /** Exactly then the second DELETE names the rows that it would have named without the first. */
  lemma SelectionUntouchedIff(t: Table, p: Policy)
    ensures var t1 := Delete(t, Selected(t, Success, p.success));
            |Selected(t1, Failure, p.failure)| == |Selected(t, Failure, p.failure)| <==> FailureUntouched(t, p)
  {
    var t1 := Delete(t, Selected(t, Success, p.success));
    var before, after := Selected(t, Failure, p.failure), Selected(t1, Failure, p.failure);
    SelectionShrinks(t1, t, Failure, p.failure);
    SubsetSize(after, before);
    if FailureUntouched(t, p) {
      var taken := Doomed(t, Selected(t, Success, p.success));
      forall j | j in before ensures j in after {
        if taken !! Members(t, Failure) {
          assert Members(t1, Failure) == Members(t, Failure);
          assert (set i | i in Members(t1, Failure) && Newer(t1, i, j))
              == (set i | i in Members(t, Failure) && Newer(t, i, j));
        }
      }
      assert before == after;
    }
    if |after| == |before| && !FailureUntouched(t, p) { PreviewOff(t, p); }
  }

  /** A row of the bucket that was to stay but is taken makes room for one that was to go. */
  lemma PreviewOff(t: Table, p: Policy)
    requires !FailureUntouched(t, p)
    ensures Selected(Delete(t, Selected(t, Success, p.success)), Failure, p.failure) != Selected(t, Failure, p.failure)
  {
    var t1, lim := Delete(t, Selected(t, Success, p.success)), p.failure;
    var all, taken := Members(t, Failure), Doomed(t, Selected(t, Success, p.success));
    if taken !! Selected(t, Failure, lim) {
      var v :| v in taken && v in all;
      var j :| j in Selected(t, Failure, lim) && !TooOld(t[j], lim);
      var n := FirstLeftOut(t, lim, j);
      assert v !in Selected(t, Failure, lim) && v in Newest(t, all, lim.count);
      NewestIsNewer(t, all, lim.count, v, n);
      if n in t1 { LossPromotes(t1, t, v, n); }
    } else {
      var v :| v in taken && v in Selected(t, Failure, lim);
      assert v !in t1;
    }
  }

  /** The newest row of the bucket that the count leaves out; it is no older than the row j, which only the count
      selects. */
  lemma FirstLeftOut(t: Table, lim: Limit, j: JobId) returns (n: JobId)
    requires j in Selected(t, Failure, lim) && !TooOld(t[j], lim)
    ensures n in Selected(t, Failure, lim) && !TooOld(t[n], lim) && Rank(t, Members(t, Failure), n) == lim.count
  {
    var all := Members(t, Failure);
    RankBelowSize(t, all, j);
    n := RankExists(t, all, lim.count);
    NewerTotal(t, n, j);
    if n != j && Newer(t, j, n) { RankMonotone(t, all, j, n); }
    if TooOld(t[n], lim) { OlderIsTooOld(t, n, j, lim); }
  }

  /** Losing a newer row moves a row up. */
  lemma LossPromotes(t1: Table, t: Table, v: JobId, n: JobId)
    requires Within(t1, t) && n in t1 && v in Members(t, Failure) && v !in t1 && Newer(t, v, n)
    ensures Rank(t1, Members(t1, Failure), n) < Rank(t, Members(t, Failure), n)
  {
    var newer := set i | i in Members(t, Failure) && Newer(t, i, n);
    var newer1 := set i | i in Members(t1, Failure) && Newer(t1, i, n);
    SubsetSize(newer1 + {v}, newer);
  }

  // ---- The same in plain terms ----

  /** The finished rows of a kind: with an end time, and done, or in one of the three other final states. */
  function FinishedAs(t: Table, success: bool): set<JobId> {
    var states := if success then {Done} else {Failed, Cancelled, Interrupted};
    set j | j in t && t[j].finishedAt != "" && t[j].state in states
  }

  /** How many rows of the set finished later, or at the same time with a greater id. */
  function LaterRows(t: Table, ids: set<JobId>, j: JobId): nat
    requires ids <= t.Keys && j in t
  {
    |set i | i in ids && (Less(t[j].finishedAt, t[i].finishedAt) || (t[i].finishedAt == t[j].finishedAt && Less(j, i)))|
  }

  /** Within the age limit and among the newest. */
  predicate KeptBy(t: Table, ids: set<JobId>, lim: Limit, j: JobId)
    requires ids <= t.Keys && j in t
  {
    && (lim.cutoff.None? || !Less(t[j].finishedAt, lim.cutoff.value))
    && (lim.count == 0 || LaterRows(t, ids, j) < lim.count)
  }

  /** A bucket's statement names exactly the finished rows of its kind that are not among the newest, up to the count,
      or are too old. */
  lemma SelectedMeaning(t: Table, b: Bucket, lim: Limit)
    ensures var ids := FinishedAs(t, b.Success?);
      Members(t, b) == ids && Selected(t, b, lim) == set j | j in ids && !KeptBy(t, ids, lim, j)
  {
    var ids := FinishedAs(t, b.Success?);
    assert Members(t, b) == ids;
    forall j | j in ids ensures j in Selected(t, b, lim) <==> !KeptBy(t, ids, lim, j) {
      assert (set i | i in ids && Newer(t, i, j))
          == (set i | i in ids && (Less(t[j].finishedAt, t[i].finishedAt)
                                   || (t[i].finishedAt == t[j].finishedAt && Less(j, i))));
    }
  }

  /** The two kinds are disjoint and make up all rows in a final state with an end time. */
  lemma BucketsExact(t: Table)
    ensures Members(t, Success) !! Members(t, Failure)
    ensures Members(t, Success) == set j | j in t && t[j].finishedAt != "" && t[j].state == Done
    ensures Members(t, Success) + Members(t, Failure)
         == set j | j in t && t[j].finishedAt != "" && t[j].state in {Done, Failed, Cancelled, Interrupted}
  {
  }

  /** When no row to be kept has a parent to be removed, PruneHistory leaves of each kind exactly the newest rows, up to
      the count, that pass the age limit; unfinished rows all stay. */
  lemma PruneLeaves(t: Table, p: Policy, success: bool)
    requires ChildClosed(t, Named(t, p))
    ensures var ids := FinishedAs(t, success);
      FinishedAs(Pruned(t, p), success)
        == set j | j in ids && KeptBy(t, ids, if success then p.success else p.failure, j)
    ensures forall j <- t :: t[j].state in {Queued, Identifying, Running, Paused} ==> j in Pruned(t, p)
  {
    PruneExactIff(t, p);
    SelectedMeaning(t, Success, p.success);
    SelectedMeaning(t, Failure, p.failure);
  }

  // ---- The preview and the report ----

  function ReportedSuccess(t: Table, p: Policy): nat { |Counted(t, Selected(t, Success, p.success))| }

  function ReportedFailure(t: Table, p: Policy): nat {
    var t1 := Delete(t, Selected(t, Success, p.success));
    |Counted(t1, Selected(t1, Failure, p.failure))|
  }

  /** No row of the set descends from another. */
  ghost predicate Unrelated(t: Table, ids: set<JobId>) { forall j <- ids :: !Descends(t, ids, j) }

  lemma CountedAllIff(t: Table, ids: set<JobId>)
    ensures |Counted(t, ids)| <= |ids|
    ensures |Counted(t, ids)| == |ids| <==> Counted(t, ids) == ids
    ensures Counted(t, ids) == ids <==> Unrelated(t, ids)
  {
    SubsetSize(Counted(t, ids), ids);
    forall j | j in ids ensures j in Below(t, ids) <==> Descends(t, ids, j) { BelowIff(t, ids, j); }
    assert Counted(t, ids) == ids <==> forall j <- ids :: j !in Below(t, ids);
  }

  /** Deleting other rows with all their descendants relates no rows and separates none. */
  lemma UnrelatedAfter(t: Table, gone: set<JobId>, ids: set<JobId>)
    requires ChildClosed(t, gone) && ids !! gone
    ensures Unrelated(t - gone, ids) <==> Unrelated(t, ids)
  {
    var t1 := t - gone;
    BelowClosed(t, ids);
    BelowClosed(t1, ids);
    DoomedLeast(t1, Children(t1, ids), Below(t, ids));
    DoomedLeast(t, Children(t, ids), Below(t1, ids) + gone);
    forall j | j in ids ensures Descends(t1, ids, j) <==> Descends(t, ids, j) {
      BelowIff(t1, ids, j);
      BelowIff(t, ids, j);
    }
  }

  /** The preview counts what a DELETE names; the report leaves out rows that the cascade took first. So the report is
      never larger, and for the success bucket the two agree exactly when no selected row descends from another; for the
      failure bucket, when also the first DELETE leaves the selection alone. */
  lemma PreviewExactIff(t: Table, p: Policy)
    ensures var s, f := Selected(t, Success, p.success), Selected(t, Failure, p.failure);
      && ReportedSuccess(t, p) <= |s| && ReportedFailure(t, p) <= |f|
      && (ReportedSuccess(t, p) == |s| <==> Unrelated(t, s))
      && (ReportedFailure(t, p) == |f| <==> FailureUntouched(t, p) && Unrelated(t, f))
  {
    var s, f := Selected(t, Success, p.success), Selected(t, Failure, p.failure);
    var t1 := Delete(t, s);
    var f1 := Selected(t1, Failure, p.failure);
    CountedAllIff(t, s);
    CountedAllIff(t1, f1);
    DoomedClosed(t, s);
    SelectionShrinks(t1, t, Failure, p.failure);
    SubsetSize(f1, f);
    SelectionUntouchedIff(t, p);
    if f1 == f { UnrelatedAfter(t, Doomed(t, s), f); }
  }

  /** An age limit for done jobs and none for the others. */
  function DoneBefore(cutoff: string): Policy { Policy(Limit(Some(cutoff), 0), Limit(None, 0)) }

  /** A done rip with one child. */
  function Family(rip: JobId, child: JobId, finishedAt: string, state: JobState, childFinishedAt: string): Table {
    map[rip := Job(Rip, Done, 0, None, "", finishedAt, 0),
        child := Job(Transcode, state, 0, Some(rip), SpoolPath("", rip), childFinishedAt, 0)]
  }

  /** The commonest case: a rip and its transcode, both done before the cutoff, are two in the preview and one in the
      report. */
  lemma PreviewCountsTwice(finished: Time, cutoff: Time) returns (t: Table, p: Policy)
    requires finished.Valid() && cutoff.Valid() && finished.Seconds() < cutoff.Seconds()
    ensures |t| == 2 && p == DoneBefore(Format(cutoff)) && forall j <- t :: t[j].finishedAt == Format(finished)
    ensures |Selected(t, Success, p.success)| == 2 && ReportedSuccess(t, p) == 1 && Pruned(t, p) == map[]
  {
    AgreeAcrossSeconds(finished, cutoff);
    t, p := PreviewCountsTwiceText(Format(finished), Format(cutoff));
  }

  lemma PreviewCountsTwiceText(finished: string, cutoff: string) returns (t: Table, p: Policy)
    requires finished != "" && Less(finished, cutoff)
    ensures |t| == 2 && p == DoneBefore(cutoff) && forall j <- t :: t[j].finishedAt == finished
    ensures |Selected(t, Success, p.success)| == 2 && ReportedSuccess(t, p) == 1 && Pruned(t, p) == map[]
  {
    var rip: JobId := "0";
    var transcode: JobId := "1";
    t, p := Family(rip, transcode, finished, Done, finished), DoneBefore(cutoff);
    var s := Selected(t, Success, p.success);
    assert rip != transcode && s == {rip, transcode};
    assert Children(t, s) == {transcode};
    DoomedLeast(t, {transcode}, {transcode});
    DoomedClosed(t, {transcode});
    DoomedClosed(t, s);
    assert Counted(t, s) == {rip};
  }

  /** And a rip done before the cutoff takes its running transcode with it, which no limit names. */
  lemma PruneTakesUnnamed(finished: Time, cutoff: Time) returns (t: Table, p: Policy, transcode: JobId)
    requires finished.Valid() && cutoff.Valid() && finished.Seconds() < cutoff.Seconds()
    ensures p == DoneBefore(Format(cutoff)) && transcode in t && t[transcode].state == Running
    ensures transcode !in Named(t, p) && transcode !in Pruned(t, p)
  {
    AgreeAcrossSeconds(finished, cutoff);
    t, p, transcode := PruneTakesUnnamedText(Format(finished), Format(cutoff));
  }

  lemma PruneTakesUnnamedText(finished: string, cutoff: string) returns (t: Table, p: Policy, transcode: JobId)
    requires finished != "" && Less(finished, cutoff)
    ensures p == DoneBefore(cutoff) && transcode in t && t[transcode].state == Running
    ensures transcode !in Named(t, p) && transcode !in Pruned(t, p)
  {
    var rip: JobId := "0";
    transcode := "1";
    t, p := Family(rip, transcode, finished, Running, ""), DoneBefore(cutoff);
    var s := Selected(t, Success, p.success);
    assert rip != transcode && rip in s;
    DoomedClosed(t, s);
    assert ChildOf(t[transcode], s);
  }

  // ---- The age test ----

  /** Comparing the texts is right for every job that finished at least one second away from the cutoff. */
  lemma AgeTestRight(job: Job, lim: Limit, finished: Time, cutoff: Time)
    requires finished.Valid() && cutoff.Valid()
    requires job.finishedAt == Format(finished) && lim.cutoff == Some(Format(cutoff))
    requires || finished.Instant() + 1_000_000_000 <= cutoff.Instant()
             || cutoff.Instant() + 1_000_000_000 <= finished.Instant()
    ensures TooOld(job, lim) <==> finished.Instant() < cutoff.Instant()
  {
    AgreeAcrossSeconds(finished, cutoff);
  }
}
