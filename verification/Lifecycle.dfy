/** A disc's state derived from its jobs (daemon/state/disc_lifecycle.go) and the batched query that derives it for
    many discs (daemon/state/store.go, `LifecycleStates`). */
module Lifecycle {
  import opened Options
  import opened Jobs

  /** The columns that matter here. A kind of None is the empty kind of old rows; parent "" means no parent. */
  datatype Entry = Entry(id: string, disc: string, kind: Option<Kind>, state: JobState, parent: string, createdAt: int)

  datatype DiscState = AwaitingDecision | Ripping | AwaitingEncode | Encoding | Complete | Broken | Stopped | CutShort

  predicate HasTranscodeHalf(discType: string) { discType in {"DVD", "BDMV", "UHD"} }

  predicate IsRip(j: Entry) { j.kind == None || j.kind == Some(Rip) }

  predicate IsTranscodeOf(j: Entry, rip: string) { j.kind == Some(Transcode) && j.parent == rip }

  // ---- The newest of the selected ----

  predicate NewestOf(jobs: seq<Entry>, sel: Entry -> bool, j: Entry) {
    j in jobs && sel(j) && forall k <- jobs :: sel(k) ==> k.createdAt <= j.createdAt
  }

  /** The first of the newest, as a left-to-right scan finds it. */
  function Latest(jobs: seq<Entry>, sel: Entry -> bool): Option<Entry> {
    if jobs == [] then None
    else Later(Latest(jobs[..|jobs| - 1], sel), if sel(jobs[|jobs| - 1]) then Some(jobs[|jobs| - 1]) else None)
  }

  function Later(a: Option<Entry>, b: Option<Entry>): Option<Entry> {
    if b.None? || (a.Some? && b.value.createdAt <= a.value.createdAt) then a else b
  }

  lemma {:induction false} LatestMeaning(jobs: seq<Entry>, sel: Entry -> bool)
    ensures Latest(jobs, sel).None? <==> forall j <- jobs :: !sel(j)
    ensures Latest(jobs, sel).Some? ==> NewestOf(jobs, sel, Latest(jobs, sel).value)
  {
    if jobs != [] {
      var n := |jobs| - 1;
      LatestMeaning(jobs[..n], sel);
      assert forall j :: j in jobs <==> j in jobs[..n] || j == jobs[n];
    }
  }

  lemma {:induction false} LatestOfConcat(a: seq<Entry>, b: seq<Entry>, sel: Entry -> bool)
    ensures Latest(a + b, sel) == Later(Latest(a, sel), Latest(b, sel))
  {
    if b == [] {
      assert a + b == a;
    } else {
      var n := |b| - 1;
      assert (a + b)[..|a + b| - 1] == a + b[..n];
      LatestOfConcat(a, b[..n], sel);
    }
  }

  ghost predicate Distinct(jobs: seq<Entry>) {
    forall i, k :: 0 <= i < k < |jobs| ==> jobs[i].createdAt != jobs[k].createdAt
  }

  lemma NewestUnique(jobs: seq<Entry>, sel: Entry -> bool, j: Entry)
    requires Distinct(jobs) && NewestOf(jobs, sel, j)
    ensures Latest(jobs, sel) == Some(j)
  {
    LatestMeaning(jobs, sel);
  }

  // ---- DeriveLifecycleState ----

  function AfterTranscode(transcode: Option<Entry>): DiscState {
    match transcode
    case None => AwaitingEncode
    case Some(j) =>
      match j.state
      case Failed => Broken
      case Cancelled => Stopped
      case Interrupted => CutShort
      case Done => Complete
      case _ => Encoding
  }

  /** The newest rip decides; once it is done, its newest transcode does, if the disc type has one. */
  function Derived(discType: string, jobs: seq<Entry>): DiscState {
    match Latest(jobs, IsRip)
    case None => AwaitingDecision
    case Some(rip) =>
      match rip.state
      case Failed => Broken
      case Cancelled => Stopped
      case Interrupted => CutShort
      case Done =>
        if HasTranscodeHalf(discType) then AfterTranscode(Latest(jobs, j => IsTranscodeOf(j, rip.id))) else Complete
      case _ => Ripping
  }

  method DeriveLifecycleState(discType: string, jobs: seq<Entry>) returns (r: DiscState)
    ensures r == Derived(discType, jobs)
  {
    if |jobs| == 0 { return AwaitingDecision; }
    var latestRip: Option<Entry> := None;
    for i := 0 to |jobs|
      invariant latestRip == Latest(jobs[..i], IsRip)
    {
      assert jobs[..i + 1][..i] == jobs[..i];
      var kind := if jobs[i].kind == None then Some(Rip) else jobs[i].kind;
      if kind == Some(Rip) {
        if latestRip.None? || jobs[i].createdAt > latestRip.value.createdAt { latestRip := Some(jobs[i]); }
      }
    }
    assert jobs[..|jobs|] == jobs;
    if latestRip.None? { return AwaitingDecision; }
    var rip := latestRip.value;
    match rip.state {
      case Queued | Running | Identifying | Paused => return Ripping;
      case Failed => return Broken;
      case Cancelled => return Stopped;
      case Interrupted => return CutShort;
      case Done =>
    }
    if !HasTranscodeHalf(discType) { return Complete; }
    r := DeriveFromTranscodes(jobs, rip.id);
  }

  /** The second loop. */
  method DeriveFromTranscodes(jobs: seq<Entry>, rip: string) returns (r: DiscState)
    ensures r == AfterTranscode(Latest(jobs, j => IsTranscodeOf(j, rip)))
  {
    ghost var sel := j => IsTranscodeOf(j, rip);
    var latest: Option<Entry> := None;
    for i := 0 to |jobs|
      invariant latest == Latest(jobs[..i], sel)
    {
      assert jobs[..i + 1][..i] == jobs[..i];
      if jobs[i].kind == Some(Transcode) && jobs[i].parent == rip {
        if latest.None? || jobs[i].createdAt > latest.value.createdAt { latest := Some(jobs[i]); }
      }
    }
    assert jobs[..|jobs|] == jobs;
    if latest.None? { return AwaitingEncode; }
    match latest.value.state {
      case Queued | Running | Identifying | Paused => r := Encoding;
      case Failed => r := Broken;
      case Cancelled => r := Stopped;
      case Interrupted => r := CutShort;
      case Done => r := Complete;
    }
  }

  // ---- Properties ----

  lemma SameMembers(jobs: seq<Entry>, jobs': seq<Entry>, sel: Entry -> bool)
    requires Distinct(jobs) && Distinct(jobs') && (forall j :: j in jobs <==> j in jobs')
    ensures Latest(jobs, sel) == Latest(jobs', sel)
  {
    LatestMeaning(jobs, sel);
    LatestMeaning(jobs', sel);
    if Latest(jobs', sel).Some? { NewestUnique(jobs, sel, Latest(jobs', sel).value); }
  }

  /** With distinct creation times the order of the rows does not matter. */
  lemma OrderIrrelevant(discType: string, jobs: seq<Entry>, jobs': seq<Entry>)
    requires Distinct(jobs) && multiset(jobs) == multiset(jobs')
    ensures Derived(discType, jobs) == Derived(discType, jobs')
  {
    forall j ensures j in jobs <==> j in jobs' { assert j in multiset(jobs) <==> j in multiset(jobs'); }
    PermutationDistinct(jobs, jobs');
    SameMembers(jobs, jobs', IsRip);
    if Latest(jobs, IsRip).Some? {
      var rip := Latest(jobs, IsRip).value;
      SameMembers(jobs, jobs', j => IsTranscodeOf(j, rip.id));
    }
  }

  lemma PermutationDistinct(jobs: seq<Entry>, jobs': seq<Entry>)
    requires Distinct(jobs) && multiset(jobs) == multiset(jobs')
    ensures Distinct(jobs')
  {
    forall i, k | 0 <= i < k < |jobs'| ensures jobs'[i].createdAt != jobs'[k].createdAt {
      var a, b := jobs'[i], jobs'[k];
      assert jobs' == jobs'[..i] + [a] + jobs'[i + 1..k] + [b] + jobs'[k + 1..];
      assert multiset(jobs')[a] >= 1 && multiset(jobs')[b] >= 1;
      assert a in multiset(jobs) && b in multiset(jobs);
      if a == b {
        assert multiset(jobs')[a] >= 2;
        OnceEach(jobs, a);
      }
    }
  }

  lemma {:induction false} OnceEach(jobs: seq<Entry>, j: Entry)
    requires Distinct(jobs)
    ensures multiset(jobs)[j] <= 1
  {
    if jobs != [] {
      OnceEach(jobs[1..], j);
      assert jobs == [jobs[0]] + jobs[1..];
      assert forall k :: 0 <= k < |jobs[1..]| ==> jobs[1..][k] == jobs[k + 1];
    }
  }

  /** A row that is not selected, or is older than a selected one, does not change the newest. */
  lemma InsertOld(a: seq<Entry>, x: Entry, b: seq<Entry>, sel: Entry -> bool)
    requires sel(x) ==> exists j <- a + b :: sel(j) && x.createdAt < j.createdAt
    ensures Latest(a + [x] + b, sel) == Latest(a + b, sel)
  {
    LatestOfConcat(a, b, sel);
    LatestOfConcat(a + [x], b, sel);
    LatestOfConcat(a, [x], sel);
    assert [x][..0] == [];
    LatestMeaning(a, sel);
    LatestMeaning(b, sel);
  }

  /** Scans, older rips and children of rips other than the newest make no difference, wherever they appear. */
  lemma HistoryIrrelevant(discType: string, a: seq<Entry>, x: Entry, b: seq<Entry>)
    requires IsRip(x) ==> exists j <- a + b :: IsRip(j) && x.createdAt < j.createdAt
    requires x.kind == Some(Transcode) ==> forall rip :: NewestOf(a + b, IsRip, rip) ==> x.parent != rip.id
    ensures Derived(discType, a + [x] + b) == Derived(discType, a + b)
  {
    InsertOld(a, x, b, IsRip);
    LatestMeaning(a + b, IsRip);
    if Latest(a + b, IsRip).Some? {
      var rip := Latest(a + b, IsRip).value;
      InsertOld(a, x, b, j => IsTranscodeOf(j, rip.id));
    }
  }

  /** A disc is complete exactly when its newest rip is done and, for DVD, BDMV and UHD, that rip's newest transcode is
      done as well. */
  lemma CompleteIff(discType: string, jobs: seq<Entry>)
    requires Distinct(jobs)
    ensures Derived(discType, jobs) == Complete <==>
      exists rip :: NewestOf(jobs, IsRip, rip) && rip.state == Done
        && (HasTranscodeHalf(discType) ==> TranscodeDone(jobs, rip.id))
  {
    LatestMeaning(jobs, IsRip);
    if Latest(jobs, IsRip).Some? {
      var rip := Latest(jobs, IsRip).value;
      TranscodeDoneIff(jobs, rip.id);
      forall other | NewestOf(jobs, IsRip, other) ensures other == rip { NewestUnique(jobs, IsRip, other); }
    }
  }

  ghost predicate TranscodeDone(jobs: seq<Entry>, rip: string) {
    exists t :: NewestOf(jobs, j => IsTranscodeOf(j, rip), t) && t.state == Done
  }

  lemma TranscodeDoneIff(jobs: seq<Entry>, rip: string)
    requires Distinct(jobs)
    ensures TranscodeDone(jobs, rip) <==> AfterTranscode(Latest(jobs, j => IsTranscodeOf(j, rip))) == Complete
  {
    var sel := j => IsTranscodeOf(j, rip);
    LatestMeaning(jobs, sel);
    forall t | NewestOf(jobs, sel, t) ensures Latest(jobs, sel) == Some(t) { NewestUnique(jobs, sel, t); }
    assert TranscodeDone(jobs, rip) <==> exists t :: NewestOf(jobs, sel, t) && t.state == Done;
  }

  // ---- LifecycleStates ----

  function OfDisc(rows: seq<Entry>, disc: string): seq<Entry> {
    if rows == [] then []
    else OfDisc(rows[..|rows| - 1], disc) + if rows[|rows| - 1].disc == disc then [rows[|rows| - 1]] else []
  }

  function TypeOf(types: map<string, string>, disc: string): string { if disc in types then types[disc] else "" }

  function JobsIn(byDisc: map<string, seq<Entry>>, disc: string): seq<Entry> {
    if disc in byDisc then byDisc[disc] else []
  }

  /** The jobs table is read once and divided among the discs; the result is what each disc's own jobs give. */
  method LifecycleStates(types: map<string, string>, rows: seq<Entry>, discIds: seq<string>)
      returns (out: map<string, DiscState>)
    ensures forall d :: d in out <==> d in discIds
    ensures forall d <- out :: out[d] == Derived(TypeOf(types, d), OfDisc(rows, d))
  {
    if |discIds| == 0 { return map[]; }
    var byDisc: map<string, seq<Entry>> := map[];
    for i := 0 to |rows|
      invariant forall d <- discIds :: JobsIn(byDisc, d) == OfDisc(rows[..i], d)
    {
      assert rows[..i + 1][..i] == rows[..i];
      var row := rows[i];
      if row.disc in discIds { byDisc := byDisc[row.disc := JobsIn(byDisc, row.disc) + [row]]; }
    }
    assert rows[..|rows|] == rows;
    out := map[];
    for i := 0 to |discIds|
      invariant forall d :: d in out <==> d in discIds[..i]
      invariant forall d <- out :: out[d] == Derived(TypeOf(types, d), OfDisc(rows, d))
    {
      var d := discIds[i];
      assert discIds[..i + 1] == discIds[..i] + [d];
      var r := DeriveLifecycleState(TypeOf(types, d), JobsIn(byDisc, d));
      out := out[d := r];
    }
  }

  // ---- Every answer ----

  /** The state that the disc takes over from the job that decides. */
  predicate Mirrors(r: DiscState, state: JobState) {
    (r == Broken && state == Failed) || (r == Stopped && state == Cancelled) || (r == CutShort && state == Interrupted)
  }

  /** With distinct creation times: no rip, no decision. Otherwise the newest rip decides, unless it is done and the
      type is encoded; then the newest transcode of that rip does, if there is one. */
  lemma AnswerIs(discType: string, jobs: seq<Entry>, r: DiscState)
    requires Distinct(jobs)
    ensures r == Derived(discType, jobs) <==>
      || (r == AwaitingDecision && forall j <- jobs :: !IsRip(j))
      || (exists rip :: NewestOf(jobs, IsRip, rip) && DecidedByRip(r, discType, jobs, rip))
  {
    LatestMeaning(jobs, IsRip);
    if Latest(jobs, IsRip).Some? {
      var rip := Latest(jobs, IsRip).value;
      TranscodeAnswerIs(jobs, rip.id, r);
      forall other | NewestOf(jobs, IsRip, other) ensures other == rip { NewestUnique(jobs, IsRip, other); }
    }
  }

  ghost predicate DecidedByRip(r: DiscState, discType: string, jobs: seq<Entry>, rip: Entry) {
    || (r == Ripping && rip.state in {Queued, Identifying, Running, Paused})
    || Mirrors(r, rip.state)
    || (rip.state == Done && (if discType in {"DVD", "BDMV", "UHD"} then DecidedByTranscode(r, jobs, rip.id)
                              else r == Complete))
  }

  ghost predicate DecidedByTranscode(r: DiscState, jobs: seq<Entry>, rip: string) {
    || (r == AwaitingEncode && forall j <- jobs :: !IsTranscodeOf(j, rip))
    || (exists t :: NewestOf(jobs, j => IsTranscodeOf(j, rip), t) && AnswersTranscode(r, t.state))
  }

  predicate AnswersTranscode(r: DiscState, state: JobState) {
    || (r == Encoding && state in {Queued, Identifying, Running, Paused})
    || (r == Complete && state == Done) || Mirrors(r, state)
  }

  lemma TranscodeAnswerIs(jobs: seq<Entry>, rip: string, r: DiscState)
    requires Distinct(jobs)
    ensures r == AfterTranscode(Latest(jobs, j => IsTranscodeOf(j, rip))) <==> DecidedByTranscode(r, jobs, rip)
  {
    var sel := j => IsTranscodeOf(j, rip);
    LatestMeaning(jobs, sel);
    forall t | NewestOf(jobs, sel, t) ensures Latest(jobs, sel) == Some(t) { NewestUnique(jobs, sel, t); }
    assert DecidedByTranscode(r, jobs, rip) <==>
      (r == AwaitingEncode && forall j <- jobs :: !sel(j))
      || (exists t :: NewestOf(jobs, sel, t) && AnswersTranscode(r, t.state));
  }
}
