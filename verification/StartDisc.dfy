/** Racing start requests: the fast check, startMu, the second check, the metadata writes and the job row of
    `StartDisc` (daemon/api/discs.go), interleaved with the writes of workers, scans, children, retries and cancels. */
module StartDisc {
  import opened Options
  import opened Jobs

  datatype Pc =
    | FastCheck(disc: nat)
    | WantLock(disc: nat)
    | SecondCheck(disc: nat)      // holds startMu
    | Won(disc: nat)              // holds startMu, found no active job
    | Leaving(disc: nat, won: bool) // holds startMu, about to unlock
    | Answered(disc: nat, won: bool)
    | CutOff(disc: nat)           // by a restart
  {
    predicate HoldsLock() { SecondCheck? || Won? || Leaving? }
    /** The request has found an active job, at either check. */
    predicate Lost() { (Leaving? || Answered?) && !won }
  }

  datatype Row = Row(disc: nat, kind: Kind, state: JobState)

  /** How far the one worker that owns a job has come. */
  datatype Phase = Loaded | Begun

  /** `workers`: the jobs that a worker has read and not finished. `writes`: the metadata writes so far, as
      (disc, request) pairs. */
  datatype State = State(jobs: map<JobId, Row>, requests: map<nat, Pc>, lock: Option<nat>, workers: map<JobId, Phase>,
                         writes: seq<(nat, nat)>)

  const INITIAL := State(map[], map[], None, map[], [])

  datatype Step =
    | Arrive(r: nat, disc: nat)
    | CheckFast(r: nat) | Lock(r: nat) | CheckAgain(r: nat) | WriteMetadata(r: nat)
    | CreateRip(r: nat, id: JobId) | SubmitFails(r: nat) | Unlock(r: nat)
    | AddOther(id: JobId, disc: nat, kind: Kind)     // a scan, or the transcode child of a rip
    | Load(id: JobId) | MarkRunning(id: JobId) | Finish(id: JobId, state: JobState)
    | RetryTranscode(id: JobId) | CancelWrite(id: JobId) | Restart

  predicate HasActiveJob(s: State, disc: nat) {
    exists j :: j in s.jobs && s.jobs[j].disc == disc && s.jobs[j].state.Active()
  }

  predicate At(s: State, r: nat) { r in s.requests }

  predicate Enabled(s: State, step: Step) {
    match step
    case Arrive(r, _) => r !in s.requests
    case CheckFast(r) => At(s, r) && s.requests[r].FastCheck?
    case Lock(r) => At(s, r) && s.requests[r].WantLock? && s.lock.None?
    case CheckAgain(r) => At(s, r) && s.requests[r].SecondCheck?
    case WriteMetadata(r) => At(s, r) && s.requests[r].Won?
    case CreateRip(r, id) => At(s, r) && s.requests[r].Won? && id !in s.jobs
    case SubmitFails(r) => At(s, r) && s.requests[r].Won?
    case Unlock(r) => At(s, r) && s.requests[r].Leaving?
    case AddOther(id, _, kind) => id !in s.jobs && kind != Rip
    case Load(id) => id in s.jobs && s.jobs[id].state.Active() && id !in s.workers
    case MarkRunning(id) => id in s.jobs && id in s.workers && s.workers[id].Loaded?
    case Finish(id, state) => id in s.jobs && !state.Active()
    case RetryTranscode(id) => id in s.jobs && s.jobs[id].kind == Transcode && s.jobs[id].state.Retryable()
    case CancelWrite(id) => id in s.jobs
    case Restart => true
  }

  function Goto(s: State, r: nat, pc: Pc): State { s.(requests := s.requests[r := pc]) }

  function SetState(s: State, id: JobId, state: JobState): State
    requires id in s.jobs
  {
    s.(jobs := s.jobs[id := s.jobs[id].(state := state)])
  }

  function Apply(s: State, step: Step): State
    requires Enabled(s, step)
  {
    match step
    case Arrive(r, disc) => Goto(s, r, FastCheck(disc))
    case CheckFast(r) =>
      var disc := s.requests[r].disc;
      Goto(s, r, if HasActiveJob(s, disc) then Answered(disc, false) else WantLock(disc))
    case Lock(r) => Goto(s, r, SecondCheck(s.requests[r].disc)).(lock := Some(r))
    case CheckAgain(r) =>
      var disc := s.requests[r].disc;
      Goto(s, r, if HasActiveJob(s, disc) then Leaving(disc, false) else Won(disc))
    case WriteMetadata(r) => s.(writes := s.writes + [(s.requests[r].disc, r)])
    case CreateRip(r, id) =>
      var disc := s.requests[r].disc;
      Goto(s, r, Leaving(disc, true)).(jobs := s.jobs[id := Row(disc, Rip, Queued)])
    case SubmitFails(r) => Goto(s, r, Leaving(s.requests[r].disc, true))
    case Unlock(r) => Goto(s, r, Answered(s.requests[r].disc, s.requests[r].won)).(lock := None)
    case AddOther(id, disc, kind) => s.(jobs := s.jobs[id := Row(disc, kind, Queued)])
    case Load(id) => s.(workers := s.workers[id := Loaded])
    case MarkRunning(id) => SetState(s, id, Running).(workers := s.workers[id := Begun])
    case Finish(id, state) => SetState(s, id, state).(workers := s.workers - {id})
    case RetryTranscode(id) => SetState(s, id, Queued)
    case CancelWrite(id) => if s.jobs[id].state.Active() then SetState(s, id, Cancelled) else s
    case Restart =>
      State(map id | id in s.jobs ::
              if s.jobs[id].state.Active() then s.jobs[id].(state := Interrupted) else s.jobs[id],
            map r | r in s.requests :: if s.requests[r].Answered? then s.requests[r] else CutOff(s.requests[r].disc),
            None, map[], s.writes)
  }

  predicate Legal(s: State, steps: seq<Step>)
    decreases |steps|
  {
    steps == [] || (Enabled(s, steps[0]) && Legal(Apply(s, steps[0]), steps[1..]))
  }

  function Exec(s: State, steps: seq<Step>): State
    requires Legal(s, steps)
    decreases |steps|
  {
    if steps == [] then s else Exec(Apply(s, steps[0]), steps[1..])
  }

  // ---- The invariant ----

  predicate ActiveRip(s: State, j: JobId, disc: nat) {
    j in s.jobs && s.jobs[j].kind == Rip && s.jobs[j].disc == disc && s.jobs[j].state.Active()
  }

  ghost predicate OneActiveRip(s: State) {
    && (forall j, j', disc :: ActiveRip(s, j, disc) && ActiveRip(s, j', disc) ==> j == j')
    && (forall r <- s.requests :: s.requests[r].Won? ==> forall j :: !ActiveRip(s, j, s.requests[r].disc))
  }

  predicate LockOk(s: State) {
    forall r <- s.requests :: s.requests[r].HoldsLock() ==> s.lock == Some(r)
  }

  /** A `running` write that lands on a terminal row; only a cancel between a worker's read and write leads to one. */
  predicate Revives(s: State, step: Step)
    requires Enabled(s, step)
  {
    step.MarkRunning? && !s.jobs[step.id].state.Active()
  }

  lemma LockOkKept(s: State, step: Step)
    requires LockOk(s) && Enabled(s, step)
    ensures LockOk(Apply(s, step))
  {
  }

  /** Active rips stay the same or become fewer, except for the one that a winner creates. */
  lemma ActiveRipBefore(s: State, step: Step, j: JobId, disc: nat)
    requires Enabled(s, step) && !Revives(s, step) && ActiveRip(Apply(s, step), j, disc)
    ensures ActiveRip(s, j, disc) || (step.CreateRip? && step.id == j && s.requests[step.r].disc == disc)
  {
  }

  lemma OneActiveRipKept(s: State, step: Step)
    requires LockOk(s) && OneActiveRip(s) && Enabled(s, step) && !Revives(s, step)
    ensures OneActiveRip(Apply(s, step))
  {
    var s' := Apply(s, step);
    LockOkKept(s, step);
    forall j, j', disc | ActiveRip(s', j, disc) && ActiveRip(s', j', disc) ensures j == j' {
      ActiveRipBefore(s, step, j, disc);
      ActiveRipBefore(s, step, j', disc);
    }
    forall r, j | r in s'.requests && s'.requests[r].Won? ensures !ActiveRip(s', j, s'.requests[r].disc) {
      if ActiveRip(s', j, s'.requests[r].disc) {
        ActiveRipBefore(s, step, j, s'.requests[r].disc);
      }
    }
  }

  // ---- Exactly when there can be two ----

  /** A `running` write on a terminal rip, while its disc has another active rip or a request that is about to create
      one. */
  ghost predicate Doubles(s: State, step: Step)
    requires Enabled(s, step)
  {
    && Revives(s, step) && s.jobs[step.id].kind == Rip
    && var disc := s.jobs[step.id].disc;
       (exists j :: ActiveRip(s, j, disc)) || (exists r <- s.requests :: s.requests[r] == Won(disc))
  }

  /** A disc has two active rips. */
  ghost predicate TwoRips(s: State) {
    exists j, j', disc :: j != j' && ActiveRip(s, j, disc) && ActiveRip(s, j', disc)
  }

  lemma RevivedRip(s: State, step: Step)
    requires Enabled(s, step) && Revives(s, step)
    ensures forall j, disc :: ActiveRip(Apply(s, step), j, disc) <==>
      ActiveRip(s, j, disc) || (j == step.id && s.jobs[j].kind == Rip && s.jobs[j].disc == disc)
    ensures Apply(s, step).requests == s.requests
  {
  }

  /** One step of any kind keeps rips apart exactly if it does not double one. */
  lemma OneActiveRipIff(s: State, step: Step)
    requires LockOk(s) && OneActiveRip(s) && Enabled(s, step)
    ensures OneActiveRip(Apply(s, step)) <==> !Doubles(s, step)
  {
    if !Revives(s, step) {
      OneActiveRipKept(s, step);
    } else {
      RevivedRip(s, step);
      var disc := s.jobs[step.id].disc;
      if Doubles(s, step) {
        assert ActiveRip(Apply(s, step), step.id, disc);
        if j :| ActiveRip(s, j, disc) {
          assert ActiveRip(Apply(s, step), j, disc) && j != step.id;
        }
      }
    }
  }

  ghost predicate EverDoubles(s: State, steps: seq<Step>)
    requires Legal(s, steps)
    decreases |steps|
  {
    steps != [] && (Doubles(s, steps[0]) || EverDoubles(Apply(s, steps[0]), steps[1..]))
  }

  /** Every state of the run keeps rips apart: no disc has two, nor one and a request about to create another. */
  ghost predicate AlwaysApart(s: State, steps: seq<Step>)
    requires Legal(s, steps)
    decreases |steps|
  {
    OneActiveRip(s) && (steps != [] ==> AlwaysApart(Apply(s, steps[0]), steps[1..]))
  }

  lemma {:induction false} AlwaysApartIffFrom(s: State, steps: seq<Step>)
    requires LockOk(s) && OneActiveRip(s) && Legal(s, steps)
    ensures AlwaysApart(s, steps) <==> !EverDoubles(s, steps)
    ensures !EverDoubles(s, steps) ==> OneActiveRip(Exec(s, steps))
    decreases |steps|
  {
    if steps != [] {
      LockOkKept(s, steps[0]);
      OneActiveRipIff(s, steps[0]);
      if OneActiveRip(Apply(s, steps[0])) {
        AlwaysApartIffFrom(Apply(s, steps[0]), steps[1..]);
      } else {
        assert !AlwaysApart(Apply(s, steps[0]), steps[1..]);
      }
    }
  }

  // ---- Main results ----

  /** In any run of requests, workers, scans, retries, cancels and restarts, rips are kept apart if and only if no
      `running` write revives a terminal rip beside another active rip of its disc or a request that has won it. */
  lemma RipsApartIff(steps: seq<Step>)
    requires Legal(INITIAL, steps)
    ensures AlwaysApart(INITIAL, steps) <==> !EverDoubles(INITIAL, steps)
  {
    AlwaysApartIffFrom(INITIAL, steps);
  }

  /** So without such a write a disc has at most one active rip. */
  lemma AtMostOneActiveRip(steps: seq<Step>, j: JobId, j': JobId, disc: nat)
    requires Legal(INITIAL, steps) && !EverDoubles(INITIAL, steps)
    requires ActiveRip(Exec(INITIAL, steps), j, disc) && ActiveRip(Exec(INITIAL, steps), j', disc)
    ensures j == j'
  {
    AlwaysApartIffFrom(INITIAL, steps);
  }

  /** And with one, there are two active rips at once, or there will be as soon as the winning request creates its. */
  lemma DoublesMakesTwo(s: State, step: Step, id: JobId) returns (r: nat)
    requires LockOk(s) && OneActiveRip(s) && Enabled(s, step) && Doubles(s, step) && id !in s.jobs
    ensures var s' := Apply(s, step);
      TwoRips(s') || (Enabled(s', CreateRip(r, id)) && TwoRips(Apply(s', CreateRip(r, id))))
  {
    var disc := s.jobs[step.id].disc;
    var s' := Apply(s, step);
    RevivedRip(s, step);
    assert ActiveRip(s', step.id, disc);
    r := 0;
    if j :| ActiveRip(s, j, disc) {
      assert ActiveRip(s', j, disc) && j != step.id;
    } else {
      r :| r in s.requests && s.requests[r] == Won(disc);
      var s2 := Apply(s', CreateRip(r, id));
      assert ActiveRip(s2, step.id, disc) && ActiveRip(s2, id, disc) && id != step.id;
    }
  }

  /** Without cancels no worker ever meets a terminal row, so none is revived. */
  ghost predicate WorkersActive(s: State) {
    forall j <- s.workers :: j in s.jobs && s.jobs[j].state.Active()
  }

  lemma {:induction false} NoCancelNoDoubling(s: State, steps: seq<Step>)
    requires WorkersActive(s) && Legal(s, steps) && forall step <- steps :: !step.CancelWrite?
    ensures !EverDoubles(s, steps)
    decreases |steps|
  {
    if steps != [] {
      assert steps[0] in steps && forall step <- steps[1..] :: step in steps;
      NoCancelNoDoubling(Apply(s, steps[0]), steps[1..]);
    }
  }

  lemma AtMostOneActiveRipWithoutCancels(steps: seq<Step>, j: JobId, j': JobId, disc: nat)
    requires Legal(INITIAL, steps) && forall step <- steps :: !step.CancelWrite?
    requires ActiveRip(Exec(INITIAL, steps), j, disc) && ActiveRip(Exec(INITIAL, steps), j', disc)
    ensures j == j'
  {
    NoCancelNoDoubling(INITIAL, steps);
    AtMostOneActiveRip(steps, j, j', disc);
  }

  ghost predicate WritersWon(s: State) {
    forall w <- s.writes :: w.1 in s.requests && var pc := s.requests[w.1];
      pc.disc == w.0 && (pc.Won? || ((pc.Leaving? || pc.Answered?) && pc.won) || pc.CutOff?)
  }

  lemma {:induction false} WritersWonAlways(s: State, steps: seq<Step>)
    requires WritersWon(s) && Legal(s, steps)
    ensures WritersWon(Exec(s, steps))
    decreases |steps|
  {
    if steps != [] { WritersWonAlways(Apply(s, steps[0]), steps[1..]); }
  }

  /** A request that is refused because of an active job, at either check, has written no disc metadata. */
  lemma LosersWriteNothing(steps: seq<Step>, r: nat, disc: nat)
    requires Legal(INITIAL, steps) && r in Exec(INITIAL, steps).requests && Exec(INITIAL, steps).requests[r].Lost()
    ensures (disc, r) !in Exec(INITIAL, steps).writes
  {
    WritersWonAlways(INITIAL, steps);
  }

  // ---- Who is refused ----

  /** At either check a request is refused if and only if a job of its own disc is queued, identifying, running or
      paused. */
  lemma RefusedIff(s: State, step: Step)
    requires Enabled(s, step) && (step.CheckFast? || step.CheckAgain?)
    ensures var disc := s.requests[step.r].disc;
      Apply(s, step).requests[step.r].Lost() <==>
        exists j :: j in s.jobs && s.jobs[j].disc == disc && s.jobs[j].state in {Queued, Identifying, Running, Paused}
    ensures Apply(s, step).requests[step.r].disc == s.requests[step.r].disc
    ensures Apply(s, step).jobs == s.jobs && Apply(s, step).writes == s.writes
  {
    var disc := s.requests[step.r].disc;
    if j :| j in s.jobs && s.jobs[j].disc == disc && s.jobs[j].state in {Queued, Identifying, Running, Paused} {
      assert s.jobs[j].state.Active();
    }
  }

  // ---- With a cancel in the wrong place there can be two ----

  lemma {:induction false} Then(s: State, first: seq<Step>, second: seq<Step>)
    requires Legal(s, first) && Legal(Exec(s, first), second)
    ensures Legal(s, first + second) && Exec(s, first + second) == Exec(Exec(s, first), second)
    decreases |first|
  {
    if first == [] {
      assert first + second == second;
    } else {
      assert (first + second)[1..] == first[1..] + second;
      Then(Apply(s, first[0]), first[1..], second);
    }
  }

  lemma Next(s: State, step: Step) returns (s': State)
    requires Enabled(s, step)
    ensures Legal(s, [step]) && s' == Exec(s, [step]) == Apply(s, step)
  {
    s' := Apply(s, step);
    assert [step][1..] == [];
  }

  /** Whatever else goes on, no job of this disc is under way. */
  predicate Unoccupied(s: State, disc: nat) {
    forall j <- s.jobs :: s.jobs[j].disc == disc ==> s.jobs[j].state in {Done, Failed, Cancelled, Interrupted}
  }

  /** A request that meets nobody passes both checks ... */
  lemma ChecksPass(s: State, r: nat, disc: nat) returns (steps: seq<Step>, s': State)
    requires r !in s.requests && s.lock.None? && Unoccupied(s, disc)
    ensures Legal(s, steps) && s' == Exec(s, steps)
    ensures s' == s.(requests := s.requests[r := Won(disc)], lock := Some(r))
  {
    var s1 := Next(s, Arrive(r, disc));
    var s2 := Next(s1, CheckFast(r));
    var s3 := Next(s2, Lock(r));
    s' := Next(s3, CheckAgain(r));
    steps := [Arrive(r, disc)];
    Then(s, steps, [CheckFast(r)]);
    steps := steps + [CheckFast(r)];
    Then(s, steps, [Lock(r)]);
    steps := steps + [Lock(r)];
    Then(s, steps, [CheckAgain(r)]);
    steps := steps + [CheckAgain(r)];
  }

  /** ... and gets its job. */
  lemma StartAlone(s: State, r: nat, disc: nat, id: JobId) returns (steps: seq<Step>, s': State)
    requires r !in s.requests && s.lock.None? && id !in s.jobs && Unoccupied(s, disc)
    ensures Legal(s, steps) && s' == Exec(s, steps)
    ensures s' == s.(jobs := s.jobs[id := Row(disc, Rip, Queued)], requests := s.requests[r := Answered(disc, true)])
  {
    var s4: State;
    steps, s4 := ChecksPass(s, r, disc);
    var s5 := Next(s4, CreateRip(r, id));
    s' := Next(s5, Unlock(r));
    Then(s, steps, [CreateRip(r, id)]);
    steps := steps + [CreateRip(r, id)];
    Then(s, steps, [Unlock(r)]);
    steps := steps + [Unlock(r)];
  }

  /** The job is created, read by its worker, and then cancelled. */
  lemma CancelledAfterRead(id: JobId) returns (steps: seq<Step>, s: State)
    ensures Legal(INITIAL, steps) && s == Exec(INITIAL, steps)
    ensures s.jobs == map[id := Row(0, Rip, Cancelled)] && s.workers == map[id := Loaded]
    ensures s.lock.None? && s.requests.Keys == {0}
  {
    var s1: State;
    steps, s1 := StartAlone(INITIAL, 0, 0, id);
    var s2 := Next(s1, Load(id));
    s := Next(s2, CancelWrite(id));
    Then(INITIAL, steps, [Load(id)]);
    steps := steps + [Load(id)];
    Then(INITIAL, steps, [CancelWrite(id)]);
    steps := steps + [CancelWrite(id)];
  }

  lemma CancelAllowsTwoRips() returns (steps: seq<Step>)
    ensures Legal(INITIAL, steps) && EverDoubles(INITIAL, steps)
    ensures ActiveRip(Exec(INITIAL, steps), "a", 0) && ActiveRip(Exec(INITIAL, steps), "b", 0)
  {
    var s1: State, s2: State, second: seq<Step>;
    steps, s1 := CancelledAfterRead("a");
    second, s2 := StartAlone(s1, 1, 0, "b");
    Then(INITIAL, steps, second);
    steps := steps + second;
    var s3 := Next(s2, MarkRunning("a"));
    Then(INITIAL, steps, [MarkRunning("a")]);
    steps := steps + [MarkRunning("a")];
    if !EverDoubles(INITIAL, steps) { AtMostOneActiveRip(steps, "a", "b", 0); }
  }

  // ---- What the steps change ----

  /** The metadata writes of a winner are its own and its disc's. */
  lemma WinnerWrites(s: State, r: nat)
    requires At(s, r) && s.requests[r].Won?
    ensures Enabled(s, WriteMetadata(r))
    ensures Apply(s, WriteMetadata(r)) == s.(writes := s.writes + [(s.requests[r].disc, r)])
  {
  }

  /** What workers, retries, cancels and a restart write into the jobs table. */
  lemma JobWrites(s: State, step: Step)
    requires Enabled(s, step)
    ensures step.AddOther? ==> Apply(s, step).jobs == s.jobs[step.id := Row(step.disc, step.kind, Queued)]
    ensures step.MarkRunning? ==> Apply(s, step).jobs == s.jobs[step.id := s.jobs[step.id].(state := Running)]
    ensures step.Finish? ==> Apply(s, step).jobs == s.jobs[step.id := s.jobs[step.id].(state := step.state)]
    ensures step.RetryTranscode? ==> Apply(s, step).jobs == s.jobs[step.id := s.jobs[step.id].(state := Queued)]
    ensures step.CancelWrite? && s.jobs[step.id].state in {Queued, Identifying, Running, Paused} ==>
      Apply(s, step).jobs == s.jobs[step.id := s.jobs[step.id].(state := Cancelled)]
    ensures step.Restart? ==>
      && Apply(s, step).jobs.Keys == s.jobs.Keys
      && forall j <- s.jobs :: Apply(s, step).jobs[j] ==
           if s.jobs[j].state in {Queued, Identifying, Running, Paused} then s.jobs[j].(state := Interrupted)
           else s.jobs[j]
  {
  }
}
