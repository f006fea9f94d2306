/** One drive's state column, written by identify passes (disc flow, re-identify, type override), by the rip worker,
    by ejects, by media removal and by restarts. One step is one SQL statement
    (daemon/state/store.go, daemon/cmd/discecho/discflow.go, daemon/api/discs.go, daemon/api/drives.go). */
module Drives {
  import opened Options

  datatype DriveState = Idle | Identifying | Ripping | Ejecting | Error

  /** ClaimDriveForIdentify. */
  predicate Claimable(row: DriveState) { row.Idle? || row.Error? }

  /** ReleaseDriveFromIdentify: moves the row only out of `identifying`. */
  function Released(row: DriveState, to: DriveState): DriveState { if row.Identifying? then to else row }

  /** `open` are the passes that have claimed and not released; `latest` made the last successful claim.
      `rip` is the drive's worker: no rip, or one whose `ripping` write did or did not reach the row. */
  datatype State = State(row: DriveState, open: set<nat>, used: set<nat>, latest: Option<nat>, rip: Option<bool>,
                         ejects: nat)

  datatype Step =
    | Claim(pass: nat)
    | Release(pass: nat, to: DriveState)
    | StartRip(written: bool)
    | EndRip
    | BeginEject
    | EndEject
    | Removal                    // a media-change event without media
    | Restart(found: bool)       // InitialScan when the device is found, then ResetIdentifyingDrives

  const INITIAL := State(Idle, {}, {}, None, None, 0)

  predicate Enabled(s: State, step: Step) {
    match step
    case Claim(p) => p !in s.used
    case Release(p, to) => p in s.open && (to.Idle? || to.Error?)
    case StartRip(_) => s.rip.None?
    case EndRip => s.rip.Some?
    case BeginEject => true
    case EndEject => s.ejects > 0
    case Removal => true
    case Restart(_) => true
  }

  function Apply(s: State, step: Step): State
    requires Enabled(s, step)
  {
    match step
    case Claim(p) =>
      if Claimable(s.row)
      then s.(row := Identifying, open := s.open + {p}, used := s.used + {p}, latest := Some(p))
      else s.(used := s.used + {p})
    case Release(p, to) => s.(row := Released(s.row, to), open := s.open - {p})
    case StartRip(written) => s.(row := if written then Ripping else s.row, rip := Some(written))
    case EndRip => s.(row := Idle, rip := None)
    case BeginEject => s.(row := Ejecting, ejects := s.ejects + 1)
    case EndEject => s.(row := Idle, ejects := s.ejects - 1)
    case Removal => s.(row := Idle)
    case Restart(found) => State(if found || s.row.Identifying? then Idle else s.row, {}, s.used, None, None, 0)
  }

  predicate Legal(s: State, steps: seq<Step>)
    decreases |steps|
  {
    steps == [] || (Enabled(s, steps[0]) && Legal(Apply(s, steps[0]), steps[1..]))
  }

  function Exec(s: State, steps: seq<Step>): State
    requires Legal(s, steps)
    decreases |steps|
  {
    if steps == [] then s else Exec(Apply(s, steps[0]), steps[1..])
  }

  /** Which writes leave the row open to a claim, and which do not. */
  lemma ClaimableAfter(s: State, step: Step)
    requires Enabled(s, step)
    ensures step.Claim? ==> (Apply(s, step).row == if s.row in {Idle, Error} then Identifying else s.row)
    ensures step.Release? ==> (Apply(s, step).row == if s.row == Identifying then step.to else s.row)
    ensures step.StartRip? ==> (Apply(s, step).row == if step.written then Ripping else s.row)
    ensures step.BeginEject? ==> Apply(s, step).row == Ejecting
    ensures step.EndRip? || step.EndEject? || step.Removal? || step == Restart(true) ==> Apply(s, step).row == Idle
    ensures step == Restart(false) ==> (Apply(s, step).row == if s.row == Identifying then Idle else s.row)
  {
  }

  // ---- No drive is stuck ----

  predicate LatestOpen(s: State) {
    && (s.row.Identifying? ==> s.latest.Some? && s.latest.value in s.open)
    && s.open <= s.used
  }

  lemma {:induction false} LatestOpenAlways(s: State, steps: seq<Step>)
    requires LatestOpen(s) && Legal(s, steps)
    ensures LatestOpen(Exec(s, steps))
    decreases |steps|
  {
    if steps != [] { LatestOpenAlways(Apply(s, steps[0]), steps[1..]); }
  }

  /** In every run, a row that says `identifying` belongs to a pass that is still going to release it, so the release
      of that pass always frees the drive for the next claim. */
  lemma IdentifyingHasLivePass(steps: seq<Step>)
    requires Legal(INITIAL, steps) && Exec(INITIAL, steps).row.Identifying?
    ensures var s := Exec(INITIAL, steps);
      && s.latest.Some? && s.latest.value in s.open
      && forall to :: Enabled(s, Release(s.latest.value, to)) ==> Claimable(Apply(s, Release(s.latest.value, to)).row)
  {
    LatestOpenAlways(INITIAL, steps);
  }

  // ---- Rips keep the row ----

  predicate Foreign(step: Step) { step.BeginEject? || step.EndEject? || step.Removal? }

  predicate RippingHeld(s: State) { (s.rip == Some(true) ==> s.row.Ripping?) && s.ejects == 0 }

  lemma {:induction false} RippingHeldAlways(s: State, steps: seq<Step>)
    requires RippingHeld(s) && Legal(s, steps) && forall step <- steps :: !Foreign(step)
    ensures RippingHeld(Exec(s, steps))
    decreases |steps|
  {
    if steps != [] {
      assert steps[0] in steps && forall step <- steps[1..] :: step in steps;
      RippingHeldAlways(Apply(s, steps[0]), steps[1..]);
    }
  }

  /** Without ejects and removals, a rip that wrote `ripping` finds it in the row until its own idle write, whatever
      identify passes claim and release meanwhile. */
  lemma RippingUntilIdleWrite(steps: seq<Step>)
    requires Legal(INITIAL, steps) && forall step <- steps :: !Foreign(step)
    ensures Exec(INITIAL, steps).rip == Some(true) ==> Exec(INITIAL, steps).row.Ripping?
  {
    RippingHeldAlways(INITIAL, steps);
  }

  // ---- When identify passes exclude each other ----

  /** A write that makes the row claimable without being the release of a claim. */
  predicate IdleWrite(step: Step) { step.EndRip? || step.EndEject? || step.Removal? }

  predicate Exclusive(s: State) {
    && s.open <= s.used
    && (s.open == {} || (s.latest.Some? && s.open == {s.latest.value} && !Claimable(s.row)))
  }

  /** A pass is open and the row can be claimed all the same. */
  predicate Exposed(s: State) { s.open != {} && Claimable(s.row) }

  /** The idle write lands while a pass is open. */
  predicate Intrudes(s: State, step: Step) { IdleWrite(step) && s.open != {} }

  /** Being exposed is what it takes for a second pass to be let in beside an open one. */
  lemma SecondPassIff(s: State, q: nat)
    requires s.open <= s.used && q !in s.used && s.open != {}
    ensures s.open < Apply(s, Claim(q)).open <==> Exposed(s)
  {
  }

  /** While passes exclude each other, a step ends that exactly if it intrudes. */
  lemma ExposedIff(s: State, step: Step)
    requires Exclusive(s) && Enabled(s, step)
    ensures Exposed(Apply(s, step)) <==> Intrudes(s, step)
    ensures Exclusive(Apply(s, step)) <==> !Intrudes(s, step)
  {
  }

  /** Some state of the run is exposed. */
  predicate EverExposed(s: State, steps: seq<Step>)
    requires Legal(s, steps)
    decreases |steps|
  {
    Exposed(s) || (steps != [] && EverExposed(Apply(s, steps[0]), steps[1..]))
  }

  /** Some step of the run intrudes. */
  predicate EverIntrudes(s: State, steps: seq<Step>)
    requires Legal(s, steps)
    decreases |steps|
  {
    steps != [] && (Intrudes(s, steps[0]) || EverIntrudes(Apply(s, steps[0]), steps[1..]))
  }

  lemma {:induction false} EverExposedIff(s: State, steps: seq<Step>)
    requires Exclusive(s) && Legal(s, steps)
    ensures EverExposed(s, steps) <==> EverIntrudes(s, steps)
    ensures !EverIntrudes(s, steps) ==> Exclusive(Exec(s, steps))
    decreases |steps|
  {
    if steps != [] {
      ExposedIff(s, steps[0]);
      if !Intrudes(s, steps[0]) { EverExposedIff(Apply(s, steps[0]), steps[1..]); }
    }
  }

  /** In any run, however many rips, ejects and removals it holds, there is a moment at which a second pass would be let
      in beside an open one if and only if the end of a rip, the end of an eject or a removal lands while a pass is
      open. */
  lemma SecondPassPossibleIff(steps: seq<Step>)
    requires Legal(INITIAL, steps)
    ensures EverExposed(INITIAL, steps) <==> EverIntrudes(INITIAL, steps)
  {
    EverExposedIff(INITIAL, steps);
  }

  /** In a run without such a step at most one pass is open, and while it is, nobody can claim. */
  lemma PassesExcludeEachOther(steps: seq<Step>, p: nat, q: nat)
    requires Legal(INITIAL, steps) && !EverIntrudes(INITIAL, steps)
    requires p in Exec(INITIAL, steps).open && q in Exec(INITIAL, steps).open
    ensures p == q && !Claimable(Exec(INITIAL, steps).row)
  {
    EverExposedIff(INITIAL, steps);
  }

  /** With one, an old pass can release a newer claim: the row says idle while the newer pass still runs. */
  lemma OldPassReleasesNewClaim() returns (steps: seq<Step>)
    ensures Legal(INITIAL, steps) && |steps| == 5 && steps[4] == Release(0, Idle)
    ensures var s := Exec(INITIAL, steps); s.row.Idle? && s.latest == Some(1) && 1 in s.open
  {
    steps := [Claim(0), StartRip(true), EndRip, Claim(1), Release(0, Idle)];
    var s1 := Apply(INITIAL, steps[0]);
    var s2 := Apply(s1, steps[1]);
    var s3 := Apply(s2, steps[2]);
    var s4 := Apply(s3, steps[3]);
    var s5 := Apply(s4, steps[4]);
    assert steps[4..][1..] == [] && steps[3..][1..] == steps[4..] && steps[2..][1..] == steps[3..];
    assert steps[1..][1..] == steps[2..];
    assert Exec(s4, steps[4..]) == s5;
    assert Exec(s3, steps[3..]) == s5;
    assert Exec(s2, steps[2..]) == s5;
    assert Exec(s1, steps[1..]) == s5;
  }

  // ---- One pass of the disc flow ----

  datatype Classified = ClassifyFailed | WrongDrive | NoPipeline | Classified

  datatype Identified = NoCandidates(haveDisc: bool) | IdentifyFailed | Candidates

  /** The state that the pass hands to its release, from the drive's role, the results of its calls and whether the
      disc row could be stored. */
  function Verdict(bdConsole: bool, c: Classified, i: Identified, stored: bool): DriveState {
    if c.ClassifyFailed? then (if bdConsole && stored then Idle else Error)
    else if !c.Classified? then Idle
    else if i.IdentifyFailed? then Error
    else if i.NoCandidates? && !i.haveDisc then Idle
    else if stored then Idle else Error
  }

  /** A pass leaves the drive in error exactly if it could not find out what is in it, or could not store it. */
  lemma ErrorIff(bdConsole: bool, c: Classified, i: Identified, stored: bool)
    ensures Verdict(bdConsole, c, i, stored) in {Idle, Error}
    ensures Verdict(bdConsole, c, i, stored) == Error <==>
      || (c == ClassifyFailed && !(bdConsole && stored))
      || (c == Classified.Classified && (i == IdentifyFailed || (i != NoCandidates(false) && !stored)))
  {
  }

  class Drive {
    var row: DriveState
    ghost var claims: nat
    ghost var releases: nat

    method Claim() returns (claimed: bool)
      modifies this
      ensures claimed == Claimable(old(row)) && row == if claimed then Identifying else old(row)
      ensures claims == old(claims) + (if claimed then 1 else 0) && releases == old(releases)
    {
      claimed := row.Idle? || row.Error?;
      if claimed { row := Identifying; claims := claims + 1; }
    }

    method Release(to: DriveState) returns (moved: bool)
      modifies this
      ensures moved == old(row).Identifying? && row == Released(old(row), to)
      ensures claims == old(claims) && releases == old(releases) + 1
    {
      moved := row.Identifying?;
      if moved { row := to; }
      releases := releases + 1;
    }

    /** The claim of forceReidentify and SetDiscType and their deferred release: refused on a busy or claimed drive, and
        whatever identification comes to, the release announces `idle` exactly when it moved the row. In between,
        another writer may have put any other state there. */
    method Reidentify(busy: bool, between: DriveState) returns (claimed: bool, announcedIdle: bool)
      modifies this
      ensures claimed == (!busy && Claimable(old(row)))
      ensures row == if claimed then Released(between, Idle) else old(row)
      ensures announcedIdle == (claimed && between.Identifying?)
      ensures releases - old(releases) == claims - old(claims) == (if claimed then 1 else 0)
    {
      if busy { return false, false; }
      claimed := Claim();
      if !claimed { return claimed, false; }
      row := between;   // what rips, ejects and removals leave while the pass identifies
      announcedIdle := Release(Idle);
    }

    /** `handle`: every path behind a claim ends in exactly one release, and no path leaves `identifying` behind. */
    method Handle(optical: bool, busy: bool, media: bool, recent: bool, bdConsole: bool, c: Classified, i: Identified,
                  stored: bool)
      returns (announcedIdle: bool)
      modifies this
      ensures var passed := optical && !busy && media && !recent && Claimable(old(row));
        && releases - old(releases) == claims - old(claims) == (if passed then 1 else 0)
        && row == (if optical && !busy && !media then Idle
                   else if passed then Verdict(bdConsole, c, i, stored) else old(row))
      ensures announcedIdle ==> row.Idle?
    {
      announcedIdle := false;
      if !optical || busy { return; }
      if !media {
        row := Idle;
        return true;
      }
      if recent { return; }
      var claimed := Claim();
      if !claimed { return; }
      if c.ClassifyFailed? {
        if bdConsole {
          if !stored {
            var _ := Release(Error);
            return;
          }
          announcedIdle := Release(Idle);
          return;
        }
        var _ := Release(Error);
        return;
      }
      if c.WrongDrive? {
        announcedIdle := Release(Idle);
        return;
      }
      if c.NoPipeline? {
        var _ := Release(Idle);
        return;
      }
      match i {
        case NoCandidates(haveDisc) =>
          if haveDisc && !stored {
            var _ := Release(Error);
            return;
          }
          var _ := Release(Idle);
          return;
        case IdentifyFailed =>
          var _ := Release(Error);
          return;
        case Candidates =>
      }
      if !stored {
        var _ := Release(Error);
        return;
      }
      announcedIdle := Release(Idle);
    }
  }
}
