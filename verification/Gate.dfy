/** The transcode concurrency gate: `acquire`, `release` and `SetConcurrency` (daemon/jobs/compute.go), one atomic
    load, store, compare-and-swap or channel operation a step, for any number of workers, any number of concurrent
    SetConcurrency calls and any capacity of the wake channel. */
module Gate {

  const MAX_WORKERS := 8

  function Normalise(n: int): (r: nat)
    ensures 1 <= r <= 8 && (1 <= n <= 8 ==> r == n) && (n > 8 ==> r == 8)
  {
    if n <= 0 then 1 else if n > MAX_WORKERS then MAX_WORKERS else n
  }

  datatype Pc =
    | Away
    | Top                              // about to load inFlight
    | SawFlight(cur: int)              // about to load limit
    | SawLimit(cur: int, lim: int)     // about to compare and swap
    | Waiting                          // blocked in select on wake
    | Holding
    | Releasing                        // decremented, wakeup not sent yet

  datatype Setter = Storing(next: nat) | Waking(left: nat)

  /** `largest` is the largest limit set so far; only proofs look at it. */
  datatype State = State(limit: int, inFlight: int, wake: nat, capacity: nat, workers: seq<Pc>,
                         setters: map<nat, Setter>, stopped: bool, largest: int)

  datatype Action = Arrive | LoadFlight | LoadLimit | Swap | Wake | Decrement | Notify | Quit

  datatype Step =
    | Work(w: nat, action: Action)
    | Stop
    | SetLoad(t: nat, n: int) | SetStore(t: nat) | SetSend(t: nat) | SetReturn(t: nat)

  function Initial(n: int, workers: nat, capacity: nat): State {
    State(Normalise(n), 0, 0, capacity, seq(workers, _ => Away), map[], false, Normalise(n))
  }

  function Max(a: int, b: int): int { if a < b then b else a }

  /** A non-blocking send. */
  function Sent(s: State): nat { if s.wake < s.capacity then s.wake + 1 else s.wake }

  predicate At(s: State, w: nat, pc: Pc) { w < |s.workers| && s.workers[w] == pc }

  predicate CanWork(s: State, w: nat, a: Action) {
    && w < |s.workers|
    && match a
       case Arrive => s.workers[w].Away?
       case LoadFlight => s.workers[w].Top?
       case LoadLimit => s.workers[w].SawFlight?
       case Swap => s.workers[w].SawLimit?
       case Wake => s.workers[w].Waiting? && s.wake > 0
       case Decrement => s.workers[w].Holding?
       case Notify => s.workers[w].Releasing?
       case Quit => s.workers[w].Waiting? && s.stopped
  }

  predicate SwapSucceeds(s: State, pc: Pc)
    requires pc.SawLimit?
  {
    pc.cur < pc.lim && s.inFlight == pc.cur
  }

  function NextPc(s: State, w: nat, a: Action): Pc
    requires CanWork(s, w, a)
  {
    match a
    case Arrive => Top
    case LoadFlight => SawFlight(s.inFlight)
    case LoadLimit => SawLimit(s.workers[w].cur, s.limit)
    case Swap => if SwapSucceeds(s, s.workers[w]) then Holding else Waiting
    case Wake => Top
    case Decrement => Releasing
    case Notify => Away
    case Quit => Away
  }

  function AfterWork(s: State, w: nat, a: Action): State
    requires CanWork(s, w, a)
  {
    s.(workers := s.workers[w := NextPc(s, w, a)],
       inFlight := if a.Swap? && SwapSucceeds(s, s.workers[w]) then s.workers[w].cur + 1
                   else if a.Decrement? then s.inFlight - 1 else s.inFlight,
       wake := if a.Wake? then s.wake - 1 else if a.Notify? then Sent(s) else s.wake)
  }

  predicate Enabled(s: State, step: Step) {
    match step
    case Work(w, a) => CanWork(s, w, a)
    case Stop => true
    case SetLoad(t, _) => t !in s.setters
    case SetStore(t) => t in s.setters && s.setters[t].Storing?
    case SetSend(t) => t in s.setters && s.setters[t].Waking? && s.setters[t].left > 0
    case SetReturn(t) => t in s.setters && s.setters[t] == Waking(0)
  }

  function Apply(s: State, step: Step): State
    requires Enabled(s, step)
  {
    match step
    case Work(w, a) => AfterWork(s, w, a)
    case Stop => s.(stopped := true)
    case SetLoad(t, n) =>
      if s.limit == Normalise(n) then s else s.(setters := s.setters[t := Storing(Normalise(n))])
    case SetStore(t) =>
      var next := s.setters[t].next;
      s.(limit := next, largest := Max(s.largest, next), setters := s.setters[t := Waking(next)])
    case SetSend(t) => s.(wake := Sent(s), setters := s.setters[t := Waking(s.setters[t].left - 1)])
    case SetReturn(t) => s.(setters := s.setters - {t})
  }

  // ---- Runs ----

  predicate Legal(s: State, steps: seq<Step>)
    decreases |steps|
  {
    steps == [] || (Enabled(s, steps[0]) && Legal(Apply(s, steps[0]), steps[1..]))
  }

  function Exec(s: State, steps: seq<Step>): State
    requires Legal(s, steps)
    decreases |steps|
  {
    if steps == [] then s else Exec(Apply(s, steps[0]), steps[1..])
  }

  lemma {:induction false} Then(s: State, first: seq<Step>, second: seq<Step>)
    requires Legal(s, first) && Legal(Exec(s, first), second)
    ensures Legal(s, first + second) && Exec(s, first + second) == Exec(Exec(s, first), second)
    decreases |first|
  {
    if first == [] {
      assert first + second == second;
    } else {
      assert (first + second)[1..] == first[1..] + second;
      Then(Apply(s, first[0]), first[1..], second);
    }
  }

  // ---- Safety ----

  function Holders(workers: seq<Pc>): nat {
    if workers == [] then 0 else Holders(workers[1..]) + if workers[0].Holding? then 1 else 0
  }

  lemma {:induction false} HoldersUpdate(workers: seq<Pc>, w: nat, pc: Pc)
    requires w < |workers|
    ensures Holders(workers[w := pc]) + (if workers[w].Holding? then 1 else 0)
            == Holders(workers) + (if pc.Holding? then 1 else 0)
  {
    if w == 0 {
      assert workers[w := pc][1..] == workers[1..];
    } else {
      assert workers[w := pc][1..] == workers[1..][w - 1 := pc];
      HoldersUpdate(workers[1..], w - 1, pc);
    }
  }

  predicate LimitsOk(s: State) {
    && 1 <= s.limit <= s.largest <= MAX_WORKERS
    && (forall w <- s.workers :: w.SawLimit? ==> 1 <= w.lim <= s.largest)
    && (forall t <- s.setters :: s.setters[t].Storing? ==> 1 <= s.setters[t].next <= MAX_WORKERS)
  }

  predicate Safe(s: State) { LimitsOk(s) && s.inFlight == Holders(s.workers) <= s.largest }

  lemma SafeKept(s: State, step: Step)
    requires Safe(s) && Enabled(s, step)
    ensures Safe(Apply(s, step))
  {
    if step.Work? {
      var w := step.w;
      assert s.workers[w] in s.workers;
      HoldersUpdate(s.workers, w, NextPc(s, w, step.action));
      forall pc <- AfterWork(s, w, step.action).workers | pc.SawLimit? ensures 1 <= pc.lim <= s.largest {
        assert pc in s.workers || pc == NextPc(s, w, step.action);
      }
    }
  }

  // ---- No lost wakeup ----

  /** A worker that waits, or will wait because it saw a slot taken. */
  predicate Needy(pc: Pc) { pc.Waiting? || (pc.SawFlight? && pc.cur != 0) || (pc.SawLimit? && pc.cur != 0) }

  /** A worker on its way to a swap that succeeds if nobody overtakes it. */
  predicate OnItsWay(pc: Pc) {
    pc.Top? || (pc.SawFlight? && pc.cur == 0) || (pc.SawLimit? && pc.cur == 0 && pc.lim > 0)
  }

  predicate Quiet(s: State) {
    s.inFlight == 0 && s.wake == 0 && forall w :: 0 <= w < |s.workers| ==> !s.workers[w].Releasing?
  }

  predicate NoLostWakeup(s: State) {
    && s.capacity > 0
    && (Quiet(s) && !s.stopped && (exists w :: 0 <= w < |s.workers| && Needy(s.workers[w])) ==>
        exists w :: 0 <= w < |s.workers| && OnItsWay(s.workers[w]))
  }

  predicate Inv(s: State) { Safe(s) && NoLostWakeup(s) }

  lemma InitialInv(n: int, workers: nat, capacity: nat)
    requires capacity > 0
    ensures Inv(Initial(n, workers, capacity))
  {
    NobodyHolds(workers);
  }

  lemma {:induction false} NobodyHolds(n: nat)
    ensures Holders(seq(n, _ => Away)) == 0
  {
    if n > 0 {
      assert seq(n, _ => Away)[1..] == seq(n - 1, _ => Away);
      NobodyHolds(n - 1);
    }
  }

  lemma HolderExists(workers: seq<Pc>)
    requires Holders(workers) > 0
    ensures exists w :: 0 <= w < |workers| && workers[w].Holding?
  {
    if !workers[0].Holding? {
      HolderExists(workers[1..]);
      var w :| 0 <= w < |workers[1..]| && workers[1..][w].Holding?;
      assert workers[w + 1].Holding?;
    }
  }

  lemma NoLostWakeupKept(s: State, step: Step)
    requires Inv(s) && Enabled(s, step)
    ensures NoLostWakeup(Apply(s, step))
  {
    var s' := Apply(s, step);
    if Quiet(s') && !s'.stopped && exists w :: 0 <= w < |s'.workers| && Needy(s'.workers[w]) {
      var w' :| 0 <= w' < |s'.workers| && Needy(s'.workers[w']);
      if step.Work? {
        KeepsGoing(s, step.w, step.action, w');
      } else {
        assert s'.workers == s.workers;
        assert Needy(s.workers[w']);
      }
    }
  }

  lemma KeepsGoing(s: State, w: nat, a: Action, needy: nat)
    requires Inv(s) && CanWork(s, w, a) && Quiet(AfterWork(s, w, a)) && !s.stopped
    requires needy < |s.workers| && Needy(AfterWork(s, w, a).workers[needy])
    ensures exists v :: 0 <= v < |s.workers| && OnItsWay(AfterWork(s, w, a).workers[v])
  {
    var s' := AfterWork(s, w, a);
    if OnItsWay(s'.workers[w]) {
    } else {
      assert !s'.workers[w].Releasing?;
      assert Quiet(s) by {
        forall v | 0 <= v < |s.workers| ensures !s.workers[v].Releasing? {
          assert v != w ==> s'.workers[v] == s.workers[v];
        }
      }
      assert Needy(s.workers[needy]);
      var v :| 0 <= v < |s.workers| && OnItsWay(s.workers[v]);
      assert s'.workers[v] == s.workers[v] || v == w;
    }
  }

  // ---- Main results ----

  lemma {:induction false} InvAlways(s: State, steps: seq<Step>)
    requires Inv(s) && Legal(s, steps)
    ensures Inv(Exec(s, steps)) && |Exec(s, steps).workers| == |s.workers|
    decreases |steps|
  {
    if steps != [] {
      SafeKept(s, steps[0]);
      NoLostWakeupKept(s, steps[0]);
      InvAlways(Apply(s, steps[0]), steps[1..]);
    }
  }

  /** In every interleaving `inFlight` is the number of slots held, and that never exceeds the largest limit set. */
  lemma InFlightBounded(n: int, workers: nat, capacity: nat, steps: seq<Step>)
    requires capacity > 0 && Legal(Initial(n, workers, capacity), steps)
    ensures var s := Exec(Initial(n, workers, capacity), steps);
            s.inFlight == Holders(s.workers) <= s.largest <= MAX_WORKERS
  {
    InitialInv(n, workers, capacity);
    InvAlways(Initial(n, workers, capacity), steps);
  }

  /** While a worker is blocked with no token in the channel, some other worker holds a slot, is between its decrement
      and its wakeup, or is on its way to a swap that can succeed. */
  lemma NoDeadlock(n: int, workers: nat, capacity: nat, steps: seq<Step>, w: nat)
    requires capacity > 0 && Legal(Initial(n, workers, capacity), steps)
    requires var s := Exec(Initial(n, workers, capacity), steps);
             At(s, w, Waiting) && s.wake == 0 && !s.stopped
    ensures var s := Exec(Initial(n, workers, capacity), steps);
            exists v :: 0 <= v < |s.workers| &&
              (s.workers[v].Holding? || s.workers[v].Releasing? || (s.inFlight == 0 && OnItsWay(s.workers[v])))
  {
    var s := Exec(Initial(n, workers, capacity), steps);
    InitialInv(n, workers, capacity);
    InvAlways(Initial(n, workers, capacity), steps);
    if s.inFlight > 0 {
      HolderExists(s.workers);
    } else {
      assert Needy(s.workers[w]);
    }
  }

  /** Being on its way is worth the name: left alone, such a worker takes the slot within three steps. */
  lemma OnItsWayWins(s: State, w: nat) returns (steps: seq<Step>)
    requires Inv(s) && s.inFlight == 0 && w < |s.workers| && OnItsWay(s.workers[w])
    ensures Legal(s, steps) && |steps| <= 3
    ensures var s' := Exec(s, steps);
            s'.workers == s.workers[w := Holding] && s'.wake == s.wake && s'.inFlight == 1
  {
    assert s.workers[w] in s.workers;
    match s.workers[w] {
      case Top =>
        var s1 := Apply(s, Work(w, LoadFlight));
        var rest := OnItsWayWinsFromLoad(s1, w);
        steps := [Work(w, LoadFlight)] + rest;
      case SawFlight(_) => steps := OnItsWayWinsFromLoad(s, w);
      case SawLimit(_, _) => steps := [Work(w, Swap)]; assert steps[1..] == [];
    }
    assert s.workers[w := Top][w := Holding] == s.workers[w := Holding];
  }

  lemma OnItsWayWinsFromLoad(s: State, w: nat) returns (steps: seq<Step>)
    requires s.limit > 0 && s.inFlight == 0 && At(s, w, SawFlight(0))
    ensures Legal(s, steps) && |steps| == 2
    ensures var s' := Exec(s, steps);
            s'.workers == s.workers[w := Holding] && s'.wake == s.wake && s'.inFlight == 1
  {
    var s1 := Apply(s, Work(w, LoadLimit));
    var s2 := Apply(s1, Work(w, Swap));
    steps := [Work(w, LoadLimit), Work(w, Swap)];
    assert steps[1..] == [Work(w, Swap)] && steps[1..][1..] == [];
    assert Exec(s1, [Work(w, Swap)]) == s2;
    assert s2.workers == s.workers[w := Holding];
  }

  // ---- Every blocked worker can still get in ----

  function Busy(workers: seq<Pc>): nat {
    if workers == [] then 0
    else Busy(workers[1..]) + if workers[0].Holding? then 2 else if workers[0].Releasing? then 1 else 0
  }

  lemma {:induction false} BusyDrops(workers: seq<Pc>, w: nat, pc: Pc)
    requires w < |workers|
    requires (workers[w].Holding? && pc.Releasing?) || (workers[w].Releasing? && pc.Away?)
    ensures Busy(workers[w := pc]) == Busy(workers) - 1
  {
    if w == 0 {
      assert workers[w := pc][1..] == workers[1..];
    } else {
      assert workers[w := pc][1..] == workers[1..][w - 1 := pc];
      BusyDrops(workers[1..], w - 1, pc);
    }
  }

  /** Let everyone that holds or is releasing a slot finish; the others stay where they are. */
  lemma Drain(s: State) returns (steps: seq<Step>)
    requires Inv(s)
    ensures Legal(s, steps)
    ensures var s' := Exec(s, steps);
      && Inv(s') && |s'.workers| == |s.workers| && s'.stopped == s.stopped
      && (forall v :: 0 <= v < |s.workers| ==> !s'.workers[v].Holding? && !s'.workers[v].Releasing?)
      && (forall v :: 0 <= v < |s.workers| && !s.workers[v].Holding? && !s.workers[v].Releasing? ==>
            s'.workers[v] == s.workers[v])
      && (s'.wake > 0 || s' == s)
    decreases Busy(s.workers)
  {
    if v :| 0 <= v < |s.workers| && (s.workers[v].Holding? || s.workers[v].Releasing?) {
      var step := Work(v, if s.workers[v].Holding? then Decrement else Notify);
      var s1 := Apply(s, step);
      BusyDrops(s.workers, v, s1.workers[v]);
      SafeKept(s, step);
      NoLostWakeupKept(s, step);
      var rest := Drain(s1);
      steps := [step] + rest;
      assert s1.workers[v].Releasing? || s1.wake > 0;
    } else {
      steps := [];
    }
  }

  lemma NothingHeld(s: State)
    requires Safe(s) && forall v :: 0 <= v < |s.workers| ==> !s.workers[v].Holding?
    ensures s.inFlight == 0
  {
    if Holders(s.workers) > 0 { HolderExists(s.workers); }
  }

  lemma TakesToken(s: State, w: nat) returns (steps: seq<Step>)
    requires Inv(s) && s.inFlight == 0 && s.wake > 0 && At(s, w, Waiting)
    ensures Legal(s, steps) && At(Exec(s, steps), w, Holding)
  {
    var s1 := Apply(s, Work(w, Wake));
    SafeKept(s, Work(w, Wake));
    NoLostWakeupKept(s, Work(w, Wake));
    var rest := OnItsWayWins(s1, w);
    steps := [Work(w, Wake)] + rest;
  }

  /** When nobody holds a slot and there is no token, a worker on its way takes a slot and leaves it, with a token. */
  lemma PassSlot(s: State, w: nat) returns (steps: seq<Step>)
    requires Inv(s) && s.inFlight == 0 && s.wake == 0 && !s.stopped && At(s, w, Waiting)
    requires forall v :: 0 <= v < |s.workers| ==> !s.workers[v].Releasing?
    ensures Legal(s, steps)
    ensures var s' := Exec(s, steps); Inv(s') && s'.inFlight == 0 && s'.wake > 0 && At(s', w, Waiting)
  {
    assert Needy(s.workers[w]);
    var v :| 0 <= v < |s.workers| && OnItsWay(s.workers[v]);
    steps := OnItsWayWins(s, v);
    var won := Exec(s, steps);
    InvAlways(s, steps);
    assert won.workers[v].Holding?;
    var draining := Drain(won);
    Then(s, steps, draining);
    steps := steps + draining;
    NothingHeld(Exec(won, draining));
  }

  /** From every reachable state of a running pool, every blocked worker still has a way to a slot: no interleaving of
      loads, swaps, releases and limit changes can wedge the gate. */
  lemma BlockedWorkerCanAcquire(n: int, workers: nat, capacity: nat, before: seq<Step>, w: nat)
      returns (steps: seq<Step>)
    requires capacity > 0 && Legal(Initial(n, workers, capacity), before)
    requires var s := Exec(Initial(n, workers, capacity), before); At(s, w, Waiting) && !s.stopped
    ensures var s := Exec(Initial(n, workers, capacity), before);
            Legal(s, steps) && At(Exec(s, steps), w, Holding)
  {
    var s := Exec(Initial(n, workers, capacity), before);
    InitialInv(n, workers, capacity);
    InvAlways(Initial(n, workers, capacity), before);
    steps := Drain(s);
    var drained := Exec(s, steps);
    NothingHeld(drained);
    if drained.wake == 0 {
      var passing := PassSlot(drained, w);
      Then(s, steps, passing);
      steps := steps + passing;
      drained := Exec(drained, passing);
    }
    var taking := TakesToken(drained, w);
    Then(s, steps, taking);
    steps := steps + taking;
  }

  // ---- Waiting beside a free slot ----

  /** The swap sends its worker to wait although a slot is free. */
  predicate MissesSlot(s: State, w: nat)
    requires CanWork(s, w, Swap)
  {
    s.inFlight < s.limit && NextPc(s, w, Swap).Waiting?
  }

  /** It does so if and only if what the worker loaded is out of date: the count is another one, or the limit was raised
      from a value at or below the count. */
  lemma MissesSlotIff(s: State, w: nat)
    requires CanWork(s, w, Swap)
    ensures var SawLimit(cur, lim) := s.workers[w];
      MissesSlot(s, w) <==> s.inFlight < s.limit && (cur != s.inFlight || lim <= s.inFlight)
  {
  }

  /** The worker has loaded the count, and perhaps the limit, as they are now. */
  predicate UpToDate(s: State, w: nat) { At(s, w, SawFlight(s.inFlight)) || At(s, w, SawLimit(s.inFlight, s.limit)) }

  /** No step of the run changes the count or the limit, and w does not swap in it. */
  predicate Undisturbed(s: State, steps: seq<Step>, w: nat)
    requires Legal(s, steps)
    decreases |steps|
  {
    steps == [] ||
    (var s' := Apply(s, steps[0]);
     s'.inFlight == s.inFlight && s'.limit == s.limit && steps[0] != Work(w, Swap) && Undisturbed(s', steps[1..], w))
  }

  lemma {:induction false} StaysUpToDate(s: State, steps: seq<Step>, w: nat)
    requires Legal(s, steps) && Undisturbed(s, steps, w) && UpToDate(s, w)
    ensures UpToDate(Exec(s, steps), w)
    decreases |steps|
  {
    if steps != [] { StaysUpToDate(Apply(s, steps[0]), steps[1..], w); }
  }

  /** So a worker misses a free slot only when, between its first load and its swap, somebody took or gave back a slot
      or changed the limit; whatever else goes on in between, it takes the slot. */
  lemma MissesOnlyWhenDisturbed(s: State, steps: seq<Step>, w: nat)
    requires CanWork(s, w, LoadFlight) && Legal(Apply(s, Work(w, LoadFlight)), steps)
    requires Undisturbed(Apply(s, Work(w, LoadFlight)), steps, w)
    requires CanWork(Exec(Apply(s, Work(w, LoadFlight)), steps), w, Swap)
    ensures !MissesSlot(Exec(Apply(s, Work(w, LoadFlight)), steps), w)
  {
    StaysUpToDate(Apply(s, Work(w, LoadFlight)), steps, w);
  }

  /** A wakeup is on its way: from a release, or from a limit change that has sends left. */
  predicate WakeupPending(s: State) {
    || (exists w :: 0 <= w < |s.workers| && s.workers[w].Releasing?)
    || (exists t <- s.setters :: s.setters[t].Waking? && s.setters[t].left > 0)
  }

  predicate Covered(s: State) { s.inFlight >= s.limit || s.wake > 0 || WakeupPending(s) }

  /** Only taking a token can leave a free slot uncovered. */
  lemma CoveredKept(s: State, step: Step)
    requires Inv(s) && Covered(s) && Enabled(s, step) && !(step.Work? && step.action.Wake?)
    ensures Covered(Apply(s, step))
  {
    if step.Work? {
      CoveredAfterWork(s, step.w, step.action);
    } else {
      var s' := Apply(s, step);
      assert s'.workers == s.workers;
      if step.SetStore? { assert step.t in s'.setters && s'.setters[step.t].left > 0; }
      if t :| t in s.setters && s.setters[t].Waking? && s.setters[t].left > 0 {
        if !step.SetSend? { assert t in s'.setters && s'.setters[t] == s.setters[t]; }
      }
    }
  }

  lemma CoveredAfterWork(s: State, w: nat, a: Action)
    requires Inv(s) && Covered(s) && CanWork(s, w, a) && !a.Wake?
    ensures Covered(AfterWork(s, w, a))
  {
    var s' := AfterWork(s, w, a);
    if a.Decrement? { assert s'.workers[w].Releasing?; }
    if v :| 0 <= v < |s.workers| && s.workers[v].Releasing? {
      if v != w { assert s'.workers[v].Releasing?; }
    }
  }

  lemma {:induction false} CoveredThroughout(s: State, steps: seq<Step>)
    requires Inv(s) && Covered(s) && Legal(s, steps) && forall step <- steps :: !(step.Work? && step.action.Wake?)
    ensures Covered(Exec(s, steps))
    decreases |steps|
  {
    if steps != [] {
      assert steps[0] in steps && forall step <- steps[1..] :: step in steps;
      CoveredKept(s, steps[0]);
      SafeKept(s, steps[0]);
      NoLostWakeupKept(s, steps[0]);
      CoveredThroughout(Apply(s, steps[0]), steps[1..]);
    }
  }

  /** In every run: when a worker is sent to wait by its swap and later waits without a token beside a free slot, with
      no wakeup on its way, then its own swap missed a slot, or some worker has taken a token since. */
  lemma WaitsBesideFreeSlot(n: int, workers: nat, capacity: nat, before: seq<Step>, w: nat, after: seq<Step>)
    requires capacity > 0 && Legal(Initial(n, workers, capacity), before)
    requires CanWork(Exec(Initial(n, workers, capacity), before), w, Swap)
    requires NextPc(Exec(Initial(n, workers, capacity), before), w, Swap).Waiting?
    requires Legal(Apply(Exec(Initial(n, workers, capacity), before), Work(w, Swap)), after)
    ensures var s := Exec(Initial(n, workers, capacity), before); var s' := Exec(Apply(s, Work(w, Swap)), after);
      s'.wake == 0 && s'.inFlight < s'.limit && !WakeupPending(s') ==>
        MissesSlot(s, w) || exists step <- after :: step.Work? && step.action.Wake?
  {
    var s := Exec(Initial(n, workers, capacity), before);
    InitialInv(n, workers, capacity);
    InvAlways(Initial(n, workers, capacity), before);
    if !MissesSlot(s, w) && forall step <- after :: !(step.Work? && step.action.Wake?) {
      SafeKept(s, Work(w, Swap));
      NoLostWakeupKept(s, Work(w, Swap));
      CoveredThroughout(Apply(s, Work(w, Swap)), after);
    }
  }

  /** The gate does not promise more: a worker that lost a swap waits although a slot is free. */
  lemma NotWorkConserving() returns (steps: seq<Step>)
    ensures Legal(Initial(2, 2, 8), steps)
    ensures var s := Exec(Initial(2, 2, 8), steps);
            At(s, 0, Holding) && At(s, 1, Waiting) && s.wake == 0 && s.inFlight < s.limit
  {
    var s0 := Initial(2, 2, 8);
    var first := [Work(0, Arrive), Work(1, Arrive), Work(0, LoadFlight), Work(1, LoadFlight)];
    var second := [Work(0, LoadLimit), Work(1, LoadLimit), Work(0, Swap), Work(1, Swap)];
    var s4 := RunFour(s0, first);
    var s8 := RunFour(s4, second);
    Then(s0, first, second);
    steps := first + second;
  }

  lemma RunFour(s: State, steps: seq<Step>) returns (s': State)
    requires |steps| == 4
    requires Enabled(s, steps[0]) && Enabled(Apply(s, steps[0]), steps[1])
    requires Enabled(Apply(Apply(s, steps[0]), steps[1]), steps[2])
    requires Enabled(Apply(Apply(Apply(s, steps[0]), steps[1]), steps[2]), steps[3])
    ensures Legal(s, steps) && s' == Exec(s, steps)
    ensures s' == Apply(Apply(Apply(Apply(s, steps[0]), steps[1]), steps[2]), steps[3])
  {
    var s1 := Apply(s, steps[0]);
    var s2 := Apply(s1, steps[1]);
    var s3 := Apply(s2, steps[2]);
    s' := Apply(s3, steps[3]);
    assert steps[1..][0] == steps[1] && steps[1..][1..] == steps[2..] && steps[2..][1..] == steps[3..];
    assert steps[3..][0] == steps[3] && steps[3..][1..] == [];
    assert Exec(s3, steps[3..]) == s' && Legal(s3, steps[3..]);
    assert Exec(s2, steps[2..]) == s' && Legal(s2, steps[2..]);
    assert Exec(s1, steps[1..]) == s' && Legal(s1, steps[1..]);
  }

  // ---- A limit change among others ----

  function Sends(steps: seq<Step>, t: nat): nat {
    if steps == [] then 0 else (if steps[0] == SetSend(t) then 1 else 0) + Sends(steps[1..], t)
  }

  /** A call that has loaded another limit keeps its own value until it stores it ... */
  lemma {:induction false} StoreWaits(s: State, steps: seq<Step>, t: nat)
    requires t in s.setters && s.setters[t].Storing? && Legal(s, steps) && SetStore(t) !in steps
    ensures var s' := Exec(s, steps); t in s'.setters && s'.setters[t] == s.setters[t]
    decreases |steps|
  {
    if steps != [] {
      assert steps[0] in steps && forall step <- steps[1..] :: step in steps;
      StoreWaits(Apply(s, steps[0]), steps[1..], t);
    }
  }

  /** ... and then owes as many wakeups as its value, and returns when it has sent them. */
  lemma {:induction false} SendsWait(s: State, steps: seq<Step>, t: nat)
    requires t in s.setters && s.setters[t].Waking? && Legal(s, steps) && SetReturn(t) !in steps
    ensures var s' := Exec(s, steps);
      && t in s'.setters && s'.setters[t].Waking? && s'.setters[t].left == s.setters[t].left - Sends(steps, t)
    decreases |steps|
  {
    if steps != [] {
      assert steps[0] in steps && forall step <- steps[1..] :: step in steps;
      SendsWait(Apply(s, steps[0]), steps[1..], t);
    }
  }

  /** In any run: a call that loads a limit other than its own stores its own value, whatever happens in between, and
      returns exactly when it has sent that many wakeups; a call that loads its own changes nothing. */
  lemma LimitChangeArrives(s: State, t: nat, n: int, before: seq<Step>, after: seq<Step>)
    requires Enabled(s, SetLoad(t, n))
    requires Legal(Apply(s, SetLoad(t, n)), before) && SetStore(t) !in before
    ensures s.limit == Normalise(n) ==> Apply(s, SetLoad(t, n)) == s
    ensures s.limit != Normalise(n) ==>
      var s1 := Exec(Apply(s, SetLoad(t, n)), before);
      && Enabled(s1, SetStore(t)) && Apply(s1, SetStore(t)).limit == Normalise(n)
      && (Legal(Apply(s1, SetStore(t)), after) && SetReturn(t) !in after ==>
            (Enabled(Exec(Apply(s1, SetStore(t)), after), SetReturn(t)) <==> Sends(after, t) == Normalise(n)))
  {
    if s.limit != Normalise(n) {
      StoreWaits(Apply(s, SetLoad(t, n)), before, t);
      var s2 := Apply(Exec(Apply(s, SetLoad(t, n)), before), SetStore(t));
      if Legal(s2, after) && SetReturn(t) !in after { SendsWait(s2, after, t); }
    }
  }

  // ---- Tokens are conserved ----

  function Taken(steps: seq<Step>): nat {
    if steps == [] then 0
    else (if steps[0].Work? && steps[0].action.Wake? then 1 else 0) + Taken(steps[1..])
  }

  predicate SendsToken(step: Step) { (step.Work? && step.action.Notify?) || step.SetSend? }

  /** How many of the sends found room. */
  function Arrived(s: State, steps: seq<Step>): nat
    requires Legal(s, steps)
    decreases |steps|
  {
    if steps == [] then 0
    else (if SendsToken(steps[0]) && s.wake < s.capacity then 1 else 0) + Arrived(Apply(s, steps[0]), steps[1..])
  }

  /** In any run, each wakeup that found room is in the channel or has been taken by one worker. */
  lemma {:induction false} TokensConserved(s: State, steps: seq<Step>)
    requires Legal(s, steps)
    ensures Exec(s, steps).wake + Taken(steps) == s.wake + Arrived(s, steps)
    decreases |steps|
  {
    if steps != [] { TokensConserved(Apply(s, steps[0]), steps[1..]); }
  }

  // ---- The calls as steps, when nobody interferes ----

  function Min(a: int, b: int): int { if a < b then a else b }

  lemma SendsAlone(s: State, t: nat) returns (steps: seq<Step>)
    requires t in s.setters && s.setters[t].Waking? && s.wake <= s.capacity
    ensures Legal(s, steps)
    ensures Exec(s, steps) == s.(wake := Min(s.wake + s.setters[t].left, s.capacity), setters := s.setters - {t})
    decreases if t in s.setters && s.setters[t].Waking? then s.setters[t].left else 0
  {
    if s.setters[t].left == 0 {
      steps := [SetReturn(t)];
      assert steps[1..] == [];
    } else {
      var s1 := Apply(s, SetSend(t));
      var rest := SendsAlone(s1, t);
      steps := [SetSend(t)] + rest;
      assert steps[1..] == rest && s1.setters - {t} == s.setters - {t};
    }
  }

  /** SetConcurrency, step by step. */
  lemma SetConcurrencyAlone(s: State, t: nat, n: int) returns (steps: seq<Step>)
    requires t !in s.setters && s.wake <= s.capacity
    ensures Legal(s, [SetLoad(t, n)] + steps)
    ensures Exec(s, [SetLoad(t, n)] + steps) ==
      if s.limit == Normalise(n) then s
      else s.(limit := Normalise(n), largest := Max(s.largest, Normalise(n)),
              wake := Min(s.wake + Normalise(n), s.capacity))
  {
    var s1 := Apply(s, SetLoad(t, n));
    if s.limit == Normalise(n) {
      steps := [];
    } else {
      var s2 := Apply(s1, SetStore(t));
      var rest := SendsAlone(s2, t);
      steps := [SetStore(t)] + rest;
      assert steps[1..] == rest && s2.setters - {t} == s.setters;
    }
    assert ([SetLoad(t, n)] + steps)[1..] == steps;
  }

  /** acquire, step by step: a free slot is taken and no token; otherwise all tokens are used up and the worker
      waits. */
  lemma AcquireAlone(s: State, w: nat) returns (steps: seq<Step>)
    requires At(s, w, Top)
    ensures Legal(s, steps)
    ensures Exec(s, steps) ==
      if s.inFlight < s.limit then s.(workers := s.workers[w := Holding], inFlight := s.inFlight + 1)
      else s.(workers := s.workers[w := Waiting], wake := 0)
    decreases s.wake
  {
    var s1 := Apply(s, Work(w, LoadFlight));
    var s2 := Apply(s1, Work(w, LoadLimit));
    var s3 := Apply(s2, Work(w, Swap));
    var rest: seq<Step> := [];
    if s3.workers[w].Waiting? && s.wake > 0 {
      var s4 := Apply(s3, Work(w, Wake));
      var again := AcquireAlone(s4, w);
      rest := [Work(w, Wake)] + again;
      assert rest[1..] == again;
      assert s4.workers[w := Waiting] == s.workers[w := Waiting];
    }
    LoadsThen(s, w, rest);
    steps := [Work(w, LoadFlight), Work(w, LoadLimit), Work(w, Swap)] + rest;
    assert s3.workers == s.workers[w := s3.workers[w]];
  }

  lemma LoadsThen(s: State, w: nat, rest: seq<Step>)
    requires At(s, w, Top)
    requires Legal(Apply(Apply(Apply(s, Work(w, LoadFlight)), Work(w, LoadLimit)), Work(w, Swap)), rest)
    ensures var steps := [Work(w, LoadFlight), Work(w, LoadLimit), Work(w, Swap)] + rest;
      && Legal(s, steps)
      && Exec(s, steps) == Exec(Apply(Apply(Apply(s, Work(w, LoadFlight)), Work(w, LoadLimit)), Work(w, Swap)), rest)
  {
    var steps := [Work(w, LoadFlight), Work(w, LoadLimit), Work(w, Swap)] + rest;
    var s1 := Apply(s, Work(w, LoadFlight));
    var s2 := Apply(s1, Work(w, LoadLimit));
    assert steps[1..] == [Work(w, LoadLimit), Work(w, Swap)] + rest && steps[1..][1..] == [Work(w, Swap)] + rest;
    assert ([Work(w, Swap)] + rest)[1..] == rest;
    assert Legal(s2, [Work(w, Swap)] + rest) && Legal(s1, steps[1..]);
    assert Exec(s2, [Work(w, Swap)] + rest) == Exec(Apply(s2, Work(w, Swap)), rest);
    assert Exec(s1, steps[1..]) == Exec(s2, [Work(w, Swap)] + rest);
  }

  /** release, step by step. */
  lemma ReleaseAlone(s: State, w: nat)
    requires At(s, w, Holding) && s.wake <= s.capacity
    ensures Legal(s, [Work(w, Decrement), Work(w, Notify)])
    ensures Exec(s, [Work(w, Decrement), Work(w, Notify)]) ==
      s.(workers := s.workers[w := Away], inFlight := s.inFlight - 1, wake := Min(s.wake + 1, s.capacity))
  {
    var s1 := Apply(s, Work(w, Decrement));
    var s2 := Apply(s1, Work(w, Notify));
    assert [Work(w, Decrement), Work(w, Notify)][1..] == [Work(w, Notify)] && [Work(w, Notify)][1..] == [];
    assert Exec(s1, [Work(w, Notify)]) == s2;
    assert s2.workers == s.workers[w := Away];
  }

  /** Exactly after a stop, a waiting worker can give up; it takes nothing along. */
  lemma QuitAlone(s: State, w: nat)
    ensures CanWork(s, w, Quit) <==> At(s, w, Waiting) && s.stopped
    ensures CanWork(s, w, Quit) ==> Apply(s, Work(w, Quit)) == s.(workers := s.workers[w := Away])
    ensures Apply(s, Stop) == s.(stopped := true)
  {
  }

  // ---- The calls themselves, when nobody interferes ----

  class Pool {
    var limit: int
    var inFlight: int
    var wake: nat
    const capacity: nat

    predicate Valid() reads this { wake <= capacity }

    constructor (n: int, capacity: nat)
      ensures Valid() && this.capacity == capacity && limit == Normalise(n) && inFlight == 0 && wake == 0
    {
      this.capacity := capacity;
      limit, inFlight, wake := Normalise(n), 0, 0;
    }

    method TrySend()
      requires Valid()
      modifies this`wake
      ensures Valid() && wake == Min(old(wake) + 1, capacity)
    {
      if wake < capacity { wake := wake + 1; }
    }

    /** A changed limit adds as many wakeups as the new limit, up to the capacity of the channel. */
    method SetConcurrency(n: int)
      requires Valid()
      modifies this`limit, this`wake
      ensures Valid() && limit == Normalise(n)
      ensures wake == if old(limit) == Normalise(n) then old(wake) else Min(old(wake) + Normalise(n), capacity)
    {
      var before := limit;
      var next := Normalise(n);
      if before == next { return; }
      limit := next;
      for i := 0 to next
        invariant Valid() && limit == next && wake == Min(old(wake) + i, capacity)
      {
        TrySend();
      }
    }

    /** The slot goes back before the wakeup is sent. */
    method Release()
      requires Valid()
      modifies this`inFlight, this`wake
      ensures Valid() && inFlight == old(inFlight) - 1 && wake == Min(old(wake) + 1, capacity)
    {
      inFlight := inFlight - 1;
      TrySend();
    }

    /** Takes a free slot at once and without a token; otherwise uses up the tokens and reports that it would block. */
    method Acquire() returns (acquired: bool)
      requires Valid()
      modifies this`inFlight, this`wake
      ensures Valid() && acquired == (old(inFlight) < limit)
      ensures inFlight == old(inFlight) + if acquired then 1 else 0
      ensures wake == if acquired then old(wake) else 0
    {
      while true
        invariant Valid() && inFlight == old(inFlight) && (inFlight < limit ==> wake == old(wake))
        decreases wake
      {
        var cur := inFlight;
        var lim := limit;
        if cur < lim {
          inFlight := cur + 1;
          return true;
        }
        if wake == 0 { return false; }
        wake := wake - 1;
      }
    }
  }
}
