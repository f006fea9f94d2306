/** The in-process pub/sub of daemon/state/broadcaster.go. Subscribe, cancel, Publish and Close are mutex sections,
    but receivers take no lock, so a step is one channel operation inside a section, or one receive. */
module Broadcaster {

  /** A Go channel with its history: `received` was taken out, `since` and `until` are the lengths of the publish log
      when the channel was subscribed and up to which it was served before it was closed. */
  datatype Chan<Event> = Chan(capacity: nat, buffer: seq<Event>, closed: bool, received: seq<Event>, since: nat,
                              until: nat)
  {
    function Delivered(): seq<Event> { received + buffer }
  }

  /** Who holds the lock: Publish between its channel operations, Close between its own, or nobody. */
  datatype Section<Event> = Free | Publishing(ev: Event, todo: set<nat>, dropped: set<nat>) | Closing(left: set<nat>)

  /** `chans` holds every channel ever made; `log` everything published, the event under way included. */
  datatype State<Event> = State(chans: map<nat, Chan<Event>>, subs: set<nat>, closed: bool, section: Section<Event>,
                                log: seq<Event>)
  {
    /** Subscribers the event under way has not been sent to. */
    predicate Pending(ch: nat) { section.Publishing? && ch in section.todo + section.dropped }

    /** The length of the log that a channel must have been served up to. */
    function Horizon(ch: nat): int
      requires ch in chans
    {
      if chans[ch].closed then chans[ch].until else if Pending(ch) then |log| - 1 else |log|
    }
  }

  datatype Step<Event> =
    | Subscribe(ch: nat, buffer: int)
    | Cancel(ch: nat)
    | BeginPublish(ev: Event) | Offer(ch: nat) | Drop(ch: nat) | EndPublish
    | BeginClose | CloseOne(ch: nat) | EndClose
    | Receive(ch: nat)

  function Initial<Event>(): State<Event> { State(map[], {}, false, Free, []) }

  predicate Enabled<Event>(s: State<Event>, step: Step<Event>) {
    match step
    case Subscribe(ch, _) => s.section.Free? && ch !in s.chans
    case Cancel(ch) => s.section.Free? && ch in s.chans
    case BeginPublish(_) => s.section.Free?
    case Offer(ch) => s.section.Publishing? && ch in s.section.todo && ch in s.chans
    case Drop(ch) => s.section.Publishing? && s.section.todo == {} && ch in s.section.dropped && ch in s.chans
    case EndPublish => s.section.Publishing? && s.section.todo == {} && s.section.dropped == {}
    case BeginClose => s.section.Free?
    case CloseOne(ch) => s.section.Closing? && ch in s.section.left && ch in s.chans
    case EndClose => s.section.Closing? && s.section.left == {}
    case Receive(ch) => ch in s.chans && s.chans[ch].buffer != []
  }

  function Full<Event>(c: Chan<Event>): bool { |c.buffer| >= c.capacity }

  /** The channel after close(ch). */
  function Shut<Event>(c: Chan<Event>, until: nat): Chan<Event> { c.(closed := true, until := until) }

  /** Sending on a closed channel and closing one twice panic. */
  predicate Panics<Event>(s: State<Event>, step: Step<Event>)
    requires Enabled(s, step)
  {
    match step
    case Cancel(ch) => ch in s.subs && s.chans[ch].closed
    case Offer(ch) => s.chans[ch].closed
    case Drop(ch) => s.chans[ch].closed
    case CloseOne(ch) => s.chans[ch].closed
    case _ => false
  }

  function Apply<Event>(s: State<Event>, step: Step<Event>): State<Event>
    requires Enabled(s, step)
  {
    match step
    case Subscribe(ch, buffer) =>
      var c := Chan(if buffer < 1 then 1 else buffer, [], s.closed, [], |s.log|, |s.log|);
      s.(chans := s.chans[ch := c], subs := if s.closed then s.subs else s.subs + {ch})
    case Cancel(ch) =>
      if ch in s.subs then s.(chans := s.chans[ch := Shut(s.chans[ch], |s.log|)], subs := s.subs - {ch}) else s
    case BeginPublish(ev) =>
      if s.closed then s else s.(section := Publishing(ev, s.subs, {}), log := s.log + [ev])
    case Offer(ch) =>
      var Publishing(ev, todo, dropped) := s.section;
      if Full(s.chans[ch]) then s.(section := Publishing(ev, todo - {ch}, dropped + {ch}))
      else s.(section := Publishing(ev, todo - {ch}, dropped),
              chans := s.chans[ch := s.chans[ch].(buffer := s.chans[ch].buffer + [ev])])
    case Drop(ch) =>
      var Publishing(ev, todo, dropped) := s.section;
      var served := if |s.log| > 0 then |s.log| - 1 else 0;
      s.(section := Publishing(ev, todo, dropped - {ch}), subs := s.subs - {ch},
         chans := s.chans[ch := Shut(s.chans[ch], served)])
    case EndPublish => s.(section := Free)
    case BeginClose => if s.closed then s else s.(closed := true, section := Closing(s.subs))
    case CloseOne(ch) =>
      s.(section := Closing(s.section.left - {ch}), chans := s.chans[ch := Shut(s.chans[ch], |s.log|)])
    case EndClose => s.(section := Free, subs := {})
    case Receive(ch) =>
      var c := s.chans[ch];
      s.(chans := s.chans[ch := c.(buffer := c.buffer[1..], received := c.received + [c.buffer[0]])])
  }

  // ---- Runs ----

  predicate Legal<Event>(s: State<Event>, steps: seq<Step<Event>>)
    decreases |steps|
  {
    steps == [] || (Enabled(s, steps[0]) && Legal(Apply(s, steps[0]), steps[1..]))
  }

  function Exec<Event>(s: State<Event>, steps: seq<Step<Event>>): State<Event>
    requires Legal(s, steps)
    decreases |steps|
  {
    if steps == [] then s else Exec(Apply(s, steps[0]), steps[1..])
  }

  // ---- The invariant ----

  /** The open channels: Close keeps its subscribers in the set until all of them are closed. */
  function Open<Event>(s: State<Event>): set<nat> { if s.section.Closing? then s.section.left else s.subs }

  ghost predicate Shape<Event>(s: State<Event>) {
    && Open(s) <= s.subs <= s.chans.Keys
    && (s.section.Publishing? ==>
          s.section.todo + s.section.dropped <= s.subs && s.section.todo !! s.section.dropped
          && |s.log| > 0 && s.log[|s.log| - 1] == s.section.ev)
    && (s.closed && s.section.Free? ==> s.subs == {})
    && (s.section.Publishing? ==> !s.closed)
  }

  ghost predicate Served<Event>(s: State<Event>, ch: nat)
    requires ch in s.chans
  {
    && (s.chans[ch].closed <==> ch !in Open(s))
    && s.chans[ch].since <= s.Horizon(ch) <= |s.log|
    && s.chans[ch].Delivered() == s.log[s.chans[ch].since..s.Horizon(ch)]
  }

  ghost predicate Inv<Event>(s: State<Event>) { Shape(s) && forall ch <- s.chans :: Served(s, ch) }

  lemma ShapeKept<Event>(s: State<Event>, step: Step<Event>)
    requires Inv(s) && Enabled(s, step)
    ensures Shape(Apply(s, step))
  {
  }

  lemma OfferedServed<Event>(s: State<Event>, ch: nat)
    requires Inv(s) && Enabled(s, Offer(ch))
    ensures Served(Apply(s, Offer(ch)), ch)
  {
    var c := s.chans[ch];
    assert Served(s, ch);
    if !Full(c) {
      assert c.received + (c.buffer + [s.section.ev]) == c.Delivered() + [s.section.ev];
      assert s.log[c.since..|s.log|] == s.log[c.since..|s.log| - 1] + [s.section.ev];
    }
  }

  /** The channel a step operates on. */
  lemma OperandServed<Event>(s: State<Event>, step: Step<Event>, ch: nat)
    requires Inv(s) && Enabled(s, step)
    requires !step.BeginPublish? && !step.EndPublish? && !step.BeginClose? && !step.EndClose?
    requires ch == step.ch
    ensures Served(Apply(s, step), ch)
  {
    match step {
      case Offer(_) => OfferedServed(s, ch);
      case Receive(_) =>
        var c := s.chans[ch];
        assert Served(s, ch);
        assert (c.received + [c.buffer[0]]) + c.buffer[1..] == c.Delivered();
      case Subscribe(_, _) =>
      case Cancel(_) | Drop(_) | CloseOne(_) => assert Served(s, ch);
      case _ =>
    }
  }

  lemma OthersServed<Event>(s: State<Event>, step: Step<Event>, ch: nat)
    requires Inv(s) && Enabled(s, step) && ch in s.chans
    requires step.BeginPublish? || step.EndPublish? || step.BeginClose? || step.EndClose? || ch != step.ch
    ensures Served(Apply(s, step), ch)
  {
    if step.BeginPublish? { PublishServed(s, step.ev, ch); } else { assert Served(s, ch); }
  }

  lemma PublishServed<Event>(s: State<Event>, ev: Event, ch: nat)
    requires Inv(s) && Enabled(s, BeginPublish(ev)) && ch in s.chans
    ensures Served(Apply(s, BeginPublish(ev)), ch)
  {
    var c := s.chans[ch];
    assert Served(s, ch);
    assert (s.log + [ev])[c.since..s.Horizon(ch)] == s.log[c.since..s.Horizon(ch)];
  }

  lemma InvKept<Event>(s: State<Event>, step: Step<Event>)
    requires Inv(s) && Enabled(s, step)
    ensures Inv(Apply(s, step)) && !Panics(s, step)
  {
    ShapeKept(s, step);
    forall ch <- Apply(s, step).chans ensures Served(Apply(s, step), ch) {
      if step.BeginPublish? || step.EndPublish? || step.BeginClose? || step.EndClose? || ch != step.ch {
        OthersServed(s, step, ch);
      } else {
        OperandServed(s, step, ch);
      }
    }
    match step {
      case Cancel(ch) => assert Served(s, ch);
      case Offer(ch) => assert Served(s, ch);
      case Drop(ch) => assert Served(s, ch);
      case CloseOne(ch) => assert Served(s, ch);
      case _ =>
    }
  }

  lemma {:induction false} InvAlways<Event>(s: State<Event>, steps: seq<Step<Event>>)
    requires Inv(s) && Legal(s, steps)
    ensures Inv(Exec(s, steps))
    decreases |steps|
  {
    if steps != [] {
      InvKept(s, steps[0]);
      InvAlways(Apply(s, steps[0]), steps[1..]);
    }
  }

  // ---- Main results ----

  /** In every run, what a subscriber has received plus what is buffered for it is, in order, everything published
      since it subscribed; the one exception is the event that Publish has not offered to it yet. */
  lemma LiveSubscriberGetsEverything<Event>(steps: seq<Step<Event>>, ch: nat)
    requires Legal(Initial(), steps) && ch in Exec(Initial(), steps).chans
    ensures var s := Exec(Initial(), steps);
      var end := |s.log| - (if s.Pending(ch) then 1 else 0);
      !s.chans[ch].closed ==>
        s.chans[ch].since <= end && s.chans[ch].Delivered() == s.log[s.chans[ch].since..end]
  {
    InvAlways(Initial<Event>(), steps);
    assert Served(Exec(Initial(), steps), ch);
  }

  /** A dropped, cancelled or closed subscriber was given exactly a prefix of that, and keeps it to the end: whatever
      happens afterwards, received plus buffered stays that same stretch of the log. */
  lemma ClosedSubscriberKeepsPrefix<Event>(steps: seq<Step<Event>>, more: seq<Step<Event>>, ch: nat)
    requires Legal(Initial(), steps) && ch in Exec(Initial(), steps).chans && Exec(Initial(), steps).chans[ch].closed
    requires Legal(Exec(Initial(), steps), more)
    ensures var s := Exec(Initial(), steps); var c := s.chans[ch]; var s' := Exec(s, more);
      && c.since <= c.until <= |s.log| && c.Delivered() == s.log[c.since..c.until]
      && ch in s'.chans && s'.chans[ch].closed && s'.chans[ch].Delivered() == c.Delivered()
  {
    InvAlways(Initial<Event>(), steps);
    assert Served(Exec(Initial(), steps), ch);
    ClosedForGood(Exec(Initial(), steps), more, ch);
  }

  lemma {:induction false} ClosedForGood<Event>(s: State<Event>, steps: seq<Step<Event>>, ch: nat)
    requires Inv(s) && Legal(s, steps) && ch in s.chans && s.chans[ch].closed
    ensures var s' := Exec(s, steps);
      ch in s'.chans && s'.chans[ch].closed && s'.chans[ch].Delivered() == s.chans[ch].Delivered()
    decreases |steps|
  {
    if steps != [] {
      InvKept(s, steps[0]);
      ClosedStaysClosed(s, steps[0], ch);
      ClosedForGood(Apply(s, steps[0]), steps[1..], ch);
    }
  }

  lemma ClosedStaysClosed<Event>(s: State<Event>, step: Step<Event>, ch: nat)
    requires Inv(s) && Enabled(s, step) && ch in s.chans && s.chans[ch].closed
    ensures var s' := Apply(s, step);
      ch in s'.chans && s'.chans[ch].closed && s'.chans[ch].Delivered() == s.chans[ch].Delivered()
  {
    assert Served(s, ch);
    if step == Receive(ch) {
      var c := s.chans[ch];
      assert (c.received + [c.buffer[0]]) + c.buffer[1..] == c.Delivered();
    }
  }

  /** No run closes a channel twice or sends on a closed one. */
  lemma NoPanic<Event>(steps: seq<Step<Event>>, step: Step<Event>)
    requires Legal(Initial(), steps) && Enabled(Exec(Initial(), steps), step)
    ensures !Panics(Exec(Initial(), steps), step)
  {
    InvAlways(Initial<Event>(), steps);
    InvKept(Exec(Initial(), steps), step);
  }

  // ---- Who is dropped ----

  /** Dropped by Publish, now or as soon as it has offered the event to the others. */
  predicate IsDropped<Event>(s: State<Event>, ch: nat)
    requires ch in s.chans
  {
    s.chans[ch].closed || (s.section.Publishing? && ch in s.section.dropped)
  }

  /** Subscribe makes room for at least one event. */
  function Requested(n: int): nat { if n < 1 then 1 else n }

  /** The event is offered while as many events are unread as were asked for. */
  predicate Overflows<Event>(s: State<Event>, step: Step<Event>, ch: nat, n: int) {
    step == Offer(ch) && ch in s.chans && |s.chans[ch].buffer| == Requested(n)
  }

  predicate EverOverflows<Event>(s: State<Event>, steps: seq<Step<Event>>, ch: nat, n: int)
    requires Legal(s, steps)
    decreases |steps|
  {
    steps != [] && (Overflows(s, steps[0], ch, n) || EverOverflows(Apply(s, steps[0]), steps[1..], ch, n))
  }

  /** Neither its own cancel nor Close. */
  predicate Spares<Event>(step: Step<Event>, ch: nat) { step != Cancel(ch) && !step.BeginClose? }

  ghost predicate Subscribed<Event>(s: State<Event>, ch: nat, n: int, since: nat) {
    && Inv(s) && !s.closed && !s.section.Closing?
    && ch in s.chans && s.chans[ch].since == since
    && s.chans[ch].capacity == Requested(n) && |s.chans[ch].buffer| <= Requested(n)
  }

  lemma SubscribedKept<Event>(s: State<Event>, step: Step<Event>, ch: nat, n: int, since: nat)
    requires Subscribed(s, ch, n, since) && Enabled(s, step) && Spares(step, ch)
    ensures Subscribed(Apply(s, step), ch, n, since)
    ensures IsDropped(Apply(s, step), ch) <==> IsDropped(s, ch) || Overflows(s, step, ch, n)
  {
    InvKept(s, step);
    assert Served(s, ch);
    match step {
      case Offer(other) => OneOffered(s, other);
      case Drop(other) => OneDropped(s, other);
      case _ =>
    }
  }

  lemma {:induction false} DroppedIffFrom<Event>(s: State<Event>, steps: seq<Step<Event>>, ch: nat, n: int, since: nat)
    requires Subscribed(s, ch, n, since) && Legal(s, steps) && forall step <- steps :: Spares(step, ch)
    ensures Subscribed(Exec(s, steps), ch, n, since)
    ensures IsDropped(Exec(s, steps), ch) <==> IsDropped(s, ch) || EverOverflows(s, steps, ch, n)
    decreases |steps|
  {
    if steps != [] {
      assert steps[0] in steps && forall step <- steps[1..] :: step in steps;
      SubscribedKept(s, steps[0], ch, n, since);
      DroppedIffFrom(Apply(s, steps[0]), steps[1..], ch, n, since);
    }
  }

  /** In every run, a subscriber that neither cancels nor is closed with the broadcaster is dropped if and only if an
      event was offered to it while as many were unread as it had asked for; until then it is open and has been given
      every event since its subscription. */
  lemma DroppedIff<Event>(before: seq<Step<Event>>, ch: nat, n: int, after: seq<Step<Event>>)
    requires Legal(Initial(), before)
    requires !Exec(Initial(), before).closed && Enabled(Exec(Initial(), before), Subscribe(ch, n))
    requires Legal(Apply(Exec(Initial(), before), Subscribe(ch, n)), after) && forall step <- after :: Spares(step, ch)
    ensures var s := Exec(Initial(), before); var s1 := Apply(s, Subscribe(ch, n)); var s2 := Exec(s1, after);
      && ch in s2.chans && (IsDropped(s2, ch) <==> EverOverflows(s1, after, ch, n))
      && |s2.chans[ch].buffer| <= Requested(n)
      && (!EverOverflows(s1, after, ch, n) ==>
            var end := |s2.log| - (if s2.Pending(ch) then 1 else 0);
            |s.log| <= end && s2.chans[ch].Delivered() == s2.log[|s.log|..end])
  {
    var s := Exec(Initial(), before);
    InvAlways(Initial<Event>(), before);
    ClosingMeansClosed(Initial<Event>(), before);
    InvKept(s, Subscribe(ch, n));
    var s1 := Apply(s, Subscribe(ch, n));
    DroppedIffFrom(s1, after, ch, n, |s.log|);
    assert Served(Exec(s1, after), ch);
  }

  lemma {:induction false} ClosingMeansClosed<Event>(s: State<Event>, steps: seq<Step<Event>>)
    requires (s.section.Closing? ==> s.closed) && Legal(s, steps)
    ensures Exec(s, steps).section.Closing? ==> Exec(s, steps).closed
    decreases |steps|
  {
    if steps != [] { ClosingMeansClosed(Apply(s, steps[0]), steps[1..]); }
  }

  // ---- Whole calls ----

  /** What a channel holds after the event has been offered to it. */
  function Offered<Event>(c: Chan<Event>, ev: Event): Chan<Event> {
    if |c.buffer| < c.capacity then c.(buffer := c.buffer + [ev]) else c
  }

  predicate HasRoom<Event>(c: Chan<Event>) { |c.buffer| < c.capacity }

  /** The event of s has been offered to every channel in todo, and nothing else has happened. */
  ghost predicate OfferedTo<Event>(s: State<Event>, s': State<Event>, todo: set<nat>) {
    && s.section.Publishing? && s'.section.Publishing? && s'.section.ev == s.section.ev
    && todo <= s.section.todo && s'.section.todo == s.section.todo - todo
    && s'.subs == s.subs && s'.log == s.log && s'.closed == s.closed && s'.chans.Keys == s.chans.Keys
    && (forall ch <- s.chans ::
          s'.chans[ch] == if ch in todo then Offered(s.chans[ch], s.section.ev) else s.chans[ch])
    && (forall ch <- s.chans ::
          ch in s'.section.dropped <==> ch in s.section.dropped || (ch in todo && !HasRoom(s.chans[ch])))
  }

  lemma OneOffered<Event>(s: State<Event>, ch: nat)
    requires Inv(s) && Enabled(s, Offer(ch))
    ensures OfferedTo(s, Apply(s, Offer(ch)), {ch})
  {
  }

  lemma OfferedFurther<Event>(s: State<Event>, s1: State<Event>, s2: State<Event>, a: set<nat>, b: set<nat>)
    requires OfferedTo(s, s1, a) && OfferedTo(s1, s2, b)
    ensures OfferedTo(s, s2, a + b)
  {
    assert s.section.todo - a - b == s.section.todo - (a + b);
    forall ch <- s.chans
      ensures s2.chans[ch] == if ch in a + b then Offered(s.chans[ch], s.section.ev) else s.chans[ch]
    {
      assert ch in s1.chans && (ch in a ==> ch !in b);
    }
    forall ch <- s.chans
      ensures ch in s2.section.dropped <==> ch in s.section.dropped || (ch in a + b && !HasRoom(s.chans[ch]))
    {
      assert ch in s1.chans && (ch in a ==> ch !in b);
    }
  }

  lemma OffersAlone<Event>(s: State<Event>) returns (steps: seq<Step<Event>>)
    requires Inv(s) && s.section.Publishing?
    ensures Legal(s, steps) && Inv(Exec(s, steps)) && OfferedTo(s, Exec(s, steps), s.section.todo)
    decreases if s.section.Publishing? then s.section.todo else {}
  {
    if ch :| ch in s.section.todo {
      InvKept(s, Offer(ch));
      OneOffered(s, ch);
      var s1 := Apply(s, Offer(ch));
      var rest := OffersAlone(s1);
      steps := [Offer(ch)] + rest;
      assert steps[1..] == rest;
      OfferedFurther(s, s1, Exec(s1, rest), {ch}, s1.section.todo);
      assert {ch} + s1.section.todo == s.section.todo;
    } else {
      steps := [];
    }
  }

  /** Some of the dropped channels have been closed, and nothing else has happened. */
  ghost predicate DroppedFrom<Event>(s: State<Event>, s': State<Event>, gone: set<nat>) {
    && s.section.Publishing? && s'.section.Publishing? && s'.section.ev == s.section.ev && s'.section.todo == {}
    && gone <= s.section.dropped && s'.section.dropped == s.section.dropped - gone
    && s'.subs == s.subs - gone && s'.log == s.log && s'.closed == s.closed && s'.chans.Keys == s.chans.Keys
    && |s.log| > 0
    && forall ch <- s.chans :: s'.chans[ch] == if ch in gone then Shut(s.chans[ch], |s.log| - 1) else s.chans[ch]
  }

  lemma OneDropped<Event>(s: State<Event>, ch: nat)
    requires Inv(s) && Enabled(s, Drop(ch))
    ensures DroppedFrom(s, Apply(s, Drop(ch)), {ch})
  {
  }

  lemma DroppedFurther<Event>(s: State<Event>, s1: State<Event>, s2: State<Event>, a: set<nat>, b: set<nat>)
    requires DroppedFrom(s, s1, a) && DroppedFrom(s1, s2, b)
    ensures DroppedFrom(s, s2, a + b)
  {
    assert s.subs - a - b == s.subs - (a + b) && s.section.dropped - a - b == s.section.dropped - (a + b);
    forall ch <- s.chans
      ensures s2.chans[ch] == if ch in a + b then Shut(s.chans[ch], |s.log| - 1) else s.chans[ch]
    {
      assert ch in s1.chans && (ch in a ==> ch !in b);
    }
  }

  lemma DropsAlone<Event>(s: State<Event>) returns (steps: seq<Step<Event>>)
    requires Inv(s) && s.section.Publishing? && s.section.todo == {}
    ensures Legal(s, steps) && Inv(Exec(s, steps)) && DroppedFrom(s, Exec(s, steps), s.section.dropped)
    decreases if s.section.Publishing? then s.section.dropped else {}
  {
    if ch :| ch in s.section.dropped {
      InvKept(s, Drop(ch));
      OneDropped(s, ch);
      var s1 := Apply(s, Drop(ch));
      var rest := DropsAlone(s1);
      steps := [Drop(ch)] + rest;
      assert steps[1..] == rest;
      DroppedFurther(s, s1, Exec(s1, rest), {ch}, s1.section.dropped);
      assert {ch} + s1.section.dropped == s.section.dropped;
    } else {
      steps := [];
    }
  }

  lemma {:induction false} Then<Event>(s: State<Event>, first: seq<Step<Event>>, second: seq<Step<Event>>)
    requires Legal(s, first) && Legal(Exec(s, first), second)
    ensures Legal(s, first + second) && Exec(s, first + second) == Exec(Exec(s, first), second)
    decreases |first|
  {
    if first == [] {
      assert first + second == second;
    } else {
      assert (first + second)[1..] == first[1..] + second;
      Then(Apply(s, first[0]), first[1..], second);
    }
  }

  ghost predicate Published<Event>(s: State<Event>, s': State<Event>, ev: Event) {
    && s'.section.Free? && !s'.closed && s'.log == s.log + [ev] && s'.chans.Keys == s.chans.Keys
    && (forall ch <- s.chans :: ch in s'.subs <==> ch in s.subs && |s.chans[ch].buffer| < s.chans[ch].capacity)
    && (forall ch <- s.chans ::
          && s'.chans[ch].received == s.chans[ch].received
          && s'.chans[ch].buffer == s.chans[ch].buffer + (if ch in s'.subs then [ev] else [])
          && s'.chans[ch].closed == (s.chans[ch].closed || (ch in s.subs && ch !in s'.subs)))
  }

  /** Publish, when it runs: every subscriber with room gets the event, every other one is closed and leaves with what
      it has, and nobody else is touched. */
  lemma PublishAlone<Event>(s: State<Event>, ev: Event) returns (steps: seq<Step<Event>>)
    requires Inv(s) && s.section.Free? && !s.closed
    ensures Legal(s, steps)
    ensures Published(s, Exec(s, steps), ev)
  {
    var s1 := Apply(s, BeginPublish(ev));
    InvKept(s, BeginPublish(ev));
    var offers := OffersAlone(s1);
    var s2 := Exec(s1, offers);
    var drops := DropsAlone(s2);
    var s3 := Exec(s2, drops);
    steps := [BeginPublish(ev)] + (offers + (drops + [EndPublish]));
    PublishSteps(s, ev, offers, drops);
    PublishResult(s, s1, s2, s3, ev);
  }

  lemma PublishResult<Event>(s: State<Event>, s1: State<Event>, s2: State<Event>, s3: State<Event>, ev: Event)
    requires Inv(s) && s.section.Free? && !s.closed && s1 == Apply(s, BeginPublish(ev))
    requires OfferedTo(s1, s2, s1.section.todo) && DroppedFrom(s2, s3, s2.section.dropped) && Inv(s2)
    ensures Enabled(s3, EndPublish) && Published(s, Apply(s3, EndPublish), ev)
  {
    forall ch <- s.chans ensures ch in s2.section.dropped <==> ch in s.subs && !HasRoom(s.chans[ch]) {
      assert ch in s1.chans;
    }
    forall ch <- s.chans ensures s3.chans[ch] ==
      if ch !in s.subs then s.chans[ch]
      else if HasRoom(s.chans[ch]) then Offered(s.chans[ch], ev)
      else Shut(s.chans[ch], |s.log|)
    {
      assert ch in s1.chans && ch in s2.chans;
    }
  }

  lemma PublishSteps<Event>(s: State<Event>, ev: Event, offers: seq<Step<Event>>, drops: seq<Step<Event>>)
    requires Enabled(s, BeginPublish(ev)) && Legal(Apply(s, BeginPublish(ev)), offers)
    requires Legal(Exec(Apply(s, BeginPublish(ev)), offers), drops)
    requires Enabled(Exec(Exec(Apply(s, BeginPublish(ev)), offers), drops), EndPublish)
    ensures var steps := [BeginPublish(ev)] + (offers + (drops + [EndPublish]));
      && Legal(s, steps)
      && Exec(s, steps) == Apply(Exec(Exec(Apply(s, BeginPublish(ev)), offers), drops), EndPublish)
  {
    var s1 := Apply(s, BeginPublish(ev));
    var s2 := Exec(s1, offers);
    var end: seq<Step<Event>> := [EndPublish];
    assert end[1..] == [] && Legal(Exec(s2, drops), end);
    Then(s2, drops, end);
    Then(s1, offers, drops + end);
    var steps := [BeginPublish(ev)] + (offers + (drops + [EndPublish]));
    assert steps[1..] == offers + (drops + [EndPublish]);
  }

  /** The given channels have been closed, and nothing else has happened. */
  ghost predicate ClosedOff<Event>(s: State<Event>, s': State<Event>, gone: set<nat>) {
    && s.section.Closing? && s'.section.Closing? && gone <= s.section.left && s'.section.left == s.section.left - gone
    && s' == s.(section := s'.section, chans := s'.chans) && s'.chans.Keys == s.chans.Keys
    && forall ch <- s.chans :: s'.chans[ch] == if ch in gone then Shut(s.chans[ch], |s.log|) else s.chans[ch]
  }

  lemma OneClosed<Event>(s: State<Event>, ch: nat)
    requires Inv(s) && Enabled(s, CloseOne(ch))
    ensures ClosedOff(s, Apply(s, CloseOne(ch)), {ch})
  {
  }

  lemma ClosedFurther<Event>(s: State<Event>, s1: State<Event>, s2: State<Event>, a: set<nat>, b: set<nat>)
    requires ClosedOff(s, s1, a) && ClosedOff(s1, s2, b)
    ensures ClosedOff(s, s2, a + b)
  {
    assert s.section.left - a - b == s.section.left - (a + b);
    forall ch <- s.chans
      ensures s2.chans[ch] == if ch in a + b then Shut(s.chans[ch], |s.log|) else s.chans[ch]
    {
      assert ch in s1.chans && (ch in a ==> ch !in b);
    }
  }

  lemma ClosesAlone<Event>(s: State<Event>) returns (steps: seq<Step<Event>>)
    requires Inv(s) && s.section.Closing?
    ensures Legal(s, steps) && Inv(Exec(s, steps)) && ClosedOff(s, Exec(s, steps), s.section.left)
    decreases if s.section.Closing? then s.section.left else {}
  {
    if ch :| ch in s.section.left {
      InvKept(s, CloseOne(ch));
      OneClosed(s, ch);
      var s1 := Apply(s, CloseOne(ch));
      var rest := ClosesAlone(s1);
      steps := [CloseOne(ch)] + rest;
      assert steps[1..] == rest;
      ClosedFurther(s, s1, Exec(s1, rest), {ch}, s1.section.left);
      assert {ch} + s1.section.left == s.section.left;
    } else {
      steps := [];
    }
  }

  /** Close closes every subscriber; what they have not read stays readable. Afterwards Publish does nothing and
      Subscribe hands out a closed channel. */
  lemma CloseAlone<Event>(s: State<Event>, ev: Event, ch: nat, n: int) returns (steps: seq<Step<Event>>)
    requires Inv(s) && s.section.Free? && !s.closed && ch !in s.chans
    ensures Legal(s, steps)
    ensures var s' := Exec(s, steps);
      && s'.section.Free? && s'.closed && s'.subs == {} && s'.chans.Keys == s.chans.Keys
      && (forall c <- s.chans :: s'.chans[c].Delivered() == s.chans[c].Delivered() && s'.chans[c].closed)
      && Apply(s', BeginPublish(ev)) == s'
      && Apply(s', Subscribe(ch, n)).chans[ch].closed && Apply(s', Subscribe(ch, n)).subs == {}
  {
    var s1 := Apply(s, BeginClose);
    InvKept(s, BeginClose);
    var closes := ClosesAlone(s1);
    var s2 := Exec(s1, closes);
    var end: seq<Step<Event>> := [EndClose];
    assert end[1..] == [] && Legal(s2, end);
    Then(s1, closes, end);
    steps := [BeginClose] + (closes + end);
    assert steps[1..] == closes + end;
    forall c <- s.chans ensures s2.chans[c].closed && s2.chans[c].Delivered() == s.chans[c].Delivered() {
      assert Served(s, c) && c in s1.chans;
    }
  }

  /** A subscriber's cancel closes its channel once, and a second cancel does nothing. */
  lemma CancelAlone<Event>(s: State<Event>, ch: nat)
    requires Inv(s) && Enabled(s, Cancel(ch))
    ensures var s' := Apply(s, Cancel(ch));
      && s'.subs == s.subs - {ch} && s'.chans[ch].closed && s'.chans[ch].Delivered() == s.chans[ch].Delivered()
      && (forall c <- s.chans :: c != ch ==> s'.chans[c] == s.chans[c]) && Apply(s', Cancel(ch)) == s'
  {
    assert Served(s, ch);
  }
}
