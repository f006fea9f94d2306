/** The AccurateRip summary that two parser goroutines build from whipper's stdout and stderr
    (daemon/tools/whipper.go, `whipperAccumulator`, `ParseWhipperStreams` and the branches of `parseWhipperLines`). */
module AccurateRip {
  import opened Options

  /** A line as the parser's patterns classify it, in the order in which they are tried. */
  datatype Line =
    | Blank
    | Debug
    | TrackOK(track: nat, confidence: nat)
    | NotAccurate(track: nat)
    | CRCsMatch(track: nat)
    | AlreadyRipped(track: nat)
    | Other

  datatype Record = Record(track: nat, confidence: nat)

  /** The recordAR call that a line leads to: 1 stands for a match without a count, 0 for a mismatch. */
  function Recording(line: Line): Option<Record> {
    match line
    case TrackOK(t, c) => Some(Record(t, c))
    case NotAccurate(t) => Some(Record(t, 0))
    case CRCsMatch(t) => Some(Record(t, 1))
    case AlreadyRipped(t) => Some(Record(t, 1))
    case _ => None
  }

  predicate Recorded(lines: seq<Line>, r: Record) { exists line <- lines :: Recording(line) == Some(r) }

  /** m holds each recorded track with its greatest confidence, and nothing else. */
  ghost predicate IsMaximum(m: map<nat, nat>, lines: seq<Line>) {
    && (forall t <- m :: Recorded(lines, Record(t, m[t])))
    && (forall r: Record :: Recorded(lines, r) ==> r.track in m && r.confidence <= m[r.track])
  }

  predicate AnyOutput(lines: seq<Line>) { exists line <- lines :: line != Blank }

  /** There is only one such map. */
  lemma MaximumUnique(m: map<nat, nat>, m': map<nat, nat>, lines: seq<Line>, lines': seq<Line>)
    requires IsMaximum(m, lines) && IsMaximum(m', lines') && multiset(lines) == multiset(lines')
    ensures m == m'
  {
    assert forall line :: line in lines <==> line in multiset(lines);
    assert forall line :: line in lines' <==> line in multiset(lines');
    assert forall r: Record :: Recorded(lines, r) <==> Recorded(lines', r);
    forall t ensures t in m <==> t in m' {
      if t in m { assert Recorded(lines', Record(t, m[t])); }
      if t in m' { assert Recorded(lines, Record(t, m'[t])); }
    }
    forall t | t in m ensures m[t] == m'[t] {
      assert Recorded(lines', Record(t, m[t])) && Recorded(lines, Record(t, m'[t]));
    }
  }

  /** whipperAccumulator; each method is a section of its mutex. */
  class Accumulator {
    var accurateRip: map<nat, nat>

    constructor ()
      ensures accurateRip == map[]
    {
      accurateRip := map[];
    }

    method RecordAR(track: nat, confidence: nat)
      modifies this
      ensures accurateRip.Keys == old(accurateRip).Keys + {track}
      ensures forall t <- old(accurateRip) :: t != track ==> accurateRip[t] == old(accurateRip)[t]
      ensures accurateRip[track] == if track in old(accurateRip) && old(accurateRip)[track] >= confidence
                                    then old(accurateRip)[track] else confidence
    {
      if track in accurateRip && accurateRip[track] >= confidence { return; }
      accurateRip := accurateRip[track := confidence];
    }
  }

  lemma Append(lines: seq<Line>, line: Line)
    ensures forall r: Record :: Recorded(lines + [line], r) <==> Recorded(lines, r) || Recording(line) == Some(r)
    ensures AnyOutput(lines + [line]) <==> AnyOutput(lines) || line != Blank
  {
    assert line in lines + [line] && forall l :: l in lines + [line] <==> l in lines || l == line;
  }

  /** What the two goroutines share: the accumulator and the flag behind the one "preparing drive" hint. `done` is the
      order in which lines were handled. */
  class Shared {
    const acc: Accumulator
    var announced: bool
    var hints: nat
    ghost var done: seq<Line>

    ghost predicate Valid()
      reads this, acc
    {
      && IsMaximum(acc.accurateRip, done)
      && (announced <==> AnyOutput(done)) && hints == if announced then 1 else 0
    }

    constructor ()
      ensures Valid() && done == [] && fresh(acc)
    {
      acc := new Accumulator();
      announced, hints, done := false, 0, [];
    }

    method Handle(line: Line)
      requires Valid()
      modifies this, acc
      ensures Valid() && done == old(done) + [line]
    {
      if line != Blank && !announced {
        announced := true;
        hints := hints + 1;
      }
      var record := Recording(line);
      if record.Some? { acc.RecordAR(record.value.track, record.value.confidence); }
      Append(done, line);
      done := done + [line];
    }
  }

  /** Both goroutines, line by line in any interleaving. */
  method ParseWhipperStreams(stdout: seq<Line>, stderr: seq<Line>) returns (result: map<nat, nat>, hints: nat)
    ensures IsMaximum(result, stdout + stderr)
    ensures hints == if AnyOutput(stdout + stderr) then 1 else 0
  {
    var shared := new Shared();
    var i, j := 0, 0;
    while i < |stdout| || j < |stderr|
      invariant i <= |stdout| && j <= |stderr|
      invariant shared.Valid() && fresh(shared) && fresh(shared.acc)
      invariant multiset(shared.done) == multiset(stdout[..i]) + multiset(stderr[..j])
      decreases |stdout| + |stderr| - i - j
    {
      var first: bool := *;
      if i < |stdout| && (first || j == |stderr|) {
        shared.Handle(stdout[i]);
        assert stdout[..i + 1] == stdout[..i] + [stdout[i]];
        i := i + 1;
      } else {
        shared.Handle(stderr[j]);
        assert stderr[..j + 1] == stderr[..j] + [stderr[j]];
        j := j + 1;
      }
    }
    assert stdout[..i] == stdout && stderr[..j] == stderr;
    SameLines(shared.acc.accurateRip, shared.done, stdout + stderr);
    return shared.acc.accurateRip, shared.hints;
  }

  lemma SameLines(m: map<nat, nat>, lines: seq<Line>, lines': seq<Line>)
    requires IsMaximum(m, lines) && multiset(lines) == multiset(lines')
    ensures IsMaximum(m, lines') && (AnyOutput(lines) <==> AnyOutput(lines'))
  {
    assert forall line :: line in lines <==> line in multiset(lines);
    assert forall line :: line in lines' <==> line in multiset(lines');
    assert forall r: Record :: Recorded(lines, r) <==> Recorded(lines', r);
  }

  // ---- What the summary says of a track ----

  /** A track is in the summary exactly if some line speaks of it, and counts as verified exactly if some line reports a
      match; a count above one is one that a line gave. */
  lemma VerifiedIff(m: map<nat, nat>, lines: seq<Line>, t: nat)
    requires IsMaximum(m, lines)
    ensures t in m <==>
      || NotAccurate(t) in lines || CRCsMatch(t) in lines || AlreadyRipped(t) in lines
      || exists c: nat :: TrackOK(t, c) in lines
    ensures t in m && m[t] >= 1 <==>
      CRCsMatch(t) in lines || AlreadyRipped(t) in lines || exists c: nat :: c >= 1 && TrackOK(t, c) in lines
    ensures t in m && m[t] > 1 ==> TrackOK(t, m[t]) in lines
  {
    if t in m {
      assert Recorded(lines, Record(t, m[t]));
      var line :| line in lines && Recording(line) == Some(Record(t, m[t]));
    }
    if NotAccurate(t) in lines { assert Recorded(lines, Record(t, 0)); }
    if CRCsMatch(t) in lines || AlreadyRipped(t) in lines { assert Recorded(lines, Record(t, 1)); }
    forall c: nat | TrackOK(t, c) in lines ensures t in m && c <= m[t] { assert Recorded(lines, Record(t, c)); }
  }
}
