/** Moving the finished files into the library (daemon/pipelines/movie_move.go and AtomicMove and copyFile in
    daemon/pipelines/output.go). */
module FileMoves {
  import opened Timestamps
  import opened OutputPaths
  import opened Text

  // ---- The -titleNN suffix ----

  /** filepath.Ext: from the last dot of the last element. */
  function Ext(p: string): (e: string)
    ensures |e| <= |p| && p[|p| - |e|..] == e
  {
    if p == "" then ""
    else
      var n := |p| - 1;
      if p[n] == '/' then "" else if p[n] == '.' then "."
      else
        var e := Ext(p[..n]);
        if e == "" then "" else e + [p[n]]
  }

  function Stem(p: string): string { p[..|p| - |Ext(p)|] }

  /** fmt's %02d. */
  function TwoDigits(n: nat): string { Padded(n, 2) }

  function Title(n: nat): string { "-title" + TwoDigits(n) }

  function WithTitle(p: string, n: nat): string { Stem(p) + Title(n) + Ext(p) }

  function Count(paths: seq<string>, p: string): nat {
    if paths == [] then 0 else Count(paths[..|paths| - 1], p) + if paths[|paths| - 1] == p then 1 else 0
  }

  predicate Collides(paths: seq<string>, i: nat)
    requires i < |paths|
  {
    Count(paths, paths[i]) > 1
  }

  function Disambiguated(paths: seq<string>, i: nat): string
    requires i < |paths|
  {
    if Collides(paths, i) then WithTitle(paths[i], i + 1) else paths[i]
  }

  function Suffixed(paths: seq<string>): (out: seq<string>)
    ensures |out| == |paths|
  {
    seq(|paths|, i requires 0 <= i < |paths| => Disambiguated(paths, i))
  }

  function Tallied(counts: map<string, nat>, p: string): nat { if p in counts then counts[p] else 0 }

  method Tally(paths: seq<string>) returns (counts: map<string, nat>)
    ensures forall p :: Tallied(counts, p) == Count(paths, p)
  {
    counts := map[];
    for i := 0 to |paths|
      invariant forall p :: Tallied(counts, p) == Count(paths[..i], p)
    {
      assert paths[..i + 1][..i] == paths[..i];
      counts := counts[paths[i] := Tallied(counts, paths[i]) + 1];
    }
    assert paths[..|paths|] == paths;
  }

  method SuffixCollisions(rendered: array<string>)
    modifies rendered
    ensures rendered[..] == Suffixed(old(rendered[..]))
  {
    ghost var was := rendered[..];
    var counts := Tally(rendered[..]);
    for i := 0 to rendered.Length
      invariant forall k :: 0 <= k < i ==> rendered[k] == Disambiguated(was, k)
      invariant forall k :: i <= k < rendered.Length ==> rendered[k] == was[k]
    {
      var r := rendered[i];
      assert Tallied(counts, r) == Count(was, r);
      if Tallied(counts, r) > 1 {
        rendered[i] := WithTitle(r, i + 1);
      }
    }
    assert rendered[..] == Suffixed(was);
  }

  lemma {:induction false} CountTwice(paths: seq<string>, i: nat, k: nat)
    requires i < k < |paths| && paths[i] == paths[k]
    ensures Count(paths, paths[i]) > 1
  {
    var n := |paths| - 1;
    if k == n { CountOnce(paths[..n], i); } else { CountTwice(paths[..n], i, k); }
  }

  lemma {:induction false} CountOnce(paths: seq<string>, i: nat)
    requires i < |paths|
    ensures Count(paths, paths[i]) > 0
  {
    var n := |paths| - 1;
    if i < n { CountOnce(paths[..n], i); }
  }

  /** Neither a dot nor a slash. */
  predicate Plain(s: string) { '.' !in s && '/' !in s }

  lemma {:induction false} ExtShape(p: string)
    ensures Ext(p) == "" || (Ext(p)[0] == '.' && Plain(Ext(p)[1..]))
  {
    if p != "" {
      var n := |p| - 1;
      ExtShape(p[..n]);
      if p[n] != '/' && p[n] != '.' && Ext(p[..n]) != "" {
        assert Ext(p)[1..] == Ext(p[..n])[1..] + [p[n]];
      }
    }
  }

  lemma ExtAppend(p: string, c: char)
    requires c != '.' && c != '/'
    ensures Ext(p + [c]) == if Ext(p) == "" then "" else Ext(p) + [c]
  {
    assert (p + [c])[..|p|] == p;
  }

  lemma Regroup(p: string, t: string)
    requires t != ""
    ensures p + [t[0]] + t[1..] == p + t
  {
  }

  lemma {:induction false} ExtPlain(p: string, t: string)
    requires Plain(t)
    ensures Ext(p + t) == if Ext(p) == "" then "" else Ext(p) + t
    decreases |t|
  {
    if t == "" {
      assert p + t == p;
    } else {
      ExtAppend(p, t[0]);
      ExtPlain(p + [t[0]], t[1..]);
      Regroup(p, t);
      Regroup(Ext(p), t);
    }
  }

  lemma ExtOfDot(p: string, t: string)
    requires Plain(t)
    ensures Ext(p + ("." + t)) == "." + t
  {
    Cut(p, ".");
    assert Ext(p + ".") == ".";
    ExtPlain(p + ".", t);
    Concat(p, ".", t);
  }

  /** The suffix leaves the extension alone. */
  lemma ExtOfTitle(p: string, t: string)
    requires Plain(t)
    ensures Ext(Stem(p) + t + Ext(p)) == Ext(p)
  {
    ExtShape(p);
    if Ext(p) == "" {
      assert Stem(p) + t + Ext(p) == p + t;
      ExtPlain(p, t);
    } else {
      ExtOfDot(Stem(p) + t, Ext(p)[1..]);
      assert Ext(p) == "." + Ext(p)[1..];
    }
  }

  function TrailingDigits(s: string): string {
    if s == "" || !('0' <= s[|s| - 1] <= '9') then "" else TrailingDigits(s[..|s| - 1]) + [s[|s| - 1]]
  }

  lemma {:induction false} TrailingAfter(s: string, d: string)
    requires s != "" && !('0' <= s[|s| - 1] <= '9') && Digits(d)
    ensures TrailingDigits(s + d) == d
  {
    if d == "" {
      assert s + d == s;
    } else {
      var n := |d| - 1;
      assert (s + d)[..|s + d| - 1] == s + d[..n] && d[n] in d && d == d[..n] + [d[n]];
      assert forall c <- d[..n] :: c in d;
      TrailingAfter(s, d[..n]);
    }
  }

  lemma {:induction false} ValueOfDecimal(n: nat)
    ensures Decimal(n) != "" && Digits(Decimal(n)) && Value(Decimal(n)) == n
  {
    if n >= 10 {
      ValueOfDecimal(n / 10);
      var d := Decimal(n);
      assert d[..|d| - 1] == Decimal(n / 10);
    }
  }

  lemma TwoDigitsMeaning(n: nat)
    ensures Digits(TwoDigits(n)) && Plain(TwoDigits(n)) && Value(TwoDigits(n)) == n
  {
    ValueOfDecimal(n);
    if n < 10 {
      assert LeadingZeros("0" + Decimal(n), 2) == "0" + Decimal(n);
      assert TwoDigits(n) == "0" + Decimal(n);
      assert ("0" + Decimal(n))[..1] == "0" && Value("0") == 0;
    } else {
      ValueOfDecimal(n / 10);
      assert TwoDigits(n) == Decimal(n);
    }
  }

  /** The extension and the number can be read off a suffixed path. */
  lemma TitleParts(p: string, n: nat)
    ensures Ext(WithTitle(p, n)) == Ext(p)
    ensures TrailingDigits(Stem(WithTitle(p, n))) == TwoDigits(n)
  {
    TitleIsPlain(n);
    ExtOfTitle(p, Title(n));
    Cut(Stem(p) + Title(n), Ext(p));
    TitleDigits(Stem(p), n);
  }

  lemma TitleIsPlain(n: nat)
    ensures Plain(Title(n))
  {
    TwoDigitsMeaning(n);
    assert Plain("-title") && forall c <- Title(n) :: c in "-title" || c in TwoDigits(n);
  }

  lemma Concat(a: string, b: string, c: string)
    ensures a + (b + c) == a + b + c
  {
  }

  lemma TitleDigits(stem: string, n: nat)
    ensures TrailingDigits(stem + Title(n)) == TwoDigits(n)
  {
    TwoDigitsMeaning(n);
    Concat(stem, "-title", TwoDigits(n));
    assert (stem + "-title")[|stem| + 5] == 'e';
    TrailingAfter(stem + "-title", TwoDigits(n));
  }

  /** Two suffixed paths are equal only if they carry the same number. */
  lemma TitleNumber(p: string, m: nat, q: string, n: nat)
    requires WithTitle(p, m) == WithTitle(q, n)
    ensures m == n
  {
    TitleParts(p, m);
    TitleParts(q, n);
    TwoDigitsMeaning(m);
    TwoDigitsMeaning(n);
  }

  /** Paths that were equal differ afterwards, and so do all suffixed ones, whatever they were. */
  lemma SuffixedDiffer(paths: seq<string>, i: nat, k: nat)
    requires i < k < |paths| && (paths[i] == paths[k] || (Collides(paths, i) && Collides(paths, k)))
    ensures Suffixed(paths)[i] != Suffixed(paths)[k]
  {
    if paths[i] == paths[k] { CountTwice(paths, i, k); }
    TitlesDiffer(paths[i], i + 1, paths[k], k + 1);
    assert Suffixed(paths)[i] == Disambiguated(paths, i) && Suffixed(paths)[k] == Disambiguated(paths, k);
  }

  lemma TitlesDiffer(p: string, m: nat, q: string, n: nat)
    requires m != n
    ensures WithTitle(p, m) != WithTitle(q, n)
  {
    if WithTitle(p, m) == WithTitle(q, n) { TitleNumber(p, m, q, n); }
  }

  ghost predicate Distinct(paths: seq<string>) { forall i, k :: 0 <= i < k < |paths| ==> paths[i] != paths[k] }

  /** A suffixed path that is also the path of a title that was not suffixed. */
  ghost predicate Clash(paths: seq<string>, i: nat, k: nat) {
    i < |paths| && k < |paths| && Collides(paths, i) && !Collides(paths, k) && WithTitle(paths[i], i + 1) == paths[k]
  }

  /** The pass makes all paths distinct unless there is such a clash. */
  lemma DistinctIff(paths: seq<string>)
    ensures Distinct(Suffixed(paths)) <==> forall i: nat, k: nat :: !Clash(paths, i, k)
  {
    var out := Suffixed(paths);
    forall i: nat, k: nat | i < k < |paths| && out[i] == out[k] ensures Clash(paths, i, k) || Clash(paths, k, i) {
      if paths[i] == paths[k] || (Collides(paths, i) && Collides(paths, k)) { SuffixedDiffer(paths, i, k); }
    }
    forall i: nat, k: nat | Clash(paths, i, k) ensures !Distinct(out) { assert out[i] == out[k] && i != k; }
  }

  /** Two titles rendered alike, and a third whose path is what the first becomes. */
  lemma ClashExample()
    ensures Clash(["a", "a", "a-title01"], 0, 2)
  {
    var paths := ["a", "a", "a-title01"];
    CountTwice(paths, 0, 1);
    CountLast(paths);
    TitleOfA();
  }

  lemma CountLast(paths: seq<string>)
    requires |paths| == 3 && paths[2] !in paths[..2]
    ensures !Collides(paths, 2)
  {
    NotCounted(paths[..2], paths[2]);
  }

  lemma {:induction false} NotCounted(paths: seq<string>, p: string)
    requires p !in paths
    ensures Count(paths, p) == 0
  {
    if paths != [] { NotCounted(paths[..|paths| - 1], p); }
  }

  lemma TitleOfA()
    ensures WithTitle("a", 1) == "a-title01"
  {
    ExtAppend("", 'a');
    assert "" + ['a'] == "a";
    assert TwoDigits(1) == "01";
  }

  // ---- Files ----

  datatype Found = Exists | NotExist | StatError

  /** Which operations on the way from src to dst fail, whether dst is a directory, and how much of a failing copy is
      written. */
  datatype Faults = Faults(stat: bool, directory: bool, mkdir: bool, rename: bool, open: bool, create: bool,
                           write: bool, written: nat, close: bool, cleanup: bool, remove: bool)
  {
    predicate CopyWorks() { !open && !create && !write && !close }
    predicate MoveWorks() { !stat && !directory && !mkdir && (!rename || (CopyWorks() && !remove)) }
  }

  /** Regular files by path. */
  class FileSystem {
    var files: map<string, string>

    method Stat(path: string, f: Faults) returns (r: Found)
      ensures r == if f.stat then StatError else if path in files || f.directory then Exists else NotExist
    {
      r := if f.stat then StatError else if path in files || f.directory then Exists else NotExist;
    }

    /** copyFile creates the destination only if there is none. A failed copy removes what it wrote, or leaves it when
        that fails too, and never touches a file that was there. */
    method CopyFile(src: string, dst: string, f: Faults) returns (ok: bool)
      modifies this
      ensures ok <==> src in old(files) && dst !in old(files) && f.CopyWorks()
      ensures ok ==> files == old(files)[dst := old(files)[src]]
      ensures !ok ==>
        || files == old(files)
        || (f.cleanup && dst !in old(files) && dst in files && files == old(files)[dst := files[dst]]
            && src in old(files) && files[dst] <= old(files)[src])
    {
      if f.open || src !in files { return false; }
      if f.create || dst in files { return false; }
      var content := files[src];
      files := files[dst := ""];
      if f.write {
        files := files[dst := if f.written < |content| then content[..f.written] else content];
        if !f.cleanup { files := files - {dst}; }
        return false;
      }
      files := files[dst := content];
      if f.close {
        if !f.cleanup { files := files - {dst}; }
        return false;
      }
      ok := true;
    }

    /** All or nothing for the file at src; whatever was at dst stays. It works when there is something to move and
        nothing in its place, and neither the rename fails nor, after it, the copy or the removal of the source. */
    method AtomicMove(src: string, dst: string, f: Faults) returns (ok: bool)
      modifies this
      ensures ok <==> src in old(files) && dst !in old(files) && f.MoveWorks()
      ensures ok ==> files == (old(files) - {src})[dst := old(files)[src]]
      ensures !ok ==>
        files == old(files) || (dst !in old(files) && dst in files && files == old(files)[dst := files[dst]])
    {
      var found := Stat(dst, f);
      if !found.NotExist? { return false; }
      if f.mkdir { return false; }
      if !f.rename && src in files {
        files := (files - {src})[dst := files[src]];
        return true;
      }
      ok := CopyFile(src, dst, f);
      if !ok { return; }
      if f.remove { return false; }
      files := files - {src};
    }
  }

  // ---- The move loop ----

  /** Every file there was still exists with its content, p now being at at[p], and no two have become one. */
  ghost predicate Conserved(was: map<string, string>, now: map<string, string>, at: map<string, string>) {
    && at.Keys == was.Keys
    && (forall p <- was :: at[p] in now && now[at[p]] == was[p])
    && (forall p <- was, q <- was :: at[p] == at[q] ==> p == q)
  }

  ghost function Redirected(at: map<string, string>, src: string, dst: string): map<string, string> {
    map p | p in at :: if at[p] == src then dst else at[p]
  }

  lemma MoveConserves(was: map<string, string>, now: map<string, string>, at: map<string, string>, src: string,
                      dst: string)
    requires Conserved(was, now, at) && src in now && dst !in now
    ensures Conserved(was, (now - {src})[dst := now[src]], Redirected(at, src, dst))
  {
  }

  /** No destination is the path of a source. */
  ghost predicate Apart(srcs: seq<string>, dsts: seq<string>) { forall s <- srcs :: s !in dsts }

  /** What was not a source is where it was; what was moved is at a destination. */
  ghost predicate Settled(srcs: seq<string>, dsts: seq<string>, n: nat, at: map<string, string>)
    requires n <= |srcs| == |dsts|
  {
    forall p <- at :: at[p] == p || (p in srcs[..n] && at[p] in dsts[..n])
  }

  /** Every file now there is one that was there before. */
  ghost predicate Owned(now: map<string, string>, at: map<string, string>) { forall q <- now :: q in at.Values }

  ghost predicate Placed(src: string, dst: string, now: map<string, string>, at: map<string, string>) {
    src in at && at[src] == dst && src !in now && dst in now
  }

  ghost predicate DistinctTo(s: seq<string>, n: nat)
    requires n <= |s|
  {
    forall i, k :: 0 <= i < k < n ==> s[i] != s[k]
  }

  /** Each moved file is exactly where it was sent. */
  ghost predicate InPlace(srcs: seq<string>, dsts: seq<string>, n: nat, now: map<string, string>,
                          at: map<string, string>)
    requires n <= |srcs| == |dsts|
  {
    && (forall i :: 0 <= i < n ==> Placed(srcs[i], dsts[i], now, at))
    && DistinctTo(srcs, n) && DistinctTo(dsts, n)
  }

  /** What holds after n moves. */
  ghost predicate Progress(srcs: seq<string>, dsts: seq<string>, n: nat, was: map<string, string>,
                           now: map<string, string>, at: map<string, string>)
    requires n <= |srcs| == |dsts|
  {
    && Conserved(was, now, at) && Settled(srcs, dsts, n, at)
    && (Apart(srcs, dsts) ==> InPlace(srcs, dsts, n, now, at))
  }

  /** ... up to the first failure, which leaves at most the remainder of a copy. */
  method MoveAll(fs: FileSystem, srcs: seq<string>, dsts: seq<string>, faults: seq<Faults>)
      returns (moved: seq<string>, ok: bool, ghost at: map<string, string>)
    requires |faults| == |dsts| == |srcs|
    modifies fs
    ensures Clear(srcs, dsts, old(fs.files)) && AllWork(faults) ==> ok
    ensures |moved| <= |srcs| && moved == dsts[..|moved|] && (ok <==> |moved| == |srcs|)
    ensures Progress(srcs, dsts, |moved|, old(fs.files), fs.files, at)
    ensures if ok then Owned(fs.files, at) else Owned(fs.files - {dsts[|moved|]}, at)
  {
    moved, ok := [], true;
    at := map p | p in fs.files :: p;
    ghost var was := fs.files;
    StartInPlace(srcs, dsts, was, at);
    for i := 0 to |srcs|
      invariant moved == dsts[..i] && Owned(fs.files, at)
      invariant Progress(srcs, dsts, i, was, fs.files, at)
    {
      ok, at := MoveOne(fs, srcs, dsts, faults[i], i, was, at);
      if !ok { return; }
      moved := moved + [dsts[i]];
    }
  }

  predicate AllWork(faults: seq<Faults>) { forall i :: 0 <= i < |faults| ==> faults[i].MoveWorks() }

  /** Each source is there once and each destination is free, and they are apart. */
  ghost predicate Clear(srcs: seq<string>, dsts: seq<string>, was: map<string, string>) {
    && Distinct(srcs) && Distinct(dsts) && Apart(srcs, dsts)
    && (forall s <- srcs :: s in was) && (forall d <- dsts :: d !in was)
  }

  /** Then the next source is still there, and its destination still free. */
  lemma NextIsClear(srcs: seq<string>, dsts: seq<string>, i: nat, was: map<string, string>, now: map<string, string>,
                    at: map<string, string>)
    requires i < |srcs| == |dsts| && Clear(srcs, dsts, was) && Owned(now, at) && Progress(srcs, dsts, i, was, now, at)
    ensures srcs[i] in now && dsts[i] !in now
  {
    assert srcs[i] in srcs && dsts[i] in dsts;
    assert srcs[i] !in srcs[..i] && dsts[i] !in dsts[..i];
    assert at[srcs[i]] == srcs[i];
  }

  method MoveOne(fs: FileSystem, srcs: seq<string>, dsts: seq<string>, f: Faults, i: nat,
                 ghost was: map<string, string>, ghost at: map<string, string>)
      returns (ok: bool, ghost at': map<string, string>)
    requires i < |srcs| == |dsts| && Owned(fs.files, at) && Progress(srcs, dsts, i, was, fs.files, at)
    modifies fs
    ensures Clear(srcs, dsts, was) && f.MoveWorks() ==> ok
    ensures ok ==> Owned(fs.files, at') && Progress(srcs, dsts, i + 1, was, fs.files, at')
    ensures !ok ==> Owned(fs.files - {dsts[i]}, at') && Progress(srcs, dsts, i, was, fs.files, at')
  {
    ghost var now := fs.files;
    if Clear(srcs, dsts, was) { NextIsClear(srcs, dsts, i, was, now, at); }
    ok := fs.AtomicMove(srcs[i], dsts[i], f);
    if ok {
      MoveProgress(srcs, dsts, i, was, now, at);
      StillOwned(now, at, srcs[i], dsts[i]);
      at' := Redirected(at, srcs[i], dsts[i]);
    } else {
      FailureHarmless(srcs, dsts, i, was, now, fs.files, at);
      at' := at;
    }
  }

  lemma StartInPlace(srcs: seq<string>, dsts: seq<string>, was: map<string, string>, at: map<string, string>)
    requires |srcs| == |dsts| && at == map p | p in was :: p
    ensures Progress(srcs, dsts, 0, was, was, at) && Owned(was, at)
  {
    forall q | q in was ensures q in at.Values { assert at[q] == q; }
  }

  lemma FailureHarmless(srcs: seq<string>, dsts: seq<string>, i: nat, was: map<string, string>,
                        now: map<string, string>, now': map<string, string>, at: map<string, string>)
    requires i < |srcs| == |dsts| && Owned(now, at) && Progress(srcs, dsts, i, was, now, at)
    requires now' == now || (dsts[i] !in now && dsts[i] in now' && now' == now[dsts[i] := now'[dsts[i]]])
    ensures Progress(srcs, dsts, i, was, now', at)
    ensures Owned(now' - {dsts[i]}, at)
  {
    if Apart(srcs, dsts) {
      forall k | 0 <= k < i ensures Placed(srcs[k], dsts[k], now', at) {
        assert Placed(srcs[k], dsts[k], now, at) && srcs[k] in srcs && dsts[i] in dsts;
      }
    }
  }

  lemma MoveProgress(srcs: seq<string>, dsts: seq<string>, i: nat, was: map<string, string>, now: map<string, string>,
                     at: map<string, string>)
    requires i < |srcs| == |dsts| && Owned(now, at) && Progress(srcs, dsts, i, was, now, at)
    requires srcs[i] in now && dsts[i] !in now
    ensures var now', at' := (now - {srcs[i]})[dsts[i] := now[srcs[i]]], Redirected(at, srcs[i], dsts[i]);
      Progress(srcs, dsts, i + 1, was, now', at')
  {
    MoveConserves(was, now, at, srcs[i], dsts[i]);
    MoveSettled(srcs, dsts, i, at);
    if Apart(srcs, dsts) { MoveInPlace(srcs, dsts, i, was, now, at); }
  }

  lemma MoveSettled(srcs: seq<string>, dsts: seq<string>, i: nat, at: map<string, string>)
    requires i < |srcs| == |dsts| && Settled(srcs, dsts, i, at)
    ensures Settled(srcs, dsts, i + 1, Redirected(at, srcs[i], dsts[i]))
  {
    assert srcs[..i + 1] == srcs[..i] + [srcs[i]] && dsts[..i + 1] == dsts[..i] + [dsts[i]];
  }

  lemma PlacedKept(s: string, d: string, src: string, dst: string, now: map<string, string>, at: map<string, string>)
    requires Placed(s, d, now, at) && s != dst && d != src && src in now
    ensures Placed(s, d, (now - {src})[dst := now[src]], Redirected(at, src, dst))
  {
  }

  /** A source that is still there has not been moved onto by another. */
  lemma OwnPlace(srcs: seq<string>, dsts: seq<string>, i: nat, now: map<string, string>, at: map<string, string>)
    requires i < |srcs| == |dsts| && Apart(srcs, dsts) && Settled(srcs, dsts, i, at) && Owned(now, at) && srcs[i] in now
    ensures srcs[i] in at && at[srcs[i]] == srcs[i]
  {
    var p :| p in at && at[p] == srcs[i];
    assert srcs[i] in srcs;
    assert forall d <- dsts[..i] :: d in dsts;
  }

  lemma MoveInPlace(srcs: seq<string>, dsts: seq<string>, i: nat, was: map<string, string>, now: map<string, string>,
                    at: map<string, string>)
    requires i < |srcs| == |dsts| && Owned(now, at) && Progress(srcs, dsts, i, was, now, at) && Apart(srcs, dsts)
    requires srcs[i] in now && dsts[i] !in now
    ensures InPlace(srcs, dsts, i + 1, (now - {srcs[i]})[dsts[i] := now[srcs[i]]], Redirected(at, srcs[i], dsts[i]))
  {
    var src, dst := srcs[i], dsts[i];
    OwnPlace(srcs, dsts, i, now, at);
    assert src in srcs && dst in dsts;
    forall k | 0 <= k < i
      ensures Placed(srcs[k], dsts[k], (now - {src})[dst := now[src]], Redirected(at, src, dst))
      ensures srcs[k] != src && dsts[k] != dst
    {
      assert Placed(srcs[k], dsts[k], now, at) && srcs[k] in srcs && dsts[k] in dsts;
      PlacedKept(srcs[k], dsts[k], src, dst, now, at);
    }
    InPlaceNext(srcs, dsts, i, (now - {src})[dst := now[src]], Redirected(at, src, dst));
  }

  lemma InPlaceNext(srcs: seq<string>, dsts: seq<string>, i: nat, now: map<string, string>, at: map<string, string>)
    requires i < |srcs| == |dsts| && DistinctTo(srcs, i) && DistinctTo(dsts, i)
    requires forall k | 0 <= k < i :: srcs[k] != srcs[i] && dsts[k] != dsts[i]
    requires forall k | 0 <= k <= i :: Placed(srcs[k], dsts[k], now, at)
    ensures InPlace(srcs, dsts, i + 1, now, at)
  {
  }

  lemma StillOwned(now: map<string, string>, at: map<string, string>, src: string, dst: string)
    requires src in now && dst !in now && Owned(now, at)
    ensures Owned((now - {src})[dst := now[src]], Redirected(at, src, dst))
  {
    var at' := Redirected(at, src, dst);
    forall q | q in (now - {src})[dst := now[src]] ensures q in at'.Values {
      var p :| p in at && at[p] == if q == dst then src else q;
      assert at'[p] == q;
    }
  }

  // ---- MoveMovieOutputs ----

  /** filepath.Join of the library root and a sanitized path. */
  function Under(root: string, rel: string): string { if rel == "" then root else root + "/" + rel }

  /** The path has the components of the root, then those of the rendered path. */
  lemma UnderMeaning(root: string, rel: string)
    requires rel != ""
    ensures Split(Under(root, rel), '/') == Split(root, '/') + Split(rel, '/')
  {
    SplitConcat(root, rel, '/');
  }

  lemma UnderInjective(root: string, a: string, b: string)
    requires Under(root, a) == Under(root, b)
    ensures a == b
  {
    if a != "" && b != "" {
      assert a == Under(root, a)[|root| + 1..] && b == Under(root, b)[|root| + 1..];
    }
  }

  function Destinations(root: string, rendered: seq<string>): seq<string> {
    seq(|rendered|, i requires 0 <= i < |rendered| => Under(root, rendered[i]))
  }

  /** The suffix pass and the move loop. No file is overwritten and none is lost, however far it gets; and it gets to
      the end only when no suffixed path is also a path that was not suffixed. */
  method MoveMovieOutputs(fs: FileSystem, root: string, srcs: seq<string>, rendered: array<string>,
                          faults: seq<Faults>)
      returns (moved: seq<string>, ok: bool, ghost at: map<string, string>)
    requires rendered.Length == |srcs| == |faults|
    modifies fs, rendered
    ensures rendered[..] == Suffixed(old(rendered[..]))
    ensures var dsts := Destinations(root, rendered[..]);
      && |moved| <= |srcs| && moved == dsts[..|moved|] && (ok <==> |moved| == |srcs|)
      && Progress(srcs, dsts, |moved|, old(fs.files), fs.files, at)
      && (ok && Apart(srcs, dsts) ==> forall i: nat, k: nat :: !Clash(old(rendered[..]), i, k))
      && (Clear(srcs, dsts, old(fs.files)) && AllWork(faults) ==> ok)
  {
    SuffixCollisions(rendered);
    var dsts := Destinations(root, rendered[..]);
    moved, ok, at := MoveAll(fs, srcs, dsts, faults);
    if ok && Apart(srcs, dsts) { AllMovedNoClash(root, old(rendered[..])); }
  }

  lemma AllMovedNoClash(root: string, paths: seq<string>)
    requires var dsts := Destinations(root, Suffixed(paths)); DistinctTo(dsts, |dsts|)
    ensures forall i: nat, k: nat :: !Clash(paths, i, k)
  {
    DistinctDestinations(root, Suffixed(paths));
    DistinctIff(paths);
  }

  lemma DistinctDestinations(root: string, rendered: seq<string>)
    ensures Distinct(Destinations(root, rendered)) <==> Distinct(rendered)
  {
    var dsts := Destinations(root, rendered);
    if Distinct(dsts) {
      forall i, k | 0 <= i < k < |rendered| ensures rendered[i] != rendered[k] { assert dsts[i] != dsts[k]; }
    }
    if Distinct(rendered) {
      forall i, k | 0 <= i < k < |rendered| ensures dsts[i] != dsts[k] {
        if dsts[i] == dsts[k] { UnderInjective(root, rendered[i], rendered[k]); }
      }
    }
  }

  // ---- indexOfLargest ----

  /** The first of the largest, or 0 when no size is positive. */
  method IndexOfLargest(sizes: seq<int>) returns (best: nat)
    ensures (forall s <- sizes :: s <= 0) ==> best == 0
    ensures (exists s <- sizes :: s > 0) ==>
      && best < |sizes| && sizes[best] > 0
      && (forall k :: 0 <= k < |sizes| ==> sizes[k] <= sizes[best])
      && (forall k :: 0 <= k < best ==> sizes[k] < sizes[best])
  {
    best := 0;
    var bestSize := 0;
    for i := 0 to |sizes|
      invariant bestSize >= 0 && (bestSize == 0 ==> best == 0) && (bestSize > 0 ==> exists s <- sizes :: s > 0)
      invariant forall k :: 0 <= k < i ==> sizes[k] <= bestSize
      invariant bestSize > 0 ==>
        best < i && sizes[best] == bestSize && forall k :: 0 <= k < best ==> sizes[k] < bestSize
    {
      if sizes[i] > bestSize {
        assert sizes[i] in sizes;
        best, bestSize := i, sizes[i];
      }
    }
  }
}
