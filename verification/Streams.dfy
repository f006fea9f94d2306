/** Tool output that arrives in arbitrary pieces: the scanner with `splitCROrLF` and `drainAfterScan`
    (daemon/tools/streamparse.go), and `cdInfoWatcher` (daemon/identify/classify.go). */
module Streams {
  import opened Options
  import opened Text

  /** A byte is written as the character of the same code. */
  type bytes = string

  predicate EndsLine(b: char) { b == '\n' || b == '\r' }

  predicate Unbroken(s: bytes) { forall b <- s :: !EndsLine(b) }

  // ---- What splitting means ----

  /** Cut the whole text at every CR and every LF. */
  function Pieces(s: bytes): (pieces: seq<bytes>)
    ensures pieces != []
  {
    if s == [] then [[]]
    else
      var rest := Pieces(s[1..]);
      if EndsLine(s[0]) then [[]] + rest else [[s[0]] + rest[0]] + rest[1..]
  }

  /** Lines end at carriage returns and at newlines. */
  lemma UnbrokenIff(s: bytes)
    ensures Unbroken(s) <==> '\n' !in s && '\r' !in s
  {
  }

  /** A last piece that is empty is no token: a final terminator begins no new line. */
  function Tokens(s: bytes): seq<bytes> {
    var pieces := Pieces(s);
    if pieces[|pieces| - 1] == [] then pieces[..|pieces| - 1] else pieces
  }

  function Flatten(pieces: seq<bytes>): bytes { if pieces == [] then [] else pieces[0] + Flatten(pieces[1..]) }

  function WithoutTerminators(s: bytes): bytes {
    if s == [] then [] else (if EndsLine(s[0]) then [] else [s[0]]) + WithoutTerminators(s[1..])
  }

  function Terminators(s: bytes): nat {
    if s == [] then 0 else (if EndsLine(s[0]) then 1 else 0) + Terminators(s[1..])
  }

  /** Nothing but terminators is lost, each ends one piece, and no piece holds one. */
  lemma {:induction false} PiecesConserve(s: bytes)
    ensures Flatten(Pieces(s)) == WithoutTerminators(s)
    ensures |Pieces(s)| == Terminators(s) + 1
    ensures forall p <- Pieces(s) :: Unbroken(p)
  {
    if s != [] {
      PiecesConserve(s[1..]);
      var rest := Pieces(s[1..]);
      assert rest[0] in rest;
      if EndsLine(s[0]) {
        assert ([[]] + rest)[1..] == rest;
      } else {
        assert ([[s[0]] + rest[0]] + rest[1..])[1..] == rest[1..];
        assert [s[0]] + rest[0] + Flatten(rest[1..]) == [s[0]] + Flatten(rest);
      }
    }
  }

  /** The first token is what comes before the first terminator; the others are the tokens of what follows it. */
  lemma {:induction false} TokensNext(line: bytes, rest: bytes, end: char)
    requires Unbroken(line) && EndsLine(end)
    ensures Tokens(line + [end] + rest) == [line] + Tokens(rest)
  {
    PiecesNext(line, rest, end);
    var pieces := Pieces(rest);
    assert [line] + pieces == Pieces(line + [end] + rest);
  }

  lemma {:induction false} PiecesNext(line: bytes, rest: bytes, end: char)
    requires Unbroken(line) && EndsLine(end)
    ensures Pieces(line + [end] + rest) == [line] + Pieces(rest)
  {
    var s := line + [end] + rest;
    if line == [] {
      assert s[1..] == rest;
    } else {
      assert s[1..] == line[1..] + [end] + rest;
      PiecesNext(line[1..], rest, end);
      assert line[0] in line && s[0] == line[0] && [line[0]] + line[1..] == line;
      assert ([line[1..]] + Pieces(rest))[1..] == Pieces(rest);
    }
  }

  lemma {:induction false} PiecesOfLine(line: bytes)
    requires Unbroken(line)
    ensures Pieces(line) == [line]
  {
    if line != [] {
      assert line[0] in line && [line[0]] + line[1..] == line;
      PiecesOfLine(line[1..]);
    }
  }

  // ---- The scanner ----

  /** How many tokens come before the first that does not fit, at most `limit`. */
  function Readable(tokens: seq<bytes>, max: nat, limit: nat): (n: nat)
    ensures n <= |tokens| && n <= limit
  {
    if tokens == [] || limit == 0 || |tokens[0]| >= max then 0 else 1 + Readable(tokens[1..], max, limit - 1)
  }

  /** It is the only number with these properties. */
  lemma {:induction false} ReadableIs(tokens: seq<bytes>, max: nat, limit: nat, n: nat)
    requires n <= limit && n <= |tokens| && forall k :: 0 <= k < n ==> |tokens[k]| < max
    requires n < limit && n < |tokens| ==> |tokens[n]| >= max
    ensures Readable(tokens, max, limit) == n
  {
    if n > 0 { ReadableIs(tokens[1..], max, limit - 1, n - 1); }
  }

  /** A pipe: each Read hands out as many bytes as it likes, at least one before the end. */
  class Reader {
    var rest: bytes

    constructor (content: bytes)
      ensures rest == content
    {
      rest := content;
    }

    method Read(room: nat) returns (data: bytes)
      requires room > 0
      modifies this
      ensures old(rest) == data + rest && |data| <= room && (data == [] <==> old(rest) == [])
    {
      var n: int := *;
      if n > room || n > |rest| || n < 1 { n := if |rest| < room then |rest| else room; }
      data := rest[..n];
      rest := rest[n..];
    }
  }

  /** What a split function returns: how far to advance, and a token if there is one. */
  method SplitCROrLF(data: bytes, atEOF: bool) returns (advance: nat, token: Option<bytes>)
    ensures advance <= |data|
    ensures token.None? ==> advance == 0 && Unbroken(data) && (atEOF ==> data == [])
    ensures token.Some? ==> Unbroken(token.value) && advance > 0
    ensures token.Some? && |token.value| < advance ==>
      advance == |token.value| + 1 && data[..advance - 1] == token.value && EndsLine(data[advance - 1])
    ensures token.Some? && |token.value| >= advance ==> atEOF && token.value == data && advance == |data|
  {
    if atEOF && data == [] { return 0, None; }
    for i := 0 to |data|
      invariant Unbroken(data[..i])
    {
      if EndsLine(data[i]) { return i + 1, Some(data[..i]); }
      assert data[..i + 1] == data[..i] + [data[i]];
    }
    assert data[..|data|] == data;
    if atEOF { return |data|, Some(data); }
    return 0, None;
  }

  /** bufio.Scanner with splitCROrLF: `pending` is the part of the buffer not handed out, `max` the largest buffer. */
  class Scanner {
    const reader: Reader
    const max: nat
    var pending: bytes
    var atEOF: bool

    constructor (r: Reader, max: nat)
      ensures reader == r && this.max == max && pending == [] && !atEOF
    {
      reader, this.max, pending, atEOF := r, max, [], false;
    }

    predicate Valid()
      reads this, reader
    {
      max > 0 && |pending| <= max && (atEOF ==> reader.rest == [] && |pending| < max)
    }

    function Left(): bytes
      reads this, reader
    {
      pending + reader.rest
    }

    /** The next token of what is left, unless it does not fit the buffer. */
    method Scan(ghost left: seq<bytes>) returns (token: Option<bytes>, tooLong: bool, ghost rest: seq<bytes>)
      requires Valid() && left == Tokens(Left())
      modifies this, reader
      ensures Valid() && rest == Tokens(Left())
      ensures token.None? && !tooLong <==> left == []
      ensures tooLong <==> left != [] && |left[0]| >= max
      ensures token.Some? ==> left == [token.value] + rest
      ensures tooLong ==> token.None?
    {
      ghost var was := Left();
      while true
        invariant Valid() && Left() == was
        decreases !atEOF, |reader.rest|
      {
        var advance, found := SplitCROrLF(pending, atEOF);
        if found.Some? {
          TokenFound(pending, reader.rest, atEOF, advance, found.value);
          pending := pending[advance..];
          return found, false, Tokens(Left());
        }
        if atEOF {
          assert was == [];
          return None, false, left;
        }
        if |pending| == max {
          FirstIsLong(pending, reader.rest);
          return None, true, left;
        }
        var data := reader.Read(max - |pending|);
        if data == [] { atEOF := true; }
        assert pending + data + reader.rest == pending + (data + reader.rest);
        pending := pending + data;
      }
    }

    /** A parser's loop that takes up to `limit` tokens. */
    method ScanUpTo(limit: nat, ghost all: seq<bytes>) returns (tokens: seq<bytes>, tooLong: bool)
      requires Valid() && all == Tokens(Left())
      modifies this, reader
      ensures tokens <= all && |tokens| <= limit && forall k :: 0 <= k < |tokens| ==> |all[k]| < max
      ensures tooLong ==> |tokens| < limit && |tokens| < |all| && |all[|tokens|]| >= max
      ensures !tooLong ==> |tokens| == limit || |tokens| == |all|
    {
      tokens, tooLong := [], false;
      ghost var left := all;
      while |tokens| < limit
        invariant Valid() && left == Tokens(Left())
        invariant |tokens| <= |all| && left == all[|tokens|..]
        invariant tokens == all[..|tokens|] && |tokens| <= limit
        invariant forall k :: 0 <= k < |tokens| ==> |all[k]| < max
        decreases limit - |tokens|
      {
        var token, long, rest := Scan(left);
        if token.None? { return tokens, long; }
        Advance(all, |tokens|, token.value, rest);
        tokens, left := tokens + [token.value], rest;
      }
    }
  }

  lemma Advance(all: seq<bytes>, n: nat, token: bytes, left: seq<bytes>)
    requires n <= |all| && all[n..] == [token] + left
    ensures n < |all| && all[n] == token && left == all[n + 1..] && all[..n + 1] == all[..n] + [token]
  {
  }

  lemma TokenFound(pending: bytes, rest: bytes, atEOF: bool, advance: nat, token: bytes)
    requires 0 < advance <= |pending| && Unbroken(token) && (atEOF ==> rest == [])
    requires if |token| < advance then
        advance == |token| + 1 && pending[..advance - 1] == token && EndsLine(pending[advance - 1])
      else atEOF && token == pending && advance == |pending|
    ensures Tokens(pending + rest) == [token] + Tokens(pending[advance..] + rest)
  {
    if |token| < advance {
      assert pending + rest == token + [pending[advance - 1]] + (pending[advance..] + rest);
      TokensNext(token, pending[advance..] + rest, pending[advance - 1]);
    } else {
      assert pending + rest == token && pending[advance..] + rest == [];
      PiecesOfLine(token);
    }
  }

  lemma {:induction false} FirstIsLong(start: bytes, rest: bytes)
    requires Unbroken(start)
    ensures |Pieces(start + rest)[0]| >= |start|
    ensures start != [] ==> Tokens(start + rest) != [] && Tokens(start + rest)[0] == Pieces(start + rest)[0]
  {
    if start == [] {
      assert start + rest == rest;
    } else {
      assert start[0] in start && (start + rest)[1..] == start[1..] + rest;
      FirstIsLong(start[1..], rest);
    }
  }

  /** A parser that takes up to `limit` tokens and then breaks off, followed by the drain. Read sizes do not show:
      it sees the tokens of the whole stream up to the first that does not fit, and the stream is read to its end. */
  method DrainAfterScan(r: Reader, max: nat, limit: nat) returns (tokens: seq<bytes>, tooLong: bool)
    requires max > 0
    modifies r
    ensures r.rest == []
    ensures tokens == Tokens(old(r.rest))[..Readable(Tokens(old(r.rest)), max, limit)]
    ensures tooLong <==> |tokens| < limit && |tokens| < |Tokens(old(r.rest))|
  {
    var scanner := new Scanner(r, max);
    assert scanner.Left() == r.rest;
    ghost var all := Tokens(r.rest);
    tokens, tooLong := scanner.ScanUpTo(limit, all);
    ReadableIs(all, max, limit, |tokens|);
    Exhaust(r);
  }

  /** io.Copy to io.Discard. */
  method Exhaust(r: Reader)
    modifies r
    ensures r.rest == []
  {
    while r.rest != []
      decreases |r.rest|
    {
      var _ := r.Read(4096);
    }
  }

  // ---- cdInfoWatcher ----

  const ERROR_MARKERS := ["error in getting information", "unknown"]

  /** bytes.TrimSpace, for ASCII. */
  predicate Blank(b: char) { b == ' ' || '\t' <= b <= '\r' }

  function ToLower(b: char): char { if 'A' <= b <= 'Z' then b + 32 as char else b }

  lemma BlankIff(b: char)
    ensures Blank(b) <==> b < 128 as char && IsSpace(b)
  {
  }

  predicate Contains(s: bytes, part: bytes) { exists i :: 0 <= i <= |s| - |part| && s[i..][..|part|] == part }

  predicate LooksLikeError(value: bytes) { exists marker <- ERROR_MARKERS :: Contains(Lowered(value), marker) }

  /** The prefix and, behind it, a value that is neither blank nor an error. */
  predicate Announces(line: bytes, prefix: bytes) {
    && prefix <= line
    && var value := Trim(line[|prefix|..], Blank);
       value != [] && !LooksLikeError(value)
  }

  // ---- What announces a disc mode ----

  /** The letters of the marker stand at position i, in either case. */
  predicate MarkedAt(s: bytes, marker: bytes, i: nat) {
    i + |marker| <= |s| && forall k :: 0 <= k < |marker| ==> SameLetter(s[i + k], marker[k])
  }

  /** The byte itself, or its capital. */
  predicate SameLetter(b: char, lower: char) { b == lower || ('A' <= b <= 'Z' && b + 32 as char == lower) }

  predicate NoCapitals(s: bytes) { forall c <- s :: !('A' <= c <= 'Z') }

  ghost predicate Marked(s: bytes, marker: bytes) { exists i: nat :: MarkedAt(s, marker, i) }

  function Lowered(s: bytes): bytes { seq(|s|, i requires 0 <= i < |s| => ToLower(s[i])) }

  lemma ContainsIff(s: bytes, marker: bytes)
    requires NoCapitals(marker)
    ensures Contains(Lowered(s), marker) <==> Marked(s, marker)
  {
    if Contains(Lowered(s), marker) { ContainedIsMarked(s, marker); }
    if i: nat :| MarkedAt(s, marker, i) {
      var low := Lowered(s);
      forall k | 0 <= k < |marker| ensures low[i..][k] == marker[k] {
        assert marker[k] in marker && SameLetter(s[i + k], marker[k]);
      }
      assert low[i..][..|marker|] == marker;
    }
  }

  lemma ContainedIsMarked(s: bytes, marker: bytes)
    requires Contains(Lowered(s), marker) && NoCapitals(marker)
    ensures Marked(s, marker)
  {
    var low := Lowered(s);
    var i: int :| 0 <= i <= |low| - |marker| && low[i..][..|marker|] == marker;
    forall k | 0 <= k < |marker| ensures SameLetter(s[i + k], marker[k]) {
      assert low[i..][..|marker|][k] == low[i + k] && marker[k] in marker;
    }
    assert MarkedAt(s, marker, i);
  }

  lemma ErrorIff(value: bytes)
    ensures LooksLikeError(value) <==> Marked(value, "error in getting information") || Marked(value, "unknown")
  {
    ContainsIff(value, ERROR_MARKERS[0]);
    ContainsIff(value, ERROR_MARKERS[1]);
    assert ERROR_MARKERS == ["error in getting information", "unknown"];
  }

  /** Trimming cuts blanks off both ends, and nothing else. */
  lemma {:induction false} TrimLeftCuts(s: bytes) returns (n: nat)
    ensures n <= |s| && TrimLeft(s, Blank) == s[n..] && forall i :: 0 <= i < n ==> Blank(s[i])
  {
    n := 0;
    if s != [] && Blank(s[0]) {
      var m := TrimLeftCuts(s[1..]);
      n := m + 1;
      forall i | 0 <= i < n ensures Blank(s[i]) { if i > 0 { assert s[i] == s[1..][i - 1]; } }
    }
  }

  lemma {:induction false} TrimRightCuts(s: bytes) returns (n: nat)
    ensures n <= |s| && TrimRight(s, Blank) == s[..n] && forall i :: n <= i < |s| ==> Blank(s[i])
  {
    n := |s|;
    if s != [] && Blank(s[|s| - 1]) {
      n := TrimRightCuts(s[..|s| - 1]);
      assert s[..|s| - 1][..n] == s[..n];
      forall i | n <= i < |s| ensures Blank(s[i]) { if i < |s| - 1 { assert s[i] == s[..|s| - 1][i]; } }
    } else {
      assert s[..n] == s;
    }
  }

  lemma TrimCuts(s: bytes) returns (a: nat, b: nat)
    ensures a <= b <= |s| && Trim(s, Blank) == s[a..b]
    ensures forall i :: 0 <= i < a || b <= i < |s| ==> Blank(s[i])
  {
    a := TrimLeftCuts(s);
    var t := s[a..];
    var n := TrimRightCuts(t);
    b := a + n;
    assert t[..n] == s[a..b];
    forall i | b <= i < |s| ensures Blank(s[i]) { assert s[i] == t[i - a]; }
  }

  /** A marker that begins and ends with a letter is in the trimmed text exactly if it is in the text. */
  lemma MarkedTrimmed(s: bytes, marker: bytes)
    requires marker != [] && 'a' <= marker[0] <= 'z' && 'a' <= marker[|marker| - 1] <= 'z'
    ensures Marked(Trim(s, Blank), marker) <==> Marked(s, marker)
  {
    var a, b := TrimCuts(s);
    var t := s[a..b];
    if i: nat :| MarkedAt(t, marker, i) { assert MarkedAt(s, marker, a + i); }
    if i: nat :| MarkedAt(s, marker, i) {
      assert SameLetter(s[i + 0], marker[0]) && SameLetter(s[i + (|marker| - 1)], marker[|marker| - 1]);
      assert a <= i && i + |marker| <= b;
      assert MarkedAt(t, marker, i - a);
    }
  }

  /** A line announces a disc mode exactly if it starts with the prefix, has something but blanks behind it, and there
      neither of the two messages, in capitals or not. */
  lemma AnnouncesIff(line: bytes, prefix: bytes)
    ensures Announces(line, prefix) <==>
      && prefix <= line
      && (exists i :: |prefix| <= i < |line| && !Blank(line[i]))
      && !Marked(line[|prefix|..], "error in getting information") && !Marked(line[|prefix|..], "unknown")
  {
    if prefix <= line {
      var rest := line[|prefix|..];
      var a, b := TrimCuts(rest);
      TrimMeaning(rest, Blank);
      MarkedTrimmed(rest, "error in getting information");
      MarkedTrimmed(rest, "unknown");
      ErrorIff(Trim(rest, Blank));
      if Trim(rest, Blank) != [] { assert !Blank(rest[a]) && rest[a] == line[|prefix| + a]; }
      if i :| |prefix| <= i < |line| && !Blank(line[i]) { assert rest[i - |prefix|] == line[i]; }
    }
  }

  /** s[i..j] is a line of the output whose newline has been written. */
  predicate CompleteLine(s: bytes, i: nat, j: nat) {
    && i <= j < |s| && s[j] == '\n' && '\n' !in s[i..j]
    && (i == 0 || s[i - 1] == '\n')
  }

  ghost predicate HasAnnouncement(s: bytes, prefix: bytes) {
    exists i: nat, j: nat :: CompleteLine(s, i, j) && Announces(s[i..j], prefix)
  }

  /** line is what follows the last newline. */
  ghost predicate Unfinished(s: bytes, line: bytes) {
    && |line| <= |s| && s[|s| - |line|..] == line && '\n' !in line
    && (|line| == |s| || s[|s| - |line| - 1] == '\n')
  }

  lemma NextByte(s: bytes, line: bytes, b: char, prefix: bytes)
    requires Unfinished(s, line)
    ensures Unfinished(s + [b], if b == '\n' then [] else line + [b])
    ensures HasAnnouncement(s + [b], prefix) <==> HasAnnouncement(s, prefix) || (b == '\n' && Announces(line, prefix))
  {
    if HasAnnouncement(s, prefix) { AnnouncementStays(s, [b], prefix); }
    if HasAnnouncement(s + [b], prefix) { AnnouncementIsOldOrLast(s, line, b, prefix); }
    if b == '\n' && Announces(line, prefix) { LineAnnounces(s, line, prefix); }
  }

  lemma AnnouncementIsOldOrLast(s: bytes, line: bytes, b: char, prefix: bytes)
    requires Unfinished(s, line) && HasAnnouncement(s + [b], prefix)
    ensures HasAnnouncement(s, prefix) || (b == '\n' && Announces(line, prefix))
  {
    var i: nat, j: nat :| CompleteLine(s + [b], i, j) && Announces((s + [b])[i..j], prefix);
    assert (s + [b])[i..j] == s[i..j];
    if j < |s| {
      assert CompleteLine(s, i, j);
    } else {
      assert s[i..j] == s[i..];
      LastLine(s, line, i);
    }
  }

  lemma LineAnnounces(s: bytes, line: bytes, prefix: bytes)
    requires Unfinished(s, line) && Announces(line, prefix)
    ensures HasAnnouncement(s + ['\n'], prefix)
  {
    var s' := s + ['\n'];
    assert s'[|s| - |line|..|s|] == line;
    assert CompleteLine(s', |s| - |line|, |s|);
  }

  /** Later output cannot take an announcement back. */
  lemma AnnouncementStays(s: bytes, more: bytes, prefix: bytes)
    requires HasAnnouncement(s, prefix)
    ensures HasAnnouncement(s + more, prefix)
  {
    var i: nat, j: nat :| CompleteLine(s, i, j) && Announces(s[i..j], prefix);
    assert (s + more)[i..j] == s[i..j] && CompleteLine(s + more, i, j);
  }

  lemma LastLine(s: bytes, line: bytes, i: nat)
    requires Unfinished(s, line) && i <= |s| && '\n' !in s[i..] && (i == 0 || s[i - 1] == '\n')
    ensures s[i..] == line
  {
    var k := |s| - |line|;
    assert forall m :: 0 <= m < |s[i..]| ==> s[i..][m] == s[i + m];
    assert forall m :: i <= m < |s| ==> s[i..][m - i] == s[m];
    assert forall m :: k <= m < |s| ==> line[m - k] == s[m];
  }

  lemma AppendNext(s: bytes, p: bytes, k: nat)
    requires k < |p|
    ensures s + p[..k + 1] == s + p[..k] + [p[k]]
  {
  }

  class CdInfoWatcher {
    const prefix: bytes
    var buf: bytes
    var line: bytes
    var fired: bool

    /** It has fired exactly when a complete line of the output so far announces a disc mode. */
    ghost predicate Valid()
      reads this
    {
      Unfinished(buf, line) && (fired <==> HasAnnouncement(buf, prefix))
    }

    constructor (prefix: bytes)
      ensures Valid() && this.prefix == prefix && buf == []
    {
      this.prefix, buf, line, fired := prefix, [], [], false;
    }

    method Write(p: bytes)
      requires Valid()
      modifies this
      ensures Valid() && buf == old(buf) + p
    {
      buf := buf + p;
      ghost var seen := old(buf);
      assert seen + p[..0] == seen;
      for k := 0 to |p|
        invariant buf == old(buf) + p && seen == old(buf) + p[..k]
        invariant Unfinished(seen, line) && (fired <==> HasAnnouncement(seen, prefix))
      {
        NextByte(seen, line, p[k], prefix);
        AppendNext(old(buf), p, k);
        seen := seen + [p[k]];
        if p[k] == '\n' {
          if Announces(line, prefix) { fired := true; }
          line := [];
        } else {
          line := line + [p[k]];
        }
      }
      assert p[..|p|] == p;
    }
  }

  lemma FlattenStep(buf: bytes, writes: seq<bytes>, k: nat)
    requires k < |writes|
    ensures buf + Flatten(writes[k..]) == buf + writes[k] + Flatten(writes[k + 1..])
  {
    assert writes[k..][1..] == writes[k + 1..];
  }

  /** However the output is divided into writes, the watcher fires exactly when the whole holds such a line. */
  method Watch(prefix: bytes, writes: seq<bytes>) returns (fired: bool)
    ensures fired <==> HasAnnouncement(Flatten(writes), prefix)
  {
    var w := new CdInfoWatcher(prefix);
    for k := 0 to |writes|
      invariant w.Valid() && w.prefix == prefix && fresh(w)
      invariant w.buf + Flatten(writes[k..]) == Flatten(writes)
    {
      FlattenStep(w.buf, writes, k);
      w.Write(writes[k]);
    }
    assert w.buf == Flatten(writes);
    fired := w.fired;
  }
}
