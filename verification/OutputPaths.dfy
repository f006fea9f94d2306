/** Library paths rendered from a profile's template (daemon/pipelines/output.go): whatever the template and the
    field values, the result stays below the library root. */
module OutputPaths {
  import opened Text

  /** A template, its field values filled in. */
  datatype Piece = Literal(text: string) | TextField(value: string) | NumberField(number: int, width: nat)

  predicate Control(c: char) { c < ' ' && c != '\t' }

  predicate Dropped(part: string) { part == "" || part == "." || part == ".." }

  function Kept(parts: seq<string>): seq<string> {
    if parts == [] then []
    else
      var part := Trim(parts[|parts| - 1], IsSpace);
      Kept(parts[..|parts| - 1]) + if Dropped(part) then [] else [part]
  }

  lemma KeptNext(parts: seq<string>, i: nat)
    requires i < |parts|
    ensures var part := Trim(parts[i], IsSpace);
      Kept(parts[..i + 1]) == Kept(parts[..i]) + if Dropped(part) then [] else [part]
  {
    assert parts[..i + 1][..i] == parts[..i];
  }

  function StripControlChars(s: string): string {
    if s == "" then ""
    else StripControlChars(s[..|s| - 1]) + if Control(s[|s| - 1]) then "" else [s[|s| - 1]]
  }

  function FieldValue(s: string): string { Join(Kept(Split(s, '/')), '_') }

  function RelPath(p: string): string { Join(Kept(Split(StripControlChars(p), '/')), '/') }

  // ---- The loops ----

  method SanitizeFieldValue(s: string) returns (r: string)
    ensures r == FieldValue(s)
  {
    var parts := Split(s, '/');
    var out: seq<string> := [];
    for i := 0 to |parts|
      invariant out == Kept(parts[..i])
    {
      KeptNext(parts, i);
      var p := Trim(parts[i], IsSpace);
      if p == "" || p == "." || p == ".." { continue; }
      out := out + [p];
    }
    assert parts[..|parts|] == parts;
    r := Join(out, '_');
  }

  method StripControls(s: string) returns (r: string)
    ensures r == StripControlChars(s)
  {
    r := "";
    for i := 0 to |s|
      invariant r == StripControlChars(s[..i])
    {
      assert s[..i + 1][..i] == s[..i];
      if s[i] >= ' ' || s[i] == '\t' { r := r + [s[i]]; }
    }
    assert s[..|s|] == s;
  }

  function WithoutNul(s: string): string {
    if s == "" then "" else (if s[0] == '\0' then "" else [s[0]]) + WithoutNul(s[1..])
  }

  method SanitizeRelPath(path: string) returns (r: string)
    ensures r == RelPath(path)
  {
    var p := StripControls(path);
    var parts := Split(p, '/');
    var out: seq<string> := [];
    for i := 0 to |parts|
      invariant out == Kept(parts[..i])
    {
      KeptNext(parts, i);
      var seg := Trim(parts[i], IsSpace);
      if seg == "" || seg == "." || seg == ".." { continue; }
      NoNulLeft(path, i);
      seg := WithoutNul(seg);
      out := out + [seg];
    }
    assert parts[..|parts|] == parts;
    r := Join(out, '/');
  }

  /** By then there is no NUL to remove. */
  lemma NoNulLeft(path: string, i: nat)
    requires i < |Split(StripControlChars(path), '/')|
    ensures var seg := Trim(Split(StripControlChars(path), '/')[i], IsSpace); WithoutNul(seg) == seg
  {
    var part := Split(StripControlChars(path), '/')[i];
    StripMeaning(path);
    SplitParts(StripControlChars(path), '/');
    assert part in Split(StripControlChars(path), '/');
    TrimMeaning(part, IsSpace);
    NulFree(Trim(part, IsSpace));
  }

  lemma {:induction false} NulFree(s: string)
    requires '\0' !in s
    ensures WithoutNul(s) == s
  {
    if s != "" {
      NulFree(s[1..]);
      assert [s[0]] + s[1..] == s;
    }
  }

  // ---- RenderOutputPath ----

  function Decimal(n: int): string
    decreases if n < 0 then 1 - n else n
  {
    if n < 0 then "-" + Decimal(-n)
    else if n < 10 then ['0' + n as char]
    else Decimal(n / 10) + ['0' + (n % 10) as char]
  }

  function LeadingZeros(s: string, width: nat): string
    decreases width - |s|
  {
    if |s| >= width then s else LeadingZeros("0" + s, width)
  }

  /** fmt's %0<width>d; a plain number has width 0. */
  function Padded(n: int, width: nat): string {
    if n < 0 then "-" + LeadingZeros(Decimal(-n), if width > 0 then width - 1 else 0)
    else LeadingZeros(Decimal(n), width)
  }

  function Expanded(piece: Piece): string {
    match piece
    case Literal(text) => text
    case TextField(value) => FieldValue(value)
    case NumberField(n, width) => Padded(n, width)
  }

  function Rendered(template: seq<Piece>): string {
    if template == [] then "" else Rendered(template[..|template| - 1]) + Expanded(template[|template| - 1])
  }

  function LiteralSlashes(template: seq<Piece>): nat {
    if template == [] then 0
    else
      var last := template[|template| - 1];
      LiteralSlashes(template[..|template| - 1]) + if last.Literal? then Occurrences(last.text, '/') else 0
  }

  method RenderOutputPath(template: seq<Piece>) returns (r: string)
    ensures r == RelPath(Rendered(template))
  {
    var buf := "";
    for i := 0 to |template|
      invariant buf == Rendered(template[..i])
    {
      assert template[..i + 1][..i] == template[..i];
      match template[i]
      case Literal(text) => buf := buf + text;
      case TextField(value) =>
        var v := SanitizeFieldValue(value);
        buf := buf + v;
      case NumberField(n, width) => buf := buf + Padded(n, width);
    }
    assert template[..|template|] == template;
    r := SanitizeRelPath(buf);
  }

  // ---- What sanitizing guarantees ----

  /** A component that names an entry of its directory. */
  predicate Clean(part: string) { !Dropped(part) && '/' !in part && Trimmed(part, IsSpace) }

  lemma {:induction false} KeptMeaning(parts: seq<string>)
    requires forall p <- parts :: '/' !in p
    ensures |Kept(parts)| <= |parts|
    ensures forall k <- Kept(parts) :: Clean(k)
  {
    if parts != [] {
      var n := |parts| - 1;
      KeptMeaning(parts[..n]);
      TrimMeaning(parts[n], IsSpace);
      assert parts[n] in parts;
    }
  }

  lemma {:induction false} KeptFixed(parts: seq<string>)
    requires forall p <- parts :: Clean(p)
    ensures Kept(parts) == parts
  {
    if parts != [] {
      var n := |parts| - 1;
      KeptFixed(parts[..n]);
      TrimMeaning(parts[n], IsSpace);
      assert parts[n] in parts && parts == parts[..n] + [parts[n]];
    }
  }

  lemma {:induction false} StripMeaning(s: string)
    ensures forall c <- StripControlChars(s) :: c in s && !Control(c)
    ensures Occurrences(StripControlChars(s), '/') == Occurrences(s, '/')
  {
    if s != "" {
      var n := |s| - 1;
      StripMeaning(s[..n]);
      assert s == s[..n] + [s[n]];
      OccurrencesConcat(s[..n], [s[n]], '/');
      OccurrencesConcat(StripControlChars(s[..n]), if Control(s[n]) then "" else [s[n]], '/');
    }
  }

  lemma {:induction false} StripFixed(s: string)
    requires forall c <- s :: !Control(c)
    ensures StripControlChars(s) == s
  {
    if s != "" {
      var n := |s| - 1;
      StripFixed(s[..n]);
      assert s[n] in s && s == s[..n] + [s[n]];
    }
  }

  /** The components of a relative path; the empty path has none. */
  function Components(p: string): seq<string> { if p == "" then [] else Split(p, '/') }

  lemma {:induction false} ComponentsOfJoin(parts: seq<string>)
    requires forall p <- parts :: Clean(p)
    ensures Components(Join(parts, '/')) == parts
  {
    if parts != [] {
      SplitJoin(parts, '/');
      assert parts[0] in parts;
    }
  }

  /** The result is relative, and every component is a plain name: not empty, not ".", not "..". */
  lemma PathIsClean(p: string)
    ensures forall part <- Components(RelPath(p)) :: Clean(part)
    ensures RelPath(p) == "" || RelPath(p)[0] != '/'
    ensures |Components(RelPath(p))| <= Occurrences(p, '/') + 1
  {
    var parts := Split(StripControlChars(p), '/');
    SplitParts(StripControlChars(p), '/');
    StripMeaning(p);
    KeptMeaning(parts);
    ComponentsOfJoin(Kept(parts));
    if RelPath(p) != "" { assert Components(RelPath(p))[0] in Components(RelPath(p)); }
  }

  /** Following a path from a directory, given by the names on the way to it from the root. */
  function Follow(dir: seq<string>, path: seq<string>): seq<string>
    decreases path
  {
    if path == [] then dir
    else if path[0] == "" || path[0] == "." then Follow(dir, path[1..])
    else if path[0] == ".." then Follow(if dir == [] then [] else dir[..|dir| - 1], path[1..])
    else Follow(dir + [path[0]], path[1..])
  }

  lemma {:induction false} FollowClean(dir: seq<string>, path: seq<string>)
    requires forall part <- path :: Clean(part)
    ensures Follow(dir, path) == dir + path
    decreases path
  {
    if path != [] {
      assert path[0] in path && [path[0]] + path[1..] == path;
      FollowClean(dir + [path[0]], path[1..]);
    }
  }

  /** Whatever the template and the values, the file lands below the library root, and no deeper than the template's
      own slashes say: field values never add a component. */
  lemma RenderedStaysInside(root: seq<string>, template: seq<Piece>)
    ensures root <= Follow(root, Components(RelPath(Rendered(template))))
    ensures |Follow(root, Components(RelPath(Rendered(template))))| <= |root| + LiteralSlashes(template) + 1
  {
    PathIsClean(Rendered(template));
    FollowClean(root, Components(RelPath(Rendered(template))));
    RenderedSlashes(template);
  }

  lemma {:induction false} RenderedSlashes(template: seq<Piece>)
    ensures Occurrences(Rendered(template), '/') == LiteralSlashes(template)
  {
    if template != [] {
      var n := |template| - 1;
      RenderedSlashes(template[..n]);
      OccurrencesConcat(Rendered(template[..n]), Expanded(template[n]), '/');
      match template[n]
      case Literal(_) =>
      case TextField(value) => FieldHasNoSlash(value); NoOccurrence(FieldValue(value), '/');
      case NumberField(i, width) => PaddedHasNoSlash(i, width); NoOccurrence(Padded(i, width), '/');
    }
  }

  lemma {:induction false} DecimalHasNoSlash(n: int)
    ensures '/' !in Decimal(n)
    decreases if n < 0 then 1 - n else n
  {
    if n < 0 { DecimalHasNoSlash(-n); } else if n >= 10 { DecimalHasNoSlash(n / 10); }
  }

  lemma {:induction false} LeadingZerosHasNoSlash(s: string, width: nat)
    requires '/' !in s
    ensures '/' !in LeadingZeros(s, width)
    decreases width - |s|
  {
    if |s| < width { LeadingZerosHasNoSlash("0" + s, width); }
  }

  lemma PaddedHasNoSlash(n: int, width: nat)
    ensures '/' !in Padded(n, width)
  {
    if n < 0 {
      DecimalHasNoSlash(-n);
      LeadingZerosHasNoSlash(Decimal(-n), if width > 0 then width - 1 else 0);
    } else {
      DecimalHasNoSlash(n);
      LeadingZerosHasNoSlash(Decimal(n), width);
    }
  }

  lemma {:induction false} JoinHasNoSlash(parts: seq<string>)
    requires forall p <- parts :: '/' !in p
    ensures '/' !in Join(parts, '_')
  {
    if |parts| > 1 { JoinHasNoSlash(parts[1..]); }
    if parts != [] { assert parts[0] in parts; }
  }

  lemma FieldHasNoSlash(s: string)
    ensures '/' !in FieldValue(s)
  {
    SplitParts(s, '/');
    KeptMeaning(Split(s, '/'));
    JoinHasNoSlash(Kept(Split(s, '/')));
  }

  // ---- Sanitizing twice ----

  predicate Over(s: string, ok: char -> bool) { forall c <- s :: ok(c) }

  lemma {:induction false} KeptOver(parts: seq<string>, ok: char -> bool)
    requires forall p <- parts :: Over(p, ok)
    ensures forall k <- Kept(parts) :: Over(k, ok)
  {
    if parts != [] {
      var n := |parts| - 1;
      KeptOver(parts[..n], ok);
      TrimMeaning(parts[n], IsSpace);
      assert parts[n] in parts;
    }
  }

  lemma {:induction false} JoinOver(parts: seq<string>, ok: char -> bool, sep: char)
    requires ok(sep) && forall p <- parts :: Over(p, ok)
    ensures Over(Join(parts, sep), ok)
  {
    if |parts| > 1 { JoinOver(parts[1..], ok, sep); }
    if parts != [] { assert parts[0] in parts; }
  }

  lemma RelPathIdempotent(p: string)
    ensures RelPath(RelPath(p)) == RelPath(p)
  {
    var s := StripControlChars(p);
    var parts := Split(s, '/');
    SplitParts(s, '/');
    StripMeaning(p);
    KeptMeaning(parts);
    var kept := Kept(parts);
    var plain := c => !Control(c);
    KeptOver(parts, plain);
    JoinOver(kept, plain, '/');
    StripFixed(RelPath(p));
    KeptFixed(kept);
    if kept != [] { SplitJoin(kept, '/'); } else { assert Kept(Split("", '/')) == [] by { KeptOfNothing(); } }
  }

  lemma KeptOfNothing()
    ensures Kept(Split("", '/')) == []
  {
    assert Split("", '/') == [""] && [""][..0] == [];
    TrimMeaning("", IsSpace);
  }

  lemma {:induction false} JoinTrimmed(parts: seq<string>)
    requires parts != [] && forall p <- parts :: Clean(p)
    ensures var s := Join(parts, '_'); Trimmed(s, IsSpace) && !Dropped(s)
  {
    assert parts[0] in parts;
    if |parts| > 1 {
      JoinTrimmed(parts[1..]);
      var s, rest := Join(parts, '_'), Join(parts[1..], '_');
      assert s[0] == parts[0][0] && s[|s| - 1] == rest[|rest| - 1] && '_' == s[|parts[0]|];
    }
  }

  lemma FieldValueIdempotent(s: string)
    ensures FieldValue(FieldValue(s)) == FieldValue(s)
  {
    SplitParts(s, '/');
    KeptMeaning(Split(s, '/'));
    FieldHasNoSlash(s);
    SplitOne(FieldValue(s), '/');
    if Kept(Split(s, '/')) == [] {
      KeptOfNothing();
    } else {
      JoinTrimmed(Kept(Split(s, '/')));
      KeptFixed([FieldValue(s)]);
    }
  }

  // ---- Nothing more is changed than that ----

  /** A path comes back as it was exactly when it holds no control character and only clean components. */
  lemma RelPathFixedIff(p: string)
    ensures RelPath(p) == p <==> Over(p, c => !Control(c)) && forall part <- Components(p) :: Clean(part)
  {
    var plain := c => !Control(c);
    var parts := Split(StripControlChars(p), '/');
    if RelPath(p) == p {
      PathIsClean(p);
      StripMeaning(p);
      SplitParts(StripControlChars(p), '/');
      KeptOver(parts, plain);
      JoinOver(Kept(parts), plain, '/');
      assert Over(p, plain);
    }
    if Over(p, plain) && forall part <- Components(p) :: Clean(part) {
      StripFixed(p);
      if p == "" {
        KeptOfNothing();
      } else {
        KeptFixed(parts);
        JoinSplit(p, '/');
      }
    }
    assert Over(p, plain) <==> Over(p, c => !Control(c));
  }

  /** A field value comes back as it was exactly when it is empty or one clean component. */
  lemma FieldValueFixedIff(s: string)
    ensures FieldValue(s) == s <==> s == "" || Clean(s)
  {
    SplitParts(s, '/');
    KeptMeaning(Split(s, '/'));
    if FieldValue(s) == s && s != "" {
      FieldHasNoSlash(s);
      JoinTrimmed(Kept(Split(s, '/')));
    }
    if s == "" { KeptOfNothing(); }
    if Clean(s) {
      SplitOne(s, '/');
      KeptFixed([s]);
    }
  }

  // ---- Nothing is lost that could be kept ----

  /** The kept parts are those that trimming leaves with a proper name, in their order. */
  lemma {:induction false} KeptConcat(a: seq<string>, b: seq<string>)
    ensures Kept(a + b) == Kept(a) + Kept(b)
  {
    if b == [] {
      assert a + b == a;
    } else {
      var n := |b| - 1;
      assert (a + b)[..|a + b| - 1] == a + b[..n];
      KeptConcat(a, b[..n]);
    }
  }

  lemma KeptHolds(parts: seq<string>, i: nat)
    requires i < |parts| && Trim(parts[i], IsSpace) !in {"", ".", ".."}
    ensures Trim(parts[i], IsSpace) in Kept(parts)
  {
    var part := [parts[i]];
    assert parts == parts[..i] + part + parts[i + 1..];
    KeptConcat(parts[..i] + part, parts[i + 1..]);
    KeptConcat(parts[..i], part);
    assert part[..0] == [];
    assert Kept(part) == [Trim(parts[i], IsSpace)];
  }

  lemma {:induction false} JoinHolds(parts: seq<string>, k: nat, sep: char) returns (before: string, after: string)
    requires k < |parts|
    ensures Join(parts, sep) == before + parts[k] + after
  {
    if |parts| == 1 {
      before, after := "", "";
    } else if k == 0 {
      before, after := "", [sep] + Join(parts[1..], sep);
    } else {
      before, after := JoinHolds(parts[1..], k - 1, sep);
      var rest := Join(parts[1..], sep);
      assert parts[0] + [sep] + rest == parts[0] + [sep] + before + parts[k] + after;
      before := parts[0] + [sep] + before;
    }
  }

  /** Every part of a field value between slashes that has a name of its own is in the result: "AC/DC" keeps both. */
  lemma FieldKeepsParts(s: string, i: nat) returns (before: string, after: string)
    requires i < |Split(s, '/')| && Trim(Split(s, '/')[i], IsSpace) !in {"", ".", ".."}
    ensures FieldValue(s) == before + Trim(Split(s, '/')[i], IsSpace) + after
  {
    KeptHolds(Split(s, '/'), i);
    var k :| 0 <= k < |Kept(Split(s, '/'))| && Kept(Split(s, '/'))[k] == Trim(Split(s, '/')[i], IsSpace);
    before, after := JoinHolds(Kept(Split(s, '/')), k, '_');
  }

  /** And every such part of a path is a component of the result. */
  lemma PathKeepsParts(p: string, i: nat)
    requires i < |Split(StripControlChars(p), '/')|
    requires Trim(Split(StripControlChars(p), '/')[i], IsSpace) !in {"", ".", ".."}
    ensures Trim(Split(StripControlChars(p), '/')[i], IsSpace) in Components(RelPath(p))
  {
    var parts := Split(StripControlChars(p), '/');
    KeptHolds(parts, i);
    SplitParts(StripControlChars(p), '/');
    KeptMeaning(parts);
    ComponentsOfJoin(Kept(parts));
  }
}
