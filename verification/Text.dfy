/** Trimming, splitting and joining, as Go's strings and bytes packages do them. */
module Text {

  /** unicode.IsSpace. */
  predicate IsSpace(c: char) {
    var code := c as int;
    || 9 <= code <= 13 || code == 32 || code == 0x85 || code == 0xA0 || code == 0x1680
    || 0x2000 <= code <= 0x200A || code == 0x2028 || code == 0x2029 || code == 0x202F || code == 0x205F
    || code == 0x3000
  }

  /** In ASCII: tab, newline, vertical tab, form feed, carriage return and space. */
  lemma AsciiSpaces(c: char)
    requires c < 128 as char
    ensures IsSpace(c) <==> c in {'\t', '\n', 11 as char, 12 as char, '\r', ' '}
  {
  }

  function TrimLeft(s: string, space: char -> bool): string {
    if s != "" && space(s[0]) then TrimLeft(s[1..], space) else s
  }

  function TrimRight(s: string, space: char -> bool): string {
    if s != "" && space(s[|s| - 1]) then TrimRight(s[..|s| - 1], space) else s
  }

  function Trim(s: string, space: char -> bool): string { TrimRight(TrimLeft(s, space), space) }

  predicate Trimmed(s: string, space: char -> bool) { s == "" || (!space(s[0]) && !space(s[|s| - 1])) }

  lemma {:induction false} TrimLeftMeaning(s: string, space: char -> bool)
    ensures var t := TrimLeft(s, space); (t == "" || !space(t[0])) && forall c <- t :: c in s
  {
    if s != "" && space(s[0]) { TrimLeftMeaning(s[1..], space); }
  }

  lemma {:induction false} TrimRightMeaning(s: string, space: char -> bool)
    ensures TrimRight(s, space) <= s
    ensures var t := TrimRight(s, space); t == "" || !space(t[|t| - 1])
  {
    if s != "" && space(s[|s| - 1]) { TrimRightMeaning(s[..|s| - 1], space); }
  }

  /** What is left neither begins nor ends with a space and holds only characters of the original; a text that is
      already like that stays as it is. */
  lemma TrimMeaning(s: string, space: char -> bool)
    ensures Trimmed(Trim(s, space), space) && forall c <- Trim(s, space) :: c in s
    ensures Trimmed(s, space) ==> Trim(s, space) == s
  {
    TrimLeftMeaning(s, space);
    TrimRightMeaning(TrimLeft(s, space), space);
    assert forall c <- Trim(s, space) :: c in TrimLeft(s, space);
  }

  lemma Cut(a: string, b: string)
    ensures (a + b)[..|a|] == a && (a + b)[|a|..] == b
  {
  }

  /** strings.Split on one character. */
  function Split(s: string, sep: char): (parts: seq<string>)
    ensures parts != []
  {
    if s == "" then [""]
    else
      var rest := Split(s[1..], sep);
      if s[0] == sep then [""] + rest else [[s[0]] + rest[0]] + rest[1..]
  }

  function Join(parts: seq<string>, sep: char): string {
    if parts == [] then "" else if |parts| == 1 then parts[0] else parts[0] + [sep] + Join(parts[1..], sep)
  }

  function Occurrences(s: string, c: char): nat {
    if s == "" then 0 else (if s[0] == c then 1 else 0) + Occurrences(s[1..], c)
  }

  lemma {:induction false} SplitParts(s: string, sep: char)
    ensures |Split(s, sep)| == Occurrences(s, sep) + 1
    ensures forall p <- Split(s, sep) :: sep !in p && forall c <- p :: c in s
  {
    if s != "" {
      SplitParts(s[1..], sep);
      assert Split(s[1..], sep)[0] in Split(s[1..], sep);
    }
  }

  lemma {:induction false} SplitOne(s: string, sep: char)
    requires sep !in s
    ensures Split(s, sep) == [s]
  {
    if s != "" {
      SplitOne(s[1..], sep);
      assert [s[0]] + s[1..] == s;
    }
  }

  lemma {:induction false} SplitFirst(part: string, rest: string, sep: char)
    requires sep !in part
    ensures Split(part + [sep] + rest, sep) == [part] + Split(rest, sep)
  {
    var s := part + [sep] + rest;
    if part == "" {
      assert s[1..] == rest;
    } else {
      assert s[1..] == part[1..] + [sep] + rest && [part[0]] + part[1..] == part;
      SplitFirst(part[1..], rest, sep);
      assert ([part[1..]] + Split(rest, sep))[1..] == Split(rest, sep);
    }
  }

  /** The parts when one more character stands in front. */
  function Prepended(c: char, parts: seq<string>, sep: char): seq<string>
    requires parts != []
  {
    if c == sep then [""] + parts else [[c] + parts[0]] + parts[1..]
  }

  lemma PrependedConcat(c: char, parts: seq<string>, more: seq<string>, sep: char)
    requires parts != []
    ensures Prepended(c, parts + more, sep) == Prepended(c, parts, sep) + more
  {
    assert (parts + more)[0] == parts[0] && (parts + more)[1..] == parts[1..] + more;
  }

  lemma {:induction false} SplitConcat(a: string, b: string, sep: char)
    ensures Split(a + [sep] + b, sep) == Split(a, sep) + Split(b, sep)
  {
    var s := a + [sep] + b;
    if a == "" {
      assert s[1..] == b;
    } else {
      SplitConcat(a[1..], b, sep);
      PrependedConcat(a[0], Split(a[1..], sep), Split(b, sep), sep);
      assert s[0] == a[0] && s[1..] == a[1..] + [sep] + b;
      assert Split(s, sep) == Prepended(s[0], Split(s[1..], sep), sep);
      assert Split(a, sep) == Prepended(a[0], Split(a[1..], sep), sep);
    }
  }

  lemma {:induction false} SplitJoin(parts: seq<string>, sep: char)
    requires parts != [] && forall p <- parts :: sep !in p
    ensures Split(Join(parts, sep), sep) == parts
  {
    if |parts| == 1 {
      SplitOne(parts[0], sep);
    } else {
      SplitJoin(parts[1..], sep);
      SplitFirst(parts[0], Join(parts[1..], sep), sep);
    }
  }

  lemma {:induction false} JoinSplit(s: string, sep: char)
    ensures Join(Split(s, sep), sep) == s
  {
    if s != "" {
      JoinSplit(s[1..], sep);
      var rest := Split(s[1..], sep);
      assert s == [s[0]] + s[1..];
      if s[0] == sep {
        assert ([""] + rest)[1..] == rest;
      } else {
        assert ([[s[0]] + rest[0]] + rest[1..])[1..] == rest[1..];
      }
    }
  }

  lemma {:induction false} OccurrencesConcat(a: string, b: string, c: char)
    ensures Occurrences(a + b, c) == Occurrences(a, c) + Occurrences(b, c)
  {
    if a == "" {
      assert a + b == b;
    } else {
      assert (a + b)[1..] == a[1..] + b;
      OccurrencesConcat(a[1..], b, c);
    }
  }

  lemma {:induction false} NoOccurrence(s: string, c: char)
    ensures c !in s <==> Occurrences(s, c) == 0
  {
    if s != "" {
      NoOccurrence(s[1..], c);
      assert s == [s[0]] + s[1..];
    }
  }
}
