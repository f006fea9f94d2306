/** Timestamps as the store writes them: RFC 3339 text in UTC with up to nine fraction digits, trailing zeros trimmed,
    compared by SQLite byte by byte (daemon/state/store.go, `timestamp` and `parseTime`). */
module Timestamps {
  import opened Options

  // ---- Calendar ----

  predicate Leap(year: nat) { year % 4 == 0 && (year % 100 != 0 || year % 400 == 0) }

  function DaysIn(year: nat, month: nat): nat {
    if month == 2 then (if Leap(year) then 29 else 28)
    else if month in {4, 6, 9, 11} then 30 else 31
  }

  datatype Date = Date(year: nat, month: nat, day: nat)
  {
    predicate Valid() { year <= 9999 && 1 <= month <= 12 && 1 <= day <= DaysIn(year, month) }

    predicate Before(other: Date) {
      || year < other.year
      || (year == other.year && (month < other.month || (month == other.month && day < other.day)))
    }

    /** Days since the first of January of year 0. */
    function Number(): nat
      requires Valid()
    {
      YearStart(year) + MonthStart(year, month) + (day - 1)
    }
  }

  function YearStart(year: nat): nat {
    if year == 0 then 0 else YearStart(year - 1) + if Leap(year - 1) then 366 else 365
  }

  function MonthStart(year: nat, month: nat): nat
    requires 1 <= month <= 13
  {
    if month == 1 then 0 else MonthStart(year, month - 1) + DaysIn(year, month - 1)
  }

  datatype Time = Time(date: Date, hour: nat, minute: nat, second: nat, nanos: nat)
  {
    predicate Valid() { date.Valid() && hour < 24 && minute < 60 && second < 60 && nanos < 1_000_000_000 }

    /** Whole seconds since the first of January of year 0. */
    function Seconds(): nat
      requires Valid()
    {
      ((date.Number() * 24 + hour) * 60 + minute) * 60 + second
    }

    function Instant(): nat
      requires Valid()
    {
      Seconds() * 1_000_000_000 + nanos
    }
  }

  lemma {:induction false} YearStartGrows(y: nat, y': nat)
    requires y < y'
    ensures YearStart(y) + (if Leap(y) then 366 else 365) <= YearStart(y')
  {
    if y + 1 < y' { YearStartGrows(y, y' - 1); }
  }

  lemma {:induction false} MonthStartGrows(year: nat, m: nat, m': nat)
    requires 1 <= m < m' <= 13
    ensures MonthStart(year, m) + DaysIn(year, m) <= MonthStart(year, m')
  {
    if m + 1 < m' { MonthStartGrows(year, m, m' - 1); }
  }

  lemma YearLength(year: nat)
    ensures MonthStart(year, 13) == if Leap(year) then 366 else 365
  {
    assert MonthStart(year, 2) == 31;
    assert MonthStart(year, 3) == 31 + DaysIn(year, 2);
    assert MonthStart(year, 5) == MonthStart(year, 3) + 61;
    assert MonthStart(year, 7) == MonthStart(year, 5) + 61;
    assert MonthStart(year, 9) == MonthStart(year, 7) + 62;
    assert MonthStart(year, 11) == MonthStart(year, 9) + 61;
    assert MonthStart(year, 13) == MonthStart(year, 11) + 61;
  }

  /** Day numbers order dates as the calendar does. */
  lemma DateOrder(a: Date, b: Date)
    requires a.Valid() && b.Valid() && a.Before(b)
    ensures a.Number() < b.Number()
  {
    if a.year < b.year {
      YearStartGrows(a.year, b.year);
      MonthStartGrows(a.year, a.month, 13);
      YearLength(a.year);
    } else if a.month < b.month {
      MonthStartGrows(a.year, a.month, b.month);
    }
  }

  // ---- Text ----

  function Digit(d: nat): char
    requires d < 10
  {
    '0' + d as char
  }

  function Pow10(w: nat): nat { if w == 0 then 1 else 10 * Pow10(w - 1) }

  /** The w lowest decimal digits of n. */
  function Pad(n: nat, w: nat): (s: string)
    ensures |s| == w
  {
    if w == 0 then "" else Pad(n / 10, w - 1) + [Digit(n % 10)]
  }

  function TrimZeros(s: string): (t: string)
    ensures t <= s && (t == "" || t[|t| - 1] != '0')
  {
    if s == "" || s[|s| - 1] != '0' then s else TrimZeros(s[..|s| - 1])
  }

  /** The fraction digits that are written; none for a whole second. */
  function Fraction(nanos: nat): (s: string)
    ensures |s| <= 9 && (s == "" || s[|s| - 1] != '0')
  {
    TrimZeros(Pad(nanos, 9))
  }

  function FractionText(nanos: nat): string {
    (if Fraction(nanos) == "" then "" else "." + Fraction(nanos)) + "Z"
  }

  function DateText(d: Date): string { Pad(d.year, 4) + ("-" + (Pad(d.month, 2) + ("-" + Pad(d.day, 2)))) }

  function ClockText(t: Time, rest: string): string {
    "T" + (Pad(t.hour, 2) + (":" + (Pad(t.minute, 2) + (":" + (Pad(t.second, 2) + rest)))))
  }

  /** `timestamp`. */
  function Format(t: Time): string { DateText(t.date) + ClockText(t, FractionText(t.nanos)) }

  // ---- Byte order ----

  /** SQLite's order on TEXT. */
  predicate Less(a: string, b: string) {
    b != "" && (a == "" || a[0] < b[0] || (a[0] == b[0] && Less(a[1..], b[1..])))
  }

  lemma {:induction false} LessCommon(p: string, x: string, y: string)
    ensures Less(p + x, p + y) <==> Less(x, y)
  {
    if p == "" {
      assert p + x == x && p + y == y;
    } else {
      assert (p + x)[1..] == p[1..] + x && (p + y)[1..] == p[1..] + y;
      LessCommon(p[1..], x, y);
    }
  }

  predicate Incomparable(p: string, q: string) { !(p <= q) && !(q <= p) }

  /** Strings that differ before either ends are ordered by that difference, whatever follows. */
  lemma {:induction false} LessIncomparable(p: string, q: string, x: string, y: string)
    requires Incomparable(p, q)
    ensures Less(p + x, q + y) <==> Less(p, q)
    ensures Less(p, q) <==> !Less(q, p)
  {
    assert (p + x)[1..] == p[1..] + x && (q + y)[1..] == q[1..] + y;
    if p[0] == q[0] {
      assert p == [p[0]] + p[1..] && q == [q[0]] + q[1..];
      assert p[1..] <= q[1..] ==> p <= q;
      assert q[1..] <= p[1..] ==> q <= p;
      LessIncomparable(p[1..], q[1..], x, y);
    }
  }

  lemma SameLengthIncomparable(p: string, q: string)
    requires |p| == |q| && p != q
    ensures Incomparable(p, q)
  {
    assert p[..|q|] == p && q[..|p|] == q;
  }

  lemma {:induction false} PadOrder(m: nat, n: nat, w: nat)
    requires m < n < Pow10(w)
    ensures Less(Pad(m, w), Pad(n, w)) && Pad(m, w) != Pad(n, w)
  {
    var p, q := Pad(m / 10, w - 1), Pad(n / 10, w - 1);
    if m / 10 < n / 10 {
      PadOrder(m / 10, n / 10, w - 1);
      SameLengthIncomparable(p, q);
      LessIncomparable(p, q, [Digit(m % 10)], [Digit(n % 10)]);
    } else {
      assert p == q && m % 10 < n % 10;
      LessCommon(p, [Digit(m % 10)], [Digit(n % 10)]);
    }
    LessIrreflexive(Pad(m, w));
  }

  /** Two texts that begin with a padded number are ordered by it, and by the rest when it is the same. */
  lemma FieldOrder(m: nat, n: nat, w: nat, x: string, y: string)
    requires m < Pow10(w) && n < Pow10(w)
    ensures Less(Pad(m, w) + x, Pad(n, w) + y) <==> m < n || (m == n && Less(x, y))
  {
    if m < n {
      PadOrder(m, n, w);
      SameLengthIncomparable(Pad(m, w), Pad(n, w));
      LessIncomparable(Pad(m, w), Pad(n, w), x, y);
    } else if n < m {
      PadOrder(n, m, w);
      SameLengthIncomparable(Pad(m, w), Pad(n, w));
      LessIncomparable(Pad(m, w), Pad(n, w), x, y);
    } else {
      LessCommon(Pad(m, w), x, y);
    }
  }

  predicate DateLexOrRest(a: Date, b: Date, rest: bool) { a.Before(b) || (a == b && rest) }

  lemma DateTextOrder(a: Date, b: Date, x: string, y: string)
    requires a.Valid() && b.Valid()
    ensures Less(DateText(a) + x, DateText(b) + y) <==> DateLexOrRest(a, b, Less(x, y))
  {
    var ad, bd := Pad(a.day, 2) + x, Pad(b.day, 2) + y;
    var am, bm := Pad(a.month, 2) + ("-" + ad), Pad(b.month, 2) + ("-" + bd);
    assert DateText(a) + x == Pad(a.year, 4) + ("-" + am);
    assert DateText(b) + y == Pad(b.year, 4) + ("-" + bm);
    assert Pow10(2) == 100 && Pow10(4) == 10000;
    FieldOrder(a.year, b.year, 4, "-" + am, "-" + bm);
    LessCommon("-", am, bm);
    FieldOrder(a.month, b.month, 2, "-" + ad, "-" + bd);
    LessCommon("-", ad, bd);
    FieldOrder(a.day, b.day, 2, x, y);
  }

  lemma ClockTextOrder(a: Time, b: Time, x: string, y: string)
    requires a.Valid() && b.Valid()
    ensures Less(ClockText(a, x), ClockText(b, y)) <==>
      || a.hour < b.hour
      || (a.hour == b.hour && (a.minute < b.minute
            || (a.minute == b.minute && (a.second < b.second || (a.second == b.second && Less(x, y))))))
  {
    var ad, bd := Pad(a.second, 2) + x, Pad(b.second, 2) + y;
    var am, bm := Pad(a.minute, 2) + (":" + ad), Pad(b.minute, 2) + (":" + bd);
    assert Pow10(2) == 100;
    LessCommon("T", Pad(a.hour, 2) + (":" + am), Pad(b.hour, 2) + (":" + bm));
    FieldOrder(a.hour, b.hour, 2, ":" + am, ":" + bm);
    LessCommon(":", am, bm);
    FieldOrder(a.minute, b.minute, 2, ":" + ad, ":" + bd);
    LessCommon(":", ad, bd);
    FieldOrder(a.second, b.second, 2, x, y);
  }

  // ---- Trimmed fractions ----

  function Zeros(k: nat): (s: string)
    ensures |s| == k && forall c <- s :: c == '0'
  {
    if k == 0 then "" else Zeros(k - 1) + "0"
  }

  lemma {:induction false} TrimZerosRest(s: string)
    ensures s == TrimZeros(s) + Zeros(|s| - |TrimZeros(s)|)
  {
    if s != "" && s[|s| - 1] == '0' {
      TrimZerosRest(s[..|s| - 1]);
      assert s == s[..|s| - 1] + "0";
    }
  }

  /** The nine digits are the trimmed fraction and zeros. */
  lemma PadSplit(n: nat)
    ensures Pad(n, 9) == Fraction(n) + Zeros(9 - |Fraction(n)|)
  {
    TrimZerosRest(Pad(n, 9));
  }

  predicate Digits(s: string) { forall c <- s :: '0' <= c <= '9' }

  lemma {:induction false} PadDigits(n: nat, w: nat)
    ensures Digits(Pad(n, w))
  {
    if w > 0 { PadDigits(n / 10, w - 1); }
  }

  lemma FractionDigits(n: nat)
    ensures Digits(Fraction(n))
  {
    PadDigits(n, 9);
    assert forall i :: 0 <= i < |Fraction(n)| ==> Fraction(n)[i] == Pad(n, 9)[i] && Pad(n, 9)[i] in Pad(n, 9);
  }

  predicate AllZeros(s: string) { forall i :: 0 <= i < |s| ==> s[i] == '0' }

  /** Zeros sort before any other digits of the same length. */
  lemma {:induction false} ZerosLeast(z: string, r: string, k: nat)
    requires |z| == |r| && AllZeros(z) && k < |r| && r[k] > '0' && forall i :: 0 <= i < k ==> r[i] >= '0'
    ensures Less(z, r)
  {
    if r[0] == '0' { ZerosLeast(z[1..], r[1..], k - 1); }
  }

  lemma {:induction false} TrimTail(s: string)
    ensures AllZeros(s[|TrimZeros(s)|..])
  {
    if s != "" && s[|s| - 1] == '0' {
      TrimTail(s[..|s| - 1]);
      var n := |TrimZeros(s)|;
      forall i | 0 <= i < |s[n..]| ensures s[n..][i] == '0' {
        if n + i < |s| - 1 { assert s[..|s| - 1][n..][i] == s[n + i]; }
      }
    }
  }

  /** A fraction that is a proper prefix of another belongs to the earlier time ... */
  lemma PrefixIsEarlier(a: nat, b: nat)
    requires a < 1_000_000_000 && b < 1_000_000_000 && Fraction(a) < Fraction(b)
    ensures a < b
  {
    PadDigits(b, 9);
    LongerTrimGreater(Pad(a, 9), Pad(b, 9));
    PadOrderConverse(a, b);
  }

  /** Of two digit texts of one length, the one that keeps more when trimmed is the greater. */
  lemma LongerTrimGreater(x: string, y: string)
    requires |x| == |y| && TrimZeros(x) < TrimZeros(y) && Digits(y)
    ensures Less(x, y)
  {
    TrimTail(x);
    LongerGreater(x, y, |TrimZeros(x)|, |TrimZeros(y)| - 1);
  }

  /** Texts that agree up to n, where the one goes on with zeros and the other has another digit at k. */
  lemma LongerGreater(x: string, y: string, n: nat, k: nat)
    requires |x| == |y| && n <= k < |y| && x[..n] == y[..n] && AllZeros(x[n..]) && Digits(y) && y[k] != '0'
    ensures Less(x, y)
  {
    assert forall i :: 0 <= i < |y| ==> y[i] in y;
    ZerosLeast(x[n..], y[n..], k - n);
    LessCommon(x[..n], x[n..], y[n..]);
    assert x[..n] + x[n..] == x && y[..n] + y[n..] == y;
  }

  /** ... yet its text sorts later: the `Z`, with or without a point before it, is the higher byte. */
  lemma PrefixSortsLater(a: nat, b: nat)
    requires Fraction(a) < Fraction(b)
    ensures Less(FractionText(b), FractionText(a)) && !Less(FractionText(a), FractionText(b))
  {
    var p, r := Fraction(a), Fraction(b)[|Fraction(a)|..];
    FractionDigits(b);
    assert Fraction(b) == p + r && r[0] == Fraction(b)[|p|] && r[0] in Fraction(b);
    if p == "" {
      assert FractionText(a)[0] == 'Z' && FractionText(b)[0] == '.';
    } else {
      assert FractionText(a) == ("." + p) + "Z" && FractionText(b) == ("." + p) + (r + "Z");
      LessCommon("." + p, r + "Z", "Z");
      LessCommon("." + p, "Z", r + "Z");
      assert (r + "Z")[0] == r[0] && "Z"[0] == 'Z';
    }
  }

  lemma PadOrderConverse(a: nat, b: nat)
    requires a < 1_000_000_000 && b < 1_000_000_000
    ensures Less(Pad(a, 9), Pad(b, 9)) <==> a < b
  {
    Pow10Nine();
    FieldOrder(a, b, 9, "", "");
    assert Pad(a, 9) + "" == Pad(a, 9) && Pad(b, 9) + "" == Pad(b, 9);
  }

  /** Fractions that differ before either ends sort as the times do. */
  lemma IncomparableAgrees(a: nat, b: nat)
    requires a < 1_000_000_000 && b < 1_000_000_000 && Incomparable(Fraction(a), Fraction(b))
    ensures Less(FractionText(a), FractionText(b)) <==> a < b
  {
    var p, q := Fraction(a), Fraction(b);
    assert Pad(a, 9) == p + Pad(a, 9)[|p|..] && Pad(b, 9) == q + Pad(b, 9)[|q|..];
    LessIncomparable(p, q, Pad(a, 9)[|p|..], Pad(b, 9)[|q|..]);
    PadOrderConverse(a, b);
    LessIncomparable(p, q, "Z", "Z");
    assert p != "" && q != "";
    assert FractionText(a) == "." + (p + "Z") && FractionText(b) == "." + (q + "Z");
    LessCommon(".", p + "Z", q + "Z");
  }

  lemma FractionInjective(a: nat, b: nat)
    requires a < 1_000_000_000 && b < 1_000_000_000 && Fraction(a) == Fraction(b)
    ensures a == b
  {
    PadSplit(a);
    PadSplit(b);
    PadOrderConverse(a, b);
    PadOrderConverse(b, a);
    LessIrreflexive(Pad(a, 9));
  }

  lemma {:induction false} LessIrreflexive(s: string)
    ensures !Less(s, s)
  {
    if s != "" { LessIrreflexive(s[1..]); }
  }

  /** Byte order is a strict total order. */
  lemma {:induction false} LessTransitive(a: string, b: string, c: string)
    requires Less(a, b) && Less(b, c)
    ensures Less(a, c)
  {
    if a != "" && a[0] == b[0] == c[0] { LessTransitive(a[1..], b[1..], c[1..]); }
  }

  lemma {:induction false} LessTotal(a: string, b: string)
    ensures a == b || Less(a, b) || Less(b, a)
    ensures !(Less(a, b) && Less(b, a)) && !Less(a, a)
  {
    if a != "" { assert a == [a[0]] + a[1..]; }
    if b != "" { assert b == [b[0]] + b[1..]; }
    if a != "" && b != "" { LessTotal(a[1..], b[1..]); }
    LessIrreflexive(a);
  }

  // ---- Main results ----

  /** The texts are ordered as the times are. */
  predicate Agree(a: Time, b: Time)
    requires a.Valid() && b.Valid()
  {
    Less(Format(a), Format(b)) <==> a.Instant() < b.Instant()
  }

  lemma SecondsOrder(a: Time, b: Time)
    requires a.Valid() && b.Valid()
    ensures a.Seconds() < b.Seconds() <==>
      DateLexOrRest(a.date, b.date, a.hour < b.hour
        || (a.hour == b.hour && (a.minute < b.minute || (a.minute == b.minute && a.second < b.second))))
    ensures a.Seconds() == b.Seconds() <==>
      a.date == b.date && a.hour == b.hour && a.minute == b.minute && a.second == b.second
  {
    if a.date.Before(b.date) {
      DateOrder(a.date, b.date);
    } else if b.date.Before(a.date) {
      DateOrder(b.date, a.date);
    } else {
      assert a.date == b.date;
    }
  }

  /** The text order of two timestamps: by whole seconds first, then by the text of the fractions. */
  lemma FormatOrder(a: Time, b: Time)
    requires a.Valid() && b.Valid()
    ensures Less(Format(a), Format(b)) <==>
      a.Seconds() < b.Seconds() || (a.Seconds() == b.Seconds() && Less(FractionText(a.nanos), FractionText(b.nanos)))
  {
    DateTextOrder(a.date, b.date, ClockText(a, FractionText(a.nanos)), ClockText(b, FractionText(b.nanos)));
    ClockTextOrder(a, b, FractionText(a.nanos), FractionText(b.nanos));
    SecondsOrder(a, b);
  }

  /** Text order is time order whenever the whole seconds differ. */
  lemma AgreeAcrossSeconds(a: Time, b: Time)
    requires a.Valid() && b.Valid() && a.Seconds() != b.Seconds()
    ensures Agree(a, b)
  {
    FormatOrder(a, b);
  }

  /** Within one second it is so exactly when neither trimmed fraction is a proper prefix of the other. */
  lemma AgreeWithinSecondIff(a: Time, b: Time)
    requires a.Valid() && b.Valid() && a.Seconds() == b.Seconds()
    ensures Agree(a, b) <==> !(Fraction(a.nanos) < Fraction(b.nanos)) && !(Fraction(b.nanos) < Fraction(a.nanos))
  {
    FormatOrder(a, b);
    if Fraction(a.nanos) < Fraction(b.nanos) {
      PrefixIsEarlier(a.nanos, b.nanos);
      PrefixSortsLater(a.nanos, b.nanos);
    } else if Fraction(b.nanos) < Fraction(a.nanos) {
      PrefixIsEarlier(b.nanos, a.nanos);
      PrefixSortsLater(b.nanos, a.nanos);
    } else if Fraction(a.nanos) == Fraction(b.nanos) {
      FractionInjective(a.nanos, b.nanos);
      LessIrreflexive(FractionText(a.nanos));
    } else {
      IncomparableAgrees(a.nanos, b.nanos);
    }
  }

  lemma {:induction false} TrimZerosOfZeros(k: nat)
    ensures TrimZeros(Zeros(k)) == ""
  {
    if k > 0 {
      assert Zeros(k)[..k - 1] == Zeros(k - 1);
      TrimZerosOfZeros(k - 1);
    }
  }

  lemma {:induction false} PadZero(w: nat)
    ensures Pad(0, w) == Zeros(w)
  {
    if w > 0 { PadZero(w - 1); }
  }

  /** The plainest disagreement: a whole second sorts behind every other time of that second. */
  lemma WholeSecondSortsLast(a: Time, b: Time)
    requires a.Valid() && b.Valid() && a.Seconds() == b.Seconds() && a.nanos == 0 < b.nanos
    ensures a.Instant() < b.Instant() && Less(Format(b), Format(a)) && !Agree(a, b)
  {
    PadZero(9);
    TrimZerosOfZeros(9);
    assert Fraction(0) == "";
    if Fraction(b.nanos) == "" { FractionInjective(0, b.nanos); }
    AgreeWithinSecondIff(a, b);
    PrefixSortsLater(a.nanos, b.nanos);
    FormatOrder(b, a);
  }

  // ---- Parsing ----

  function Value(s: string): nat
    requires Digits(s)
  {
    if s == "" then 0 else
      assert forall i :: 0 <= i < |s| ==> s[i] in s;
      assert Digits(s[..|s| - 1]);
      10 * Value(s[..|s| - 1]) + (s[|s| - 1] - '0') as nat
  }

  function TakeNumber(s: string, w: nat): Option<(nat, string)> {
    if |s| >= w && Digits(s[..w]) then Some((Value(s[..w]), s[w..])) else None
  }

  function TakeChar(s: string, c: char): Option<string> {
    if s != "" && s[0] == c then Some(s[1..]) else None
  }

  /** The digits behind the point; those after the ninth are cut off. */
  function TakeNanos(s: string): Option<nat> {
    if s == "Z" then Some(0)
    else if |s| < 3 || s[0] != '.' || s[|s| - 1] != 'Z' || !Digits(s[1..|s| - 1]) then None
    else
      var digits := s[1..|s| - 1];
      var nine := if |digits| >= 9 then digits[..9] else digits + Zeros(9 - |digits|);
      assert forall c <- nine :: c in digits || c == '0';
      Some(Value(nine))
  }

  /** A number and the separator behind it. */
  function TakeField(s: string, w: nat, c: char): Option<(nat, string)> {
    var (n, s) :- TakeNumber(s, w);
    var s :- TakeChar(s, c);
    Some((n, s))
  }

  function ParseDate(s: string): Option<(Date, string)> {
    var (year, s) :- TakeField(s, 4, '-');
    var (month, s) :- TakeField(s, 2, '-');
    var (day, s) :- TakeNumber(s, 2);
    Some((Date(year, month, day), s))
  }

  function ParseClock(s: string): Option<(nat, nat, nat, string)> {
    var s :- TakeChar(s, 'T');
    var (hour, s) :- TakeField(s, 2, ':');
    var (minute, s) :- TakeField(s, 2, ':');
    var (second, s) :- TakeNumber(s, 2);
    Some((hour, minute, second, s))
  }

  /** `time.Parse` with the RFC3339Nano layout, on texts in UTC. */
  function ParseText(s: string): Option<Time> {
    var (date, s) :- ParseDate(s);
    var (hour, minute, second, s) :- ParseClock(s);
    var nanos :- TakeNanos(s);
    var t := Time(date, hour, minute, second, nanos);
    if t.Valid() then Some(t) else None
  }

  datatype Parsed = ZeroTime | At(time: Time) | Malformed

  /** `parseTime`: the empty column is the zero time. */
  function Parse(s: string): Parsed {
    if s == "" then ZeroTime else
      match ParseText(s)
      case Some(t) => At(t)
      case None => Malformed
  }

  lemma {:induction false} ValueOfPad(n: nat, w: nat)
    requires n < Pow10(w)
    ensures Digits(Pad(n, w)) && Value(Pad(n, w)) == n
  {
    PadDigits(n, w);
    if w > 0 {
      ValueOfPad(n / 10, w - 1);
      assert Pad(n, w)[..w - 1] == Pad(n / 10, w - 1);
    }
  }

  lemma TakePad(n: nat, w: nat, rest: string)
    requires n < Pow10(w)
    ensures TakeNumber(Pad(n, w) + rest, w) == Some((n, rest))
  {
    ValueOfPad(n, w);
    assert (Pad(n, w) + rest)[..w] == Pad(n, w) && (Pad(n, w) + rest)[w..] == rest;
  }

  lemma TakePadField(n: nat, w: nat, sep: string, rest: string)
    requires n < Pow10(w) && |sep| == 1
    ensures TakeField(Pad(n, w) + (sep + rest), w, sep[0]) == Some((n, rest))
  {
    TakePad(n, w, sep + rest);
  }

  lemma TakeFraction(nanos: nat)
    requires nanos < 1_000_000_000
    ensures TakeNanos(FractionText(nanos)) == Some(nanos)
  {
    var p := Fraction(nanos);
    PadSplit(nanos);
    FractionDigits(nanos);
    Pow10Nine();
    ValueOfPad(nanos, 9);
    if p == "" {
      PadZero(9);
      ValueOfPad(0, 9);
      assert Pad(nanos, 9) == Zeros(9);
    } else {
      var s := FractionText(nanos);
      assert s == "." + p + "Z" && s[1..|s| - 1] == p;
      assert |p| == 9 ==> p + Zeros(0) == p && p[..9] == p;
    }
  }

  lemma Pow10Nine()
    ensures Pow10(2) == 100 && Pow10(4) == 10_000 && Pow10(9) == 1_000_000_000
  {
    assert Pow10(3) == 1000 && Pow10(6) == 1000 * Pow10(3);
  }

  lemma ParseDateText(d: Date, rest: string)
    requires d.year < 10_000 && d.month < 100 && d.day < 100
    ensures ParseDate(DateText(d) + rest) == Some((d, rest))
  {
    Pow10Nine();
    var day := Pad(d.day, 2) + rest;
    var month := Pad(d.month, 2) + ("-" + day);
    TakePad(d.day, 2, rest);
    TakePadField(d.month, 2, "-", day);
    TakePadField(d.year, 4, "-", month);
    Regroup(Pad(d.year, 4), Pad(d.month, 2), Pad(d.day, 2), rest);
  }

  lemma Regroup(a: string, b: string, c: string, rest: string)
    ensures (a + ("-" + (b + ("-" + c)))) + rest == a + ("-" + (b + ("-" + (c + rest))))
  {
  }

  lemma ParseClockText(t: Time, rest: string)
    requires t.hour < 100 && t.minute < 100 && t.second < 100
    ensures ParseClock(ClockText(t, rest)) == Some((t.hour, t.minute, t.second, rest))
  {
    Pow10Nine();
    var second := Pad(t.second, 2) + rest;
    var minute := Pad(t.minute, 2) + (":" + second);
    TakePad(t.second, 2, rest);
    TakePadField(t.minute, 2, ":", second);
    TakePadField(t.hour, 2, ":", minute);
  }

  /** `parseTime` undoes `timestamp`; the empty column, and nothing else, is the zero time. */
  lemma ParseUndoesFormat(t: Time)
    requires t.Valid()
    ensures Parse(Format(t)) == At(t)
    ensures forall s: string :: Parse(s) == ZeroTime <==> s == ""
  {
    var f := FractionText(t.nanos);
    ParseDateText(t.date, ClockText(t, f));
    ParseClockText(t, f);
    TakeFraction(t.nanos);
    assert Format(t) != "";
  }

  // ---- The calendar in closed form ----

  /** Leap years are every fourth, but not every hundredth, but every four hundredth. */
  lemma {:induction false} YearStartFormula(y: nat)
    ensures YearStart(y) == 365 * y + (y + 3) / 4 - (y + 99) / 100 + (y + 399) / 400
  {
    if y > 0 {
      YearStartFormula(y - 1);
      Fourths(y - 1);
      Hundredths(y - 1);
      FourHundredths(y - 1);
    }
  }

  lemma Fourths(y: nat)
    ensures (y + 4) / 4 == (y + 3) / 4 + if y % 4 == 0 then 1 else 0
  {
  }

  lemma Hundredths(y: nat)
    ensures (y + 100) / 100 == (y + 99) / 100 + if y % 100 == 0 then 1 else 0
    ensures y % 100 == 0 ==> y % 4 == 0
  {
    var q, r := y / 100, y % 100;
    assert y == 100 * q + r;
    assert (y + 100) / 100 == q + 1;
    assert (y + 99) / 100 == if r == 0 then q else q + 1;
    if r == 0 { assert y == 4 * (25 * q); }
  }

  lemma FourHundredths(y: nat)
    ensures (y + 400) / 400 == (y + 399) / 400 + if y % 400 == 0 then 1 else 0
    ensures y % 400 == 0 ==> y % 100 == 0
  {
    var q, r := y / 400, y % 400;
    assert y == 400 * q + r;
    assert (y + 400) / 400 == q + 1;
    assert (y + 399) / 400 == if r == 0 then q else q + 1;
    if r == 0 { assert y == 100 * (4 * q); }
  }

  /** The months from March on fall into the 153-day pattern of five. */
  lemma MonthStartFormula(year: nat, month: nat)
    requires 3 <= month <= 13
    ensures MonthStart(year, month) == 59 + (if Leap(year) then 1 else 0) + (153 * (month - 3) + 2) / 5
  {
    assert MonthStart(year, 2) == 31;
    assert MonthStart(year, 3) == 31 + DaysIn(year, 2);
    if month > 3 { MonthStartFormula(year, month - 1); }
  }
}
