/** The library widget's 30-day series (daemon/state/store.go, `statsLibrary`): a baseline, one sum per day and a
    running total, where comparing texts puts some rows of the first day into the baseline. */
module LibrarySeries {
  import opened Jobs
  import opened Timestamps

  // ---- Days ----

  function NextDay(d: Date): Date {
    if d.day < DaysIn(d.year, d.month) then Date(d.year, d.month, d.day + 1)
    else if d.month < 12 then Date(d.year, d.month + 1, 1)
    else Date(d.year + 1, 1, 1)
  }

  /** The first of January of year 0 has none. */
  function PreviousDay(d: Date): Date {
    if d.day > 1 then Date(d.year, d.month, d.day - 1)
    else if d.month > 1 then Date(d.year, d.month - 1, DaysIn(d.year, d.month - 1))
    else if d.year > 0 then Date(d.year - 1, 12, 31)
    else d
  }

  /** time.Time.AddDate(0, 0, n) on midnights. */
  function AddDays(d: Date, n: int): Date
    decreases if n < 0 then -n else n
  {
    if n > 0 then AddDays(NextDay(d), n - 1) else if n < 0 then AddDays(PreviousDay(d), n + 1) else d
  }

  lemma NextDayNumber(d: Date, last: Date)
    requires d.Valid() && last.Valid() && d.Number() < last.Number()
    ensures NextDay(d).Valid() && NextDay(d).Number() == d.Number() + 1
  {
    if last.Before(d) { DateOrder(last, d); }
    if d.day == DaysIn(d.year, d.month) && d.month == 12 { YearLength(d.year); }
  }

  lemma PreviousDayNumber(d: Date)
    requires d.Valid() && d.Number() > 0
    ensures PreviousDay(d).Valid() && PreviousDay(d).Number() == d.Number() - 1
  {
    if d.day == 1 && d.month == 1 {
      assert MonthStart(d.year, 1) == 0 && YearStart(0) == 0;
      YearLength(d.year - 1);
    }
  }

  lemma {:induction false} AddDaysNumber(d: Date, n: int, last: Date)
    requires d.Valid() && last.Valid() && 0 <= d.Number() + n && (n <= 0 || d.Number() + n <= last.Number())
    ensures AddDays(d, n).Valid() && AddDays(d, n).Number() == d.Number() + n
    decreases if n < 0 then -n else n
  {
    if n > 0 {
      NextDayNumber(d, last);
      AddDaysNumber(NextDay(d), n - 1, last);
    } else if n < 0 {
      PreviousDayNumber(d);
      AddDaysNumber(PreviousDay(d), n + 1, last);
    }
  }

  lemma NumbersOrderDates(a: Date, b: Date)
    requires a.Valid() && b.Valid()
    ensures a.Number() < b.Number() <==> a.Before(b)
    ensures a.Number() == b.Number() <==> a == b
    ensures DateText(a) == DateText(b) <==> a == b
  {
    if a.Before(b) { DateOrder(a, b); }
    if b.Before(a) { DateOrder(b, a); }
    DateTextOrder(a, b, "", "");
    DateTextOrder(b, a, "", "");
    assert DateText(a) + "" == DateText(a) && DateText(b) + "" == DateText(b);
    LessIrreflexive(DateText(a));
  }

  // ---- Rows ----

  ghost predicate Stamps(text: string, t: Time) { t.Valid() && text == Format(t) }

  /** finished_at holds "" or a text that `timestamp` wrote. */
  ghost predicate Written(job: Job) { job.finishedAt == "" || exists t :: Stamps(job.finishedAt, t) }

  ghost function DayOf(job: Job): (day: Date)
    requires Written(job) && job.finishedAt != ""
    ensures day.Valid()
  {
    var t :| Stamps(job.finishedAt, t);
    t.date
  }

  /** SUM(output_bytes) over the rows that a WHERE clause keeps. */
  function Sum(rows: seq<Job>, where: Job -> bool): int {
    if rows == [] then 0 else (if where(rows[0]) then rows[0].outputBytes else 0) + Sum(rows[1..], where)
  }

  predicate IsDone(job: Job) { job.state.Done? }

  /** What the series means: everything done by the end of the day; a row without a time always counts. */
  ghost predicate DoneBy(job: Job, day: Date)
    requires Written(job)
  {
    job.state.Done? && (job.finishedAt == "" || !day.Before(DayOf(job)))
  }

  ghost function UsedBy(rows: seq<Job>, day: Date): int
    requires forall job <- rows :: Written(job)
  {
    if rows == [] then 0 else (if DoneBy(rows[0], day) then rows[0].outputBytes else 0) + UsedBy(rows[1..], day)
  }

  // ---- The queries ----

  /** timestamp(windowStart). */
  function MidnightText(d: Date): string { Format(Time(d, 0, 0, 0, 0)) }

  /** SQLite's date(): the calendar day of a timestamp's text. */
  function DayText(finishedAt: string): string { if |finishedAt| < 10 then finishedAt else finishedAt[..10] }

  predicate BeforeWindow(job: Job, start: string) { job.state.Done? && Less(job.finishedAt, start) }

  function BaselineOf(rows: seq<Job>, start: string): int { Sum(rows, job => BeforeWindow(job, start)) }

  predicate OnDay(job: Job, start: string, day: string) {
    job.state.Done? && !Less(job.finishedAt, start) && DayText(job.finishedAt) == day
  }

  /** ... GROUP BY date(finished_at), as the map that the rows are read into. */
  function Daily(rows: seq<Job>, start: string): map<string, int> {
    map job | job in rows && job.state.Done? && !Less(job.finishedAt, start)
      :: DayText(job.finishedAt) := Sum(rows, r => OnDay(r, start, DayText(job.finishedAt)))
  }

  // ---- Which row is added when ----

  /** What the running total holds after i days: the baseline and the rows of those days. */
  ghost predicate Counted(job: Job, first: Date, i: nat)
    requires first.Valid()
  {
    && job.state.Done? && Written(job)
    && (Less(job.finishedAt, MidnightText(first)) || DayOf(job).Number() < first.Number() + i)
  }

  /** The start of the window splits the rows by day, except that it may fall anywhere in the first second of its own
      day. */
  lemma WindowStart(t: Time, first: Date)
    requires t.Valid() && first.Valid()
    ensures t.date.Before(first) ==> Less(Format(t), MidnightText(first))
    ensures Less(Format(t), MidnightText(first)) ==> !first.Before(t.date)
    ensures DayText(Format(t)) == DateText(t.date)
  {
    var midnight := Time(first, 0, 0, 0, 0);
    FormatOrder(t, midnight);
    SecondsOrder(t, midnight);
    assert Format(t)[..10] == DateText(t.date);
  }

  /** A row enters the total on its own day at the latest, is added once, and so is in it exactly when it should be. */
  lemma Placement(job: Job, first: Date, day: Date, i: nat)
    requires first.Valid() && day.Valid() && day.Number() == first.Number() + i && Written(job)
    ensures Counted(job, first, i + 1) <==> Counted(job, first, i) || OnDay(job, MidnightText(first), DateText(day))
    ensures !(Counted(job, first, i) && OnDay(job, MidnightText(first), DateText(day)))
    ensures Counted(job, first, i + 1) <==> DoneBy(job, day)
    ensures Counted(job, first, 0) <==> BeforeWindow(job, MidnightText(first))
  {
    if job.finishedAt != "" {
      var t :| Stamps(job.finishedAt, t) && t.date == DayOf(job);
      WindowStart(t, first);
      NumbersOrderDates(t.date, first);
      NumbersOrderDates(first, t.date);
      NumbersOrderDates(t.date, day);
      NumbersOrderDates(day, t.date);
    } else {
      assert MidnightText(first) != "";
    }
  }

  lemma {:induction false} SumSplit(rows: seq<Job>, whole: Job -> bool, a: Job -> bool, b: Job -> bool)
    requires forall job <- rows :: (whole(job) <==> a(job) || b(job)) && !(a(job) && b(job))
    ensures Sum(rows, whole) == Sum(rows, a) + Sum(rows, b)
  {
    if rows != [] { SumSplit(rows[1..], whole, a, b); }
  }

  lemma {:induction false} SumNone(rows: seq<Job>, where: Job -> bool)
    requires forall job <- rows :: !where(job)
    ensures Sum(rows, where) == 0
  {
    if rows != [] { SumNone(rows[1..], where); }
  }

  lemma {:induction false} SumSame(rows: seq<Job>, a: Job -> bool, b: Job -> bool)
    requires forall job <- rows :: a(job) <==> b(job)
    ensures Sum(rows, a) == Sum(rows, b)
  {
    if rows != [] { SumSame(rows[1..], a, b); }
  }

  lemma {:induction false} SumUsedBy(rows: seq<Job>, where: Job -> bool, day: Date)
    requires forall job <- rows :: Written(job) && (where(job) <==> DoneBy(job, day))
    ensures Sum(rows, where) == UsedBy(rows, day)
  {
    if rows != [] { SumUsedBy(rows[1..], where, day); }
  }

  ghost function CountedUpTo(rows: seq<Job>, first: Date, i: nat): int
    requires first.Valid()
  {
    Sum(rows, job => first.Valid() && Counted(job, first, i))
  }

  function OnDayTotal(rows: seq<Job>, start: string, day: string): int {
    Sum(rows, job => OnDay(job, start, day))
  }

  /** Reading a missing key of a map gives 0. */
  function Entry(m: map<string, int>, key: string): int { if key in m then m[key] else 0 }

  lemma Lookup(rows: seq<Job>, start: string, day: string)
    ensures Entry(Daily(rows, start), day) == OnDayTotal(rows, start, day)
  {
    if day in Daily(rows, start) {
      var job :| job in rows && job.state.Done? && !Less(job.finishedAt, start) && DayText(job.finishedAt) == day;
      SumSame(rows, r => OnDay(r, start, DayText(job.finishedAt)), r => OnDay(r, start, day));
    } else {
      forall job | job in rows ensures !OnDay(job, start, day) {
        assert OnDay(job, start, day) ==> DayText(job.finishedAt) in Daily(rows, start);
      }
      SumNone(rows, job => OnDay(job, start, day));
    }
  }

  /** One turn of the loop. */
  lemma NextTotal(rows: seq<Job>, first: Date, day: Date, i: nat)
    requires first.Valid() && day.Valid() && day.Number() == first.Number() + i
    requires forall job <- rows :: Written(job)
    ensures CountedUpTo(rows, first, i + 1)
         == CountedUpTo(rows, first, i) + OnDayTotal(rows, MidnightText(first), DateText(day))
    ensures CountedUpTo(rows, first, i + 1) == UsedBy(rows, day)
    ensures CountedUpTo(rows, first, 0) == BaselineOf(rows, MidnightText(first))
  {
    forall job | job in rows
      ensures Counted(job, first, i + 1) <==> Counted(job, first, i) || OnDay(job, MidnightText(first), DateText(day))
      ensures !(Counted(job, first, i) && OnDay(job, MidnightText(first), DateText(day)))
      ensures Counted(job, first, i + 1) <==> DoneBy(job, day)
      ensures Counted(job, first, 0) <==> BeforeWindow(job, MidnightText(first))
    {
      Placement(job, first, day, i);
    }
    SumSplit(rows, job => first.Valid() && Counted(job, first, i + 1), job => first.Valid() && Counted(job, first, i),
      job => OnDay(job, MidnightText(first), DateText(day)));
    SumUsedBy(rows, job => first.Valid() && Counted(job, first, i + 1), day);
    SumSame(rows, job => first.Valid() && Counted(job, first, 0), job => BeforeWindow(job, MidnightText(first)));
  }

  // ---- statsLibrary ----

  const WINDOW := 30

  /** The first of so many days that end with today. */
  function FirstDay(today: Date, days: nat): Date { AddDays(today, 1 - days) }

  /** The days of the series follow each other up to today. */
  lemma DaysOfSeries(today: Date, i: nat)
    requires today.Valid() && today.Number() >= WINDOW - 1 && i < WINDOW
    ensures var first := FirstDay(today, WINDOW); var day := AddDays(first, i);
      && first.Valid() && day.Valid() && day.Number() == first.Number() + i
      && day.Number() == today.Number() - (29 - i)
      && (i == 29 ==> day == today)
  {
    var first := FirstDay(today, WINDOW);
    AddDaysNumber(today, 1 - WINDOW, today);
    AddDaysNumber(first, i, today);
    NumbersOrderDates(AddDays(first, i), today);
  }

  datatype LibraryStat = LibraryStat(usedBytes: int, spark30dUsed: seq<int>)

  /** Each of the 30 points is what had been done by the end of that day, however the rows are ordered and whenever in
      a day they finished. */
  method StatsLibrary(rows: seq<Job>, now: Time) returns (out: LibraryStat)
    requires now.Valid() && now.date.Number() >= WINDOW - 1
    requires forall job <- rows :: Written(job)
    ensures |out.spark30dUsed| == 30 && out.usedBytes == Sum(rows, IsDone)
    ensures forall i :: 0 <= i < WINDOW ==> out.spark30dUsed[i] == UsedBy(rows, AddDays(FirstDay(now.date, WINDOW), i))
  {
    var windowStart := FirstDay(now.date, WINDOW);
    Baseline(rows, now.date);
    var start := MidnightText(windowStart);
    var baseline := BaselineOf(rows, start);
    var daily := Daily(rows, start);

    var series: seq<int> := [];
    var running := baseline;
    for i := 0 to WINDOW
      invariant |series| == i && running == CountedUpTo(rows, windowStart, i)
      invariant forall k :: 0 <= k < i ==> series[k] == UsedBy(rows, AddDays(windowStart, k))
    {
      var day := DateText(AddDays(windowStart, i));
      Turn(rows, now.date, i);
      running := running + Entry(daily, day);
      series := series + [running];
    }
    out := LibraryStat(Sum(rows, IsDone), series);
  }

  lemma Baseline(rows: seq<Job>, today: Date)
    requires today.Valid() && today.Number() >= WINDOW - 1
    requires forall job <- rows :: Written(job)
    ensures var first := FirstDay(today, WINDOW); var start := MidnightText(first);
      first.Valid() && BaselineOf(rows, start) == CountedUpTo(rows, first, 0)
  {
    DaysOfSeries(today, 0);
    NextTotal(rows, FirstDay(today, WINDOW), AddDays(FirstDay(today, WINDOW), 0), 0);
  }

  lemma Turn(rows: seq<Job>, today: Date, i: nat)
    requires today.Valid() && today.Number() >= WINDOW - 1 && i < WINDOW
    requires forall job <- rows :: Written(job)
    ensures var first := FirstDay(today, WINDOW); var day := AddDays(first, i);
      var daily := Daily(rows, MidnightText(first));
      && first.Valid()
      && CountedUpTo(rows, first, i) + Entry(daily, DateText(day)) == UsedBy(rows, day)
      && CountedUpTo(rows, first, i + 1) == UsedBy(rows, day)
  {
    DaysOfSeries(today, i);
    var first := FirstDay(today, WINDOW);
    NextTotal(rows, first, AddDays(first, i), i);
    Lookup(rows, MidnightText(first), DateText(AddDays(first, i)));
  }

  // ---- Properties of the series ----

  /** With no negative sizes it never falls from one day to a later one. */
  lemma {:induction false} NeverDecreases(rows: seq<Job>, a: Date, b: Date)
    requires a.Valid() && b.Valid() && a.Before(b)
    requires forall job <- rows :: Written(job) && job.outputBytes >= 0
    ensures UsedBy(rows, a) <= UsedBy(rows, b)
  {
    if rows != [] { NeverDecreases(rows[1..], a, b); }
  }

  /** It ends at usedBytes when nothing was done after today. */
  lemma {:induction false} EndsAtUsedBytes(rows: seq<Job>, today: Date)
    requires forall job <- rows :: Written(job) && (job.state.Done? ==> DoneBy(job, today))
    ensures UsedBy(rows, today) == Sum(rows, IsDone)
  {
    SumUsedBy(rows, IsDone, today);
  }
}
