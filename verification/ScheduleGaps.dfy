/** The gap between two planned runs: the largest and the mean, from the schedule
    alone, and what they are in the calendar. */
module ScheduleGaps {
  import opened Wrappers
  import opened ClockTimes
  import opened Schedules
  import opened Occurrences

  // ---------------------------------------------------------------- the times of a day

  function InsertDistinct(sorted: seq<int>, x: int): (r: seq<int>)
    ensures forall y :: y in r <==> y in sorted || y == x
  {
    if sorted == [] then [x]
    else if x < sorted[0] then [x] + sorted
    else if x == sorted[0] then sorted
    else
      var r := [sorted[0]] + InsertDistinct(sorted[1..], x);
      assert forall y :: y in sorted <==> y == sorted[0] || y in sorted[1..];
      r
  }

  /** The distinct minutes in ascending order. */
  function SortedDistinct(minutes: seq<int>): (r: seq<int>)
    ensures forall y :: y in r <==> y in minutes
  {
    if minutes == [] then []
    else
      assert minutes == minutes[..|minutes| - 1] + [minutes[|minutes| - 1]];
      InsertDistinct(SortedDistinct(minutes[..|minutes| - 1]), minutes[|minutes| - 1])
  }

  ghost predicate Ascending(s: seq<int>) {
    forall i, j :: 0 <= i < j < |s| ==> s[i] < s[j]
  }

  lemma {:induction false} InsertDistinctAscending(sorted: seq<int>, x: int)
    requires Ascending(sorted)
    ensures Ascending(InsertDistinct(sorted, x))
  {
    if sorted != [] && x > sorted[0] {
      InsertDistinctAscending(sorted[1..], x);
      var rest := InsertDistinct(sorted[1..], x);
      forall j | 0 <= j < |rest| ensures sorted[0] < rest[j] {
        assert rest[j] in rest;
      }
    }
  }

  lemma {:induction false} SortedDistinctAscending(minutes: seq<int>)
    ensures Ascending(SortedDistinct(minutes))
  {
    if minutes != [] {
      SortedDistinctAscending(minutes[..|minutes| - 1]);
      InsertDistinctAscending(SortedDistinct(minutes[..|minutes| - 1]), minutes[|minutes| - 1]);
    }
  }

  lemma {:induction false} NonEmptyHasElement(s: seq<int>)
    ensures s != [] ==> exists x :: x in s
  {
    if s != [] {
      var x := s[0];
      assert x in s;
    }
  }

  lemma {:induction false} AscendingUnique(a: seq<int>, b: seq<int>)
    requires Ascending(a) && Ascending(b) && forall x :: x in a <==> x in b
    ensures a == b
  {
    forall k | 0 <= k < |a| ensures a[k] in b { var x := a[k]; assert x in a; }
    forall k | 0 <= k < |b| ensures b[k] in a { var x := b[k]; assert x in b; }
    NonEmptyHasElement(a);
    NonEmptyHasElement(b);
    if a != [] {
      assert a[0] == b[0];
      forall x ensures x in a[1..] <==> x in b[1..] {
        assert x in a[1..] <==> x in a && x != a[0];
        assert x in b[1..] <==> x in b && x != b[0];
      }
      AscendingUnique(a[1..], b[1..]);
    }
  }

  /** Order and repetition of the configured times do not matter. */
  lemma {:induction false} OnlyTheSetMatters(a: seq<int>, b: seq<int>)
    requires forall x :: x in a <==> x in b
    ensures SortedDistinct(a) == SortedDistinct(b)
  {
    SortedDistinctAscending(a);
    SortedDistinctAscending(b);
    AscendingUnique(SortedDistinct(a), SortedDistinct(b));
  }

  // ---------------------------------------------------------------- gaps over midnight

  /** The gap after each time, the last one reaching over midnight. */
  function Gaps(m: seq<int>): (gaps: seq<int>)
    requires |m| > 0
    ensures |gaps| == |m|
  {
    seq(|m|, i requires 0 <= i < |m| => if i < |m| - 1 then m[i + 1] - m[i] else m[0] + MINUTES_PER_DAY - m[i])
  }

  function Largest(s: seq<int>): (x: int)
    requires |s| > 0
    ensures x in s && forall k :: 0 <= k < |s| ==> s[k] <= x
  {
    if |s| == 1 then s[0]
    else
      var rest := Largest(s[..|s| - 1]);
      assert s == s[..|s| - 1] + [s[|s| - 1]];
      assert forall k :: 0 <= k < |s| - 1 ==> s[k] == s[..|s| - 1][k];
      if rest >= s[|s| - 1] then rest else s[|s| - 1]
  }

  function Sum(s: seq<int>): int {
    if s == [] then 0 else Sum(s[..|s| - 1]) + s[|s| - 1]
  }

  /** The gaps of a day fill the day. */
  lemma {:induction false} GapsFillTheDay(m: seq<int>)
    requires |m| > 0
    ensures Sum(Gaps(m)) == MINUTES_PER_DAY
  {
    GapsTelescope(m, |m| - 1);
    var gaps := Gaps(m);
    assert gaps[..|gaps| - 1] == gaps[..|m| - 1];
  }

  lemma {:induction false} GapsTelescope(m: seq<int>, n: nat)
    requires n < |m|
    ensures Sum(Gaps(m)[..n]) == m[n] - m[0]
  {
    if n > 0 {
      GapsTelescope(m, n - 1);
      assert Gaps(m)[..n][..n - 1] == Gaps(m)[..n - 1];
    }
  }

  lemma {:induction false} SumBounded(s: seq<int>, bound: int)
    requires forall k :: 0 <= k < |s| ==> s[k] <= bound
    ensures Sum(s) <= |s| * bound
  {
    if s != [] {
      SumBounded(s[..|s| - 1], bound);
      assert |s| * bound == (|s| - 1) * bound + bound;
    }
  }

  ghost predicate DayTimes(m: seq<int>) {
    |m| > 0 && Ascending(m) && 0 <= m[0] && m[|m| - 1] < MINUTES_PER_DAY
  }

  /** x is a planned minute, counted from some midnight, of the daily times m. */
  ghost predicate RunsAt(m: seq<int>, x: int) {
    x % 1440 in m
  }

  lemma {:induction false} PlaceOf(m: seq<int>, r: int) returns (i: int)
    requires DayTimes(m) && 0 <= r
    ensures -1 <= i < |m| && (i >= 0 ==> m[i] <= r) && (i < |m| - 1 ==> r < m[i + 1])
  {
    i := |m| - 1;
    while i >= 0 && r < m[i]
      invariant -1 <= i < |m| && (i < |m| - 1 ==> r < m[i + 1])
    {
      i := i - 1;
    }
  }

  /** From every minute the next run is at most the largest gap away. */
  lemma {:induction false} NextRunWithinLargestGap(m: seq<int>, x: int)
    requires DayTimes(m)
    ensures exists y :: x < y <= x + Largest(Gaps(m)) && RunsAt(m, y)
  {
    var r, day := x % 1440, x - x % 1440;
    var i := PlaceOf(m, r);
    var y := if i < |m| - 1 then day + m[i + 1] else day + 1440 + m[0];
    var gaps := Gaps(m);
    assert i >= 0 ==> y - (day + m[i]) == gaps[i];
    assert i < 0 ==> y - x <= gaps[|m| - 1];
    assert y % 1440 == if i < |m| - 1 then m[i + 1] else m[0];
    assert RunsAt(m, y);
  }

  /** After minute x nothing runs for the given time. */
  ghost predicate QuietAfter(m: seq<int>, x: int, gap: int) {
    forall y :: x < y && RunsAt(m, y) ==> y >= x + gap
  }

  lemma {:induction false} QuietUntilNext(m: seq<int>, i: nat, y: int)
    requires DayTimes(m) && i < |m| && m[i] < y && RunsAt(m, y)
    ensures y >= m[i] + Gaps(m)[i]
  {
    var r := y % 1440;
    var j :| 0 <= j < |m| && m[j] == r;
    if i < j {
      assert m[i + 1] <= m[j];
      assert i + 1 < |m|;
    } else {
      // y lies on a later day
      assert m[j] <= m[i] && m[0] <= m[j];
      assert y >= 1440 + r;
      assert i < |m| - 1 ==> m[i + 1] <= m[|m| - 1];
    }
  }

  /** The bound is attained: after some run nothing happens for the largest gap. */
  lemma {:induction false} LargestGapAttained(m: seq<int>)
    requires DayTimes(m)
    ensures exists x :: RunsAt(m, x) && QuietAfter(m, x, Largest(Gaps(m)))
  {
    var largest := Largest(Gaps(m));
    var i :| 0 <= i < |m| && Gaps(m)[i] == largest;
    var x := m[i];
    assert x in m && x % 1440 == x by { assert m[0] <= m[i] <= m[|m| - 1]; }
    forall y | x < y && RunsAt(m, y) ensures y >= x + largest {
      QuietUntilNext(m, i, y);
    }
    assert RunsAt(m, x) && QuietAfter(m, x, largest);
  }

  // ---------------------------------------------------------------- the two figures in hours

  datatype Gap = Gap(largest: real, mean: real)

  /** The minutes the source reads off the fixed places of each time. */
  function ListedMinutes(times: seq<string>): (minutes: seq<int>)
    requires forall k :: 0 <= k < |times| ==> IsValidated(times[k])
    ensures |minutes| == |times|
  {
    seq(|times|, k requires 0 <= k < |times| => ShownMinute(times[k]))
  }

  function ShownMinute(t: string): int
    requires IsValidated(t)
  {
    HalvesAreNumbers(t);
    60 * IntLiteral(t[..2]).value + IntLiteral(t[3..5]).value
  }

  lemma {:induction false} HalvesAreNumbers(t: string)
    requires IsValidated(t)
    ensures IsTimeOfDay(t) && IntLiteral(t[..2]).Some? && IntLiteral(t[3..5]).Some?
    ensures 60 * IntLiteral(t[..2]).value + IntLiteral(t[3..5]).value == MinuteOfDay(t)
  {
    ValidatedIsTimeOfDay(t);
    HalvesOfValidated(t);
    DigitsAreNumber(t, 0, t[..2]);
    DigitsAreNumber(t, 3, t[3..5]);
  }

  lemma {:induction false} DigitsAreNumber(t: string, k: nat, half: string)
    requires k + 1 < |t| && half == t[k..k + 2] && IsDigit(t[k]) && IsDigit(t[k + 1])
    ensures IntLiteral(half) == Some(TwoDigits(t, k))
  {
    TwoDigitsOfSlice(t, k, half);
    TwoDigitLiteral(half);
  }

  function GapHours(s: Schedule): Gap
    requires ValidTimes(s)
  {
    match s.kind
    case Weekly => Gap(168.0, 168.0)
    case Monthly => Gap(744.0, 730.0)
    case _ => GapOfTimes(SortedDistinct(ListedMinutes(s.times)))
  }

  function Figures(count: int, largest: int): Gap {
    if count <= 1 then Gap(24.0, 24.0) else Gap(largest as real / 60.0, 24.0 / count as real)
  }

  function GapOfTimes(m: seq<int>): Gap {
    Figures(|m|, if m == [] then 0 else Largest(Gaps(m)))
  }

  /** A schedule that fires every day at its times. */
  ghost predicate EveryDay(s: Schedule) {
    s.kind.Hourly? || s.kind.Daily?
  }

  /** The scheduler starts at exactly the minutes the figures are computed from. */
  lemma {:induction false} ListedMinutesAreRead(s: Schedule)
    requires ValidTimes(s)
    ensures Plannable(s) && MinutesOf(s.times) == ListedMinutes(s.times)
  {
    ValidTimesArePlannable(s);
    var readings, listed := Readings(s.times), ListedMinutes(s.times);
    forall k | 0 <= k < |listed| ensures readings[k].Some? && MinuteOf(readings[k].value) == listed[k] {
      HalvesAreNumbers(s.times[k]);
    }
    AllRead(readings, listed);
  }

  lemma {:induction false} AllRead(readings: seq<Option<ClockTime>>, minutes: seq<int>)
    requires AllOfADay(readings) && |minutes| == |readings|
    requires forall k :: 0 <= k < |readings| ==> readings[k].Some? && MinuteOf(readings[k].value) == minutes[k]
    ensures MinutesIn(readings) == minutes
  {
    if readings != [] {
      var n := |readings| - 1;
      AllRead(readings[..n], minutes[..n]);
    }
  }

  /** Validated times are times of a day. */
  lemma {:induction false} TimesAreDayTimes(s: Schedule)
    requires ValidTimes(s) && s.times != []
    ensures DayTimes(SortedDistinct(ListedMinutes(s.times)))
  {
    ListedMinutesAreRead(s);
    var minutes, m := ListedMinutes(s.times), SortedDistinct(ListedMinutes(s.times));
    SortedDistinctAscending(minutes);
    assert minutes[0] in m;
    forall k | 0 <= k < |m| ensures 0 <= m[k] < 1440 {
      var x := m[k];
      assert x in minutes;
    }
  }

  /** So many gaps, none longer than the largest, can fill the day. */
  ghost predicate CanFillTheDay(count: int, largest: int) {
    count >= 1 && count * largest >= MINUTES_PER_DAY && (count == 1 ==> largest == MINUTES_PER_DAY)
  }

  lemma {:induction false} LargestFillsTheDay(m: seq<int>)
    requires |m| > 0
    ensures CanFillTheDay(|m|, Largest(Gaps(m)))
  {
    var gaps := Gaps(m);
    GapsFillTheDay(m);
    SumBounded(gaps, Largest(gaps));
  }

  /** The largest gap in hours, and a mean that makes so many runs a day. */
  ghost predicate ExactFigures(g: Gap, count: int, largest: int) {
    g.largest * 60.0 == largest as real && g.mean * count as real == 24.0 && g.mean <= g.largest
  }

  lemma {:induction false} FiguresAreExact(count: int, largest: int)
    requires CanFillTheDay(count, largest)
    ensures ExactFigures(Figures(count, largest), count, largest)
  {
    if count > 1 {
      assert count as real * largest as real == (count * largest) as real;
      MeanBelowLargest(count as real, largest as real);
    }
  }

  /** The largest gap is exact, and the mean times the number of runs is the day. */
  lemma {:induction false} GapOfTimesIsExact(m: seq<int>)
    requires |m| > 0
    ensures ExactFigures(GapOfTimes(m), |m|, Largest(Gaps(m)))
  {
    var count, largest := |m|, Largest(Gaps(m));
    LargestFillsTheDay(m);
    FiguresAreExact(count, largest);
    assert GapOfTimes(m) == Figures(count, largest);
  }

  lemma {:induction false} MeanBelowLargest(n: real, largest: real)
    requires n >= 1.0 && n * largest >= 1440.0
    ensures 24.0 / n * n == 24.0 && 24.0 / n <= largest / 60.0
  {
    var mean := 24.0 / n;
    assert mean * n == 24.0;
    if mean > largest / 60.0 {
      assert mean * n > largest / 60.0 * n;
      assert largest / 60.0 * n == n * largest / 60.0;
    }
  }

  // ---------------------------------------------------------------- the figures and the scheduler

  lemma {:induction false} InstantOfMinute(day: int, minute: int, u: int)
    requires 0 <= minute < MINUTES_PER_DAY
    ensures u == InstantAt(day, minute)
       <==> DayOf(u) == day && u % 60_000_000 == 0 && (u / 60_000_000) % 1440 == minute
  {
  }

  /** A schedule of every day starts at an instant exactly if its minute is listed. */
  lemma {:induction false} StartsAtListedMinutes(cal: Calendar, s: Schedule, u: int)
    requires Plannable(s) && EveryDay(s)
    ensures Hits(cal, s, u) > 0 <==> u % 60_000_000 == 0 && (u / 60_000_000) % 1440 in MinutesOf(s.times)
  {
    var minutes, day := MinutesOf(s.times), DayOf(u);
    if Named(minutes, day, u) > 0 {
      var k := NamedAtAll(minutes, day, u);
      InstantOfMinute(day, minutes[k], u);
    }
    if u % 60_000_000 == 0 && (u / 60_000_000) % 1440 in minutes {
      var k :| 0 <= k < |minutes| && minutes[k] == (u / 60_000_000) % 1440;
      InstantOfMinute(day, minutes[k], u);
      NamedWithoutOne(minutes, k, day, u);
    }
  }

  lemma {:induction false} StartsAtDistinctMinutes(cal: Calendar, s: Schedule, u: int)
    requires ValidTimes(s) && EveryDay(s)
    ensures Plannable(s)
    ensures Hits(cal, s, u) > 0
       <==> u % 60_000_000 == 0 && RunsAt(SortedDistinct(ListedMinutes(s.times)), u / 60_000_000)
  {
    ListedMinutesAreRead(s);
    StartsAtListedMinutes(cal, s, u);
    SortedDistinctAscending(ListedMinutes(s.times));
  }

  lemma {:induction false} HoursOfMinutes(hours: real, minutes: int)
    requires hours * 60.0 == minutes as real
    ensures hours * 3_600_000_000.0 == (minutes * 60_000_000) as real
  {
    assert hours * 3_600_000_000.0 == (hours * 60.0) * 60_000_000.0;
  }

  /** The reported gap, as a number of instants. */
  lemma {:induction false} GapInInstants(s: Schedule)
    requires ValidTimes(s) && s.times != [] && EveryDay(s)
    ensures DayTimes(SortedDistinct(ListedMinutes(s.times)))
    ensures
      var m := SortedDistinct(ListedMinutes(s.times));
      GapHours(s).largest * 3_600_000_000.0 == (Largest(Gaps(m)) * 60_000_000) as real
  {
    var m := SortedDistinct(ListedMinutes(s.times));
    TimesAreDayTimes(s);
    GapOfTimesIsExact(m);
    HoursOfMinutes(GapOfTimes(m).largest, Largest(Gaps(m)));
  }

  lemma {:induction false} WholeMinute(y: int)
    ensures (y * 60_000_000) % 60_000_000 == 0 && (y * 60_000_000) / 60_000_000 == y
  {
  }

  lemma {:induction false} NextInstant(m: seq<int>, t: int) returns (u: int)
    requires DayTimes(m)
    ensures u % 60_000_000 == 0 && RunsAt(m, u / 60_000_000)
    ensures 0 < u - t <= Largest(Gaps(m)) * 60_000_000
  {
    var x := t / 60_000_000;
    NextRunWithinLargestGap(m, x);
    var y :| x < y <= x + Largest(Gaps(m)) && RunsAt(m, y);
    u := y * 60_000_000;
    WholeMinute(y);
  }

  /** From every instant the scheduler's next start is at most the reported gap away. */
  lemma {:induction false} NextStartWithinGap(cal: Calendar, s: Schedule, t: int) returns (u: int)
    requires ValidTimes(s) && s.times != [] && EveryDay(s)
    ensures Plannable(s) && Hits(cal, s, u) > 0
    ensures 0 < u - t && (u - t) as real <= GapHours(s).largest * 3_600_000_000.0
  {
    GapInInstants(s);
    u := NextInstant(SortedDistinct(ListedMinutes(s.times)), t);
    StartsAtDistinctMinutes(cal, s, u);
  }

  lemma {:induction false} QuietInstants(m: seq<int>, x: int, gap: int, u: int)
    requires QuietAfter(m, x, gap) && x * 60_000_000 < u && u % 60_000_000 == 0 && RunsAt(m, u / 60_000_000)
    ensures u - x * 60_000_000 >= gap * 60_000_000
  {
    var y := u / 60_000_000;
    assert x < y && u == y * 60_000_000;
    assert y >= x + gap;
  }

  /** And after some start nothing is started for the reported gap. */
  lemma {:induction false} GapIsReached(cal: Calendar, s: Schedule) returns (t: int)
    requires ValidTimes(s) && s.times != [] && EveryDay(s)
    ensures Plannable(s) && Hits(cal, s, t) > 0
    ensures forall u :: t < u && Hits(cal, s, u) > 0 ==> (u - t) as real >= GapHours(s).largest * 3_600_000_000.0
  {
    var m := SortedDistinct(ListedMinutes(s.times));
    GapInInstants(s);
    LargestGapAttained(m);
    var x :| RunsAt(m, x) && QuietAfter(m, x, Largest(Gaps(m)));
    t := x * 60_000_000;
    WholeMinute(x);
    StartsAtDistinctMinutes(cal, s, t);
    forall u | t < u && Hits(cal, s, u) > 0 ensures u - t >= Largest(Gaps(m)) * 60_000_000 {
      StartsAtDistinctMinutes(cal, s, u);
      QuietInstants(m, x, Largest(Gaps(m)), u);
    }
  }

  // ---------------------------------------------------------------- weekly schedules

  /** A weekly schedule that fires at all. */
  ghost predicate OnceAWeek(s: Schedule) {
    s.kind.Weekly? && s.weekday.Some? && 0 <= s.weekday.value < 7
  }

  /** A schedule starts at an instant exactly if it fires on the day and the minute is
      one of its minutes. */
  lemma {:induction false} StartsAtMinutes(cal: Calendar, s: Schedule, day: int, minute: int)
    requires Plannable(s) && 0 <= minute < MINUTES_PER_DAY
    ensures Hits(cal, s, InstantAt(day, minute)) > 0 <==> FiresOn(cal, s, day) && minute in MinutesOf(s.times)
  {
    var minutes, u := MinutesOf(s.times), InstantAt(day, minute);
    InstantIsOnItsDay(day, minute);
    InstantOfMinute(day, minute, u);
    if Named(minutes, day, u) > 0 {
      var k := NamedAtAll(minutes, day, u);
      InstantOfMinute(day, minutes[k], u);
    }
    if minute in minutes {
      var k :| 0 <= k < |minutes| && minutes[k] == minute;
      NamedWithoutOne(minutes, k, day, u);
    }
  }

  lemma {:induction false} PlaceOfStart(cal: Calendar, s: Schedule, t: int) returns (day: int, minute: int)
    requires Plannable(s) && Hits(cal, s, t) > 0
    ensures t == InstantAt(day, minute) && FiresOn(cal, s, day) && minute in MinutesOf(s.times)
  {
    day := DayOf(t);
    var k := NamedAtAll(MinutesOf(s.times), day, t);
    minute := MinutesOf(s.times)[k];
  }

  /** The first instant of the given minute on the given weekday after t. */
  lemma {:induction false} NextOnWeekday(weekday: int, minute: int, t: int) returns (day: int)
    requires 0 <= weekday < 7 && 0 <= minute < 1440
    ensures WeekdayOf(day) == weekday && 0 < InstantAt(day, minute) - t <= 7 * 86_400_000_000
  {
    var today := DayOf(t);
    day := today + (weekday - today - 3) % 7;
    if InstantAt(day, minute) <= t { day := day + 7; }
  }

  lemma {:induction false} WeeklyStart(cal: Calendar, s: Schedule, minute: int, t: int) returns (u: int)
    requires OnceAWeek(s) && Plannable(s) && minute in MinutesOf(s.times)
    ensures Hits(cal, s, u) > 0 && 0 < u - t <= 7 * 86_400_000_000
    ensures exists day :: u == InstantAt(day, minute)
  {
    var day := NextOnWeekday(s.weekday.value, minute, t);
    u := InstantAt(day, minute);
    StartsAtMinutes(cal, s, day, minute);
  }

  /** From every instant the next start of a weekly schedule is at most the reported
      gap away. */
  lemma {:induction false} NextWeeklyStartWithinGap(cal: Calendar, s: Schedule, t: int) returns (u: int)
    requires ValidTimes(s) && s.times != [] && OnceAWeek(s)
    ensures Plannable(s) && Hits(cal, s, u) > 0
    ensures 0 < u - t && (u - t) as real <= GapHours(s).largest * 3_600_000_000.0
  {
    ListedMinutesAreRead(s);
    u := WeeklyStart(cal, s, MinutesOf(s.times)[0], t);
  }

  /** All times are read alike. */
  ghost predicate OneTimeOnly(s: Schedule)
    requires Plannable(s)
  {
    forall a, b :: a in MinutesOf(s.times) && b in MinutesOf(s.times) ==> a == b
  }

  lemma {:induction false} WholeWeeks(a: int, b: int, minute: int)
    requires WeekdayOf(a) == WeekdayOf(b) && InstantAt(a, minute) < InstantAt(b, minute)
    ensures InstantAt(b, minute) - InstantAt(a, minute) >= 7 * 86_400_000_000
  {
    assert (b - a) % 7 == 0 && b > a;
  }

  lemma {:induction false} OtherMinuteIsSooner(a: int, b: int, m: int, n: int)
    requires 0 <= m < 1440 && 0 <= n < 1440 && m != n && InstantAt(b, n) - InstantAt(a, m) <= 7 * 86_400_000_000
    ensures InstantAt(b, n) - InstantAt(a, m) < 7 * 86_400_000_000
  {
  }

  /** With two times, every start is followed by another one within the week. */
  lemma {:induction false} StartWithinTheWeek(cal: Calendar, s: Schedule, t: int) returns (u: int)
    requires OnceAWeek(s) && Plannable(s) && Hits(cal, s, t) > 0 && !OneTimeOnly(s)
    ensures Hits(cal, s, u) > 0 && 0 < u - t < 7 * 86_400_000_000
  {
    var today, minute := PlaceOfStart(cal, s, t);
    var a, b :| a in MinutesOf(s.times) && b in MinutesOf(s.times) && a != b;
    var other := if a != minute then a else b;
    u := WeeklyStart(cal, s, other, t);
    var day :| u == InstantAt(day, other);
    OtherMinuteIsSooner(today, day, minute, other);
  }

  /** With one time, nothing follows a start for a week. */
  lemma {:induction false} QuietForAWeek(cal: Calendar, s: Schedule, t: int, u: int)
    requires OnceAWeek(s) && Plannable(s) && Hits(cal, s, t) > 0 && Hits(cal, s, u) > 0 && OneTimeOnly(s) && t < u
    ensures u - t >= 7 * 86_400_000_000
  {
    var a, m := PlaceOfStart(cal, s, t);
    var b, n := PlaceOfStart(cal, s, u);
    WholeWeeks(a, b, m);
  }

  /** From t on nothing is started for the whole reported gap. */
  ghost predicate QuietForGap(cal: Calendar, s: Schedule, t: int)
    requires Plannable(s) && ValidTimes(s)
  {
    forall u :: t < u && Hits(cal, s, u) > 0 ==> (u - t) as real >= GapHours(s).largest * 3_600_000_000.0
  }

  /** After some start a weekly schedule is quiet for the whole reported gap exactly if
      all its times are read alike; with two times the gap is too large. */
  lemma {:induction false} WeeklyGapReachedIffOneTime(cal: Calendar, s: Schedule)
    requires ValidTimes(s) && Plannable(s) && s.times != [] && OnceAWeek(s)
    ensures (exists t :: Hits(cal, s, t) > 0 && QuietForGap(cal, s, t)) <==> OneTimeOnly(s)
  {
    if OneTimeOnly(s) {
      var t := NextWeeklyStartWithinGap(cal, s, 0);
      forall u | t < u && Hits(cal, s, u) > 0 ensures (u - t) as real >= GapHours(s).largest * 3_600_000_000.0 {
        QuietForAWeek(cal, s, t, u);
      }
      assert QuietForGap(cal, s, t);
    } else {
      forall t | Hits(cal, s, t) > 0 ensures !QuietForGap(cal, s, t) {
        var u := StartWithinTheWeek(cal, s, t);
        assert (u - t) as real < GapHours(s).largest * 3_600_000_000.0;
      }
    }
  }

  // ---------------------------------------------------------------- monthly schedules

  // Months are numbered from year 0 January; day 0 is the first day of month 0.

  ghost function LeapYear(year: int): bool {
    year % 4 == 0 && (year % 100 != 0 || year % 400 == 0)
  }

  ghost function MonthLength(month: nat): (days: nat)
    ensures 28 <= days <= 31
  {
    var year, m := month / 12, month % 12;
    if m == 1 then (if LeapYear(year) then 29 else 28)
    else if m == 3 || m == 5 || m == 8 || m == 10 then 30 else 31
  }

  ghost function FirstDayOf(month: nat): nat {
    if month == 0 then 0 else FirstDayOf(month - 1) + MonthLength(month - 1)
  }

  /** The run of a monthly schedule; months without that day have none. */
  ghost predicate MonthlyRun(day: nat, month: nat, at: nat) {
    1 <= day <= MonthLength(month) && at == FirstDayOf(month) + day - 1
  }

  /** Day `later` comes after day `at`, by no more than so many hours. */
  ghost predicate FollowsWithin(at: int, later: int, hours: real) {
    at < later && (later - at) as real * 24.0 <= hours
  }

  /** The mean of monthly schedules is a twelfth of a year of 365 days, that of weekly
      ones a week; without any time a day is assumed. */
  lemma {:induction false} AssumedMeans(s: Schedule)
    requires ValidTimes(s)
    ensures s.kind.Monthly? ==> GapHours(s).mean * 12.0 == 24.0 * 365.0
    ensures s.kind.Weekly? ==> GapHours(s).mean == 24.0 * 7.0
    ensures EveryDay(s) && s.times == [] ==> GapHours(s) == Gap(24.0, 24.0)
  {
  }

  lemma {:induction false} MonthsFollow(a: nat, b: nat)
    requires a <= b
    ensures FirstDayOf(a) <= FirstDayOf(b)
  {
    if a < b { MonthsFollow(a, b - 1); }
  }

  /** The 744 hours assumed between monthly runs are an upper bound exactly for
      days that every month has; from the 29th on, February is skipped. */
  lemma {:induction false} MonthlyGapIffShortDay(s: Schedule, day: nat)
    requires s.kind.Monthly? && ValidTimes(s) && 1 <= day <= 31
    ensures (forall month: nat, at: nat :: MonthlyRun(day, month, at) ==>
               exists next: nat, later: nat ::
                   MonthlyRun(day, next, later) && FollowsWithin(at, later, GapHours(s).largest))
       <==> day <= 28
  {
    if day <= 28 {
      forall month: nat, at: nat | MonthlyRun(day, month, at)
        ensures exists next: nat, later: nat ::
                  MonthlyRun(day, next, later) && FollowsWithin(at, later, GapHours(s).largest)
      {
        assert MonthlyRun(day, month + 1, FirstDayOf(month + 1) + day - 1);
      }
    } else {
      // January of year 1: February of that year has 28 days
      var at := FirstDayOf(12) + day - 1;
      assert MonthLength(12) == 31 && MonthLength(13) == 28;
      assert MonthlyRun(day, 12, at);
      assert FirstDayOf(13) == FirstDayOf(12) + MonthLength(12) && FirstDayOf(14) == FirstDayOf(13) + MonthLength(13);
      forall next: nat, later: nat | MonthlyRun(day, next, later) && at < later
        ensures !FollowsWithin(at, later, GapHours(s).largest)
      {
        if next <= 12 { MonthsFollow(next, 12); } else { MonthsFollow(14, next); }
      }
    }
  }

  /** For a day that every month has, the gap is reached after every month of 31 days. */
  lemma {:induction false} MonthlyGapIsReached(s: Schedule, day: nat, month: nat)
    requires s.kind.Monthly? && ValidTimes(s) && 1 <= day <= 28 && MonthLength(month) == 31
    ensures
      var at := FirstDayOf(month) + day - 1;
      && MonthlyRun(day, month, at)
      && forall next: nat, later: nat :: MonthlyRun(day, next, later) && at < later ==>
           (later - at) as real * 24.0 >= GapHours(s).largest
  {
    var at := FirstDayOf(month) + day - 1;
    assert FirstDayOf(month + 1) == FirstDayOf(month) + 31;
    forall next: nat, later: nat | MonthlyRun(day, next, later) && at < later ensures later - at >= 31 {
      if next <= month { MonthsFollow(next, month); } else { MonthsFollow(month + 1, next); }
    }
  }
}
