/** The planned instants of a schedule inside a half-open window (from, to]. */
module Occurrences {
  import opened Wrappers
  import opened ClockTimes
  import opened Texts
  import opened Schedules

  // Instants are microseconds on one clock; day 0 is a Thursday. A minute has
  // 60_000_000 of them and a day 86_400_000_000.

  /** The day of the month of each day number; the proofs hold for any. */
  type Calendar = int -> int

  function WeekdayOf(day: int): int {
    (day + 3) % 7
  }

  predicate FiresOn(cal: Calendar, s: Schedule, day: int) {
    match s.kind
    case Weekly => s.weekday == Some(WeekdayOf(day))
    case Monthly => s.dayOfMonth == Some(cal(day))
    case _ => true
  }

  function InsertText(sorted: seq<string>, x: string): (r: seq<string>)
    ensures multiset(r) == multiset(sorted) + multiset{x}
  {
    if sorted == [] || TextLe(sorted[|sorted| - 1], x) then sorted + [x]
    else
      assert sorted == sorted[..|sorted| - 1] + [sorted[|sorted| - 1]];
      InsertText(sorted[..|sorted| - 1], x) + [sorted[|sorted| - 1]]
  }

  function SortedTexts(times: seq<string>): (r: seq<string>)
    ensures multiset(r) == multiset(times)
  {
    if times == [] then []
    else
      assert times == times[..|times| - 1] + [times[|times| - 1]];
      InsertText(SortedTexts(times[..|times| - 1]), times[|times| - 1])
  }

  /** The minutes the readable times name, in their order. */
  function MinutesIn(readings: seq<Option<ClockTime>>): (minutes: seq<int>)
    requires AllOfADay(readings)
    ensures MinutesOfADay(minutes)
  {
    if readings == [] then []
    else
      var n := |readings| - 1;
      MinutesIn(readings[..n]) + if readings[n].Some? then [MinuteOf(readings[n].value)] else []
  }

  function MinutesOf(times: seq<string>): (minutes: seq<int>)
    requires PlannableTimes(times)
    ensures MinutesOfADay(minutes)
  {
    MinutesIn(Readings(times))
  }

  predicate MinutesOfADay(minutes: seq<int>) {
    forall k :: 0 <= k < |minutes| ==> 0 <= minutes[k] < MINUTES_PER_DAY
  }

  function InstantAt(day: int, minute: int): int {
    day * 86_400_000_000 + minute * 60_000_000
  }

  lemma {:induction false} InstantIsOnItsDay(day: int, minute: int)
    requires 0 <= minute < MINUTES_PER_DAY
    ensures DayOf(InstantAt(day, minute)) == day
  {
  }

  /** The instants of one day that fall into the window. */
  function OnDay(minutes: seq<int>, day: int, from: int, to: int): seq<int> {
    if minutes == [] then []
    else
      var t := InstantAt(day, minutes[|minutes| - 1]);
      OnDay(minutes[..|minutes| - 1], day, from, to) + (if from < t <= to then [t] else [])
  }

  function IfFiring(cal: Calendar, s: Schedule, minutes: seq<int>, day: int, from: int, to: int): seq<int> {
    if FiresOn(cal, s, day) then OnDay(minutes, day, from, to) else []
  }

  function EachDay(cal: Calendar, s: Schedule, minutes: seq<int>, from: int, to: int): int -> seq<int> {
    day => IfFiring(cal, s, minutes, day, from, to)
  }

  /** What the first `days` days from `first` bring. */
  function DaysFrom(ofDay: int -> seq<int>, first: int, days: nat): seq<int> {
    if days == 0 then [] else DaysFrom(ofDay, first, days - 1) + ofDay(first + days - 1)
  }

  /** The instants of the first `days` days from `first`. */
  function OnDays(cal: Calendar, s: Schedule, minutes: seq<int>, from: int, to: int, first: int, days: nat): seq<int> {
    DaysFrom(EachDay(cal, s, minutes, from, to), first, days)
  }

  lemma {:induction false} OfADayPermuted(a: seq<Option<ClockTime>>, b: seq<Option<ClockTime>>)
    requires AllOfADay(a) && multiset(b) <= multiset(a)
    ensures AllOfADay(b)
  {
    forall k | 0 <= k < |b| && b[k].Some? ensures OfADay(b[k].value) {
      assert b[k] in multiset(b);
      assert b[k] in multiset(a);
      var j :| 0 <= j < |a| && a[j] == b[k];
    }
  }

  lemma {:induction false} SortedTimesPlannable(times: seq<string>)
    requires PlannableTimes(times)
    ensures PlannableTimes(SortedTexts(times))
    ensures multiset(Readings(SortedTexts(times))) == multiset(Readings(times))
  {
    ImagesPermuted(SortedTexts(times), times, Readings(SortedTexts(times)), Readings(times), ParseTime);
    OfADayPermuted(Readings(times), Readings(SortedTexts(times)));
  }

  lemma {:induction false} DayOfMonotone(a: int, b: int)
    requires a <= b
    ensures DayOf(a) <= DayOf(b)
  {
  }

  /** The days a window touches; none if it ends on an earlier day than it begins. */
  function SpanOf(from: int, to: int): nat {
    if DayOf(from) <= DayOf(to) then DayOf(to) - DayOf(from) + 1 else 0
  }

  function PlannedInstants(cal: Calendar, s: Schedule, from: int, to: int): seq<int>
    requires Plannable(s)
  {
    SortedTimesPlannable(s.times);
    OnDays(cal, s, MinutesOf(SortedTexts(s.times)), from, to, DayOf(from), SpanOf(from, to))
  }

  lemma {:induction false} OneMoreReading(readings: seq<Option<ClockTime>>, k: nat, day: int, from: int, to: int)
    requires AllOfADay(readings) && k < |readings|
    ensures AllOfADay(readings[..k + 1]) && AllOfADay(readings[..k])
    ensures OnDay(MinutesIn(readings[..k + 1]), day, from, to)
         == OnDay(MinutesIn(readings[..k]), day, from, to)
            + if readings[k].Some? && from < InstantAt(day, MinuteOf(readings[k].value)) <= to
              then [InstantAt(day, MinuteOf(readings[k].value))] else []
  {
    assert readings[..k + 1][..k] == readings[..k];
    if readings[k].Some? {
      var minutes := MinutesIn(readings[..k]);
      assert (minutes + [MinuteOf(readings[k].value)])[..|minutes|] == minutes;
    } else {
      assert MinutesIn(readings[..k + 1]) == MinutesIn(readings[..k]);
    }
  }

  method TimesIfFiring(cal: Calendar, s: Schedule, times: seq<string>, day: int, from: int, to: int)
    returns (occurrences: seq<int>)
    requires PlannableTimes(times)
    ensures occurrences == IfFiring(cal, s, MinutesOf(times), day, from, to)
  {
    occurrences := [];
    if !FiresOn(cal, s, day) { return; }
    ghost var readings := Readings(times);
    for k := 0 to |times|
      invariant AllOfADay(readings[..k])
      invariant occurrences == OnDay(MinutesIn(readings[..k]), day, from, to)
    {
      OneMoreReading(readings, k, day, from, to);
      var reading := ParseTime(times[k]);
      assert reading == readings[k];
      match reading {
        case None =>
        case Some(t) =>
          var candidate := InstantAt(day, MinuteOf(t));
          if from < candidate <= to {
            occurrences := occurrences + [candidate];
          }
      }
    }
    assert readings[..|times|] == readings;
  }

  lemma {:induction false} SpanReached(from: int, to: int, days: nat)
    requires days == 0 || DayOf(from) + days - 1 <= DayOf(to)
    requires DayOf(from) + days > DayOf(to)
    ensures days == SpanOf(from, to)
  {}

  lemma {:induction false} NextDay(cal: Calendar, s: Schedule, minutes: seq<int>, from: int, to: int, first: int,
                                   days: nat)
    ensures OnDays(cal, s, minutes, from, to, first, days + 1)
         == OnDays(cal, s, minutes, from, to, first, days) + IfFiring(cal, s, minutes, first + days, from, to)
  {}

  /** Appends what one more day brings. */
  method AppendDay(cal: Calendar, s: Schedule, times: seq<string>, from: int, to: int, first: int, days: nat,
                   before: seq<int>)
    returns (occurrences: seq<int>)
    requires PlannableTimes(times) && before == OnDays(cal, s, MinutesOf(times), from, to, first, days)
    ensures occurrences == OnDays(cal, s, MinutesOf(times), from, to, first, days + 1)
  {
    var ofDay := TimesIfFiring(cal, s, times, first + days, from, to);
    NextDay(cal, s, MinutesOf(times), from, to, first, days);
    occurrences := before + ofDay;
  }

  /** Day by day from `first`, for the span plus one day of slack, but not past
      `last`; then time by time. */
  method DayByDay(cal: Calendar, s: Schedule, times: seq<string>, from: int, to: int, first: int, last: int)
    returns (occurrences: seq<int>, ghost days: nat)
    requires PlannableTimes(times)
    ensures occurrences == OnDays(cal, s, MinutesOf(times), from, to, first, days)
    ensures (days == 0 || first + days - 1 <= last) && first + days > last
  {
    var daySpan := last - first + 1;
    occurrences := [];
    var dayOffset := 0;
    while dayOffset < daySpan + 1
      invariant 0 <= dayOffset && (dayOffset == 0 || first + dayOffset - 1 <= last)
      invariant occurrences == OnDays(cal, s, MinutesOf(times), from, to, first, dayOffset)
    {
      if first + dayOffset > last { break; }
      occurrences := AppendDay(cal, s, times, from, to, first, dayOffset, occurrences);
      dayOffset := dayOffset + 1;
    }
    days := dayOffset;
  }

  method TimesOnDays(cal: Calendar, s: Schedule, times: seq<string>, from: int, to: int) returns (occurrences: seq<int>)
    requires PlannableTimes(times)
    ensures occurrences == OnDays(cal, s, MinutesOf(times), from, to, DayOf(from), SpanOf(from, to))
  {
    ghost var days;
    occurrences, days := DayByDay(cal, s, times, from, to, DayOf(from), DayOf(to));
    SpanReached(from, to, days);
  }

  method OccurrencesWithin(cal: Calendar, s: Schedule, from: int, to: int) returns (occurrences: seq<int>)
    requires Plannable(s)
    ensures occurrences == PlannedInstants(cal, s, from, to)
  {
    SortedTimesPlannable(s.times);
    occurrences := TimesOnDays(cal, s, SortedTexts(s.times), from, to);
  }

  // ---------------------------------------------------------------- how often an instant is planned

  /** How many of the minutes name the instant t of the given day. */
  function Named(minutes: seq<int>, day: int, t: int): nat {
    if minutes == [] then 0
    else Named(minutes[..|minutes| - 1], day, t) + (if InstantAt(day, minutes[|minutes| - 1]) == t then 1 else 0)
  }

  /** How many configured times of a schedule name the instant t. */
  function HitsOf(cal: Calendar, s: Schedule, minutes: seq<int>, t: int): nat {
    if FiresOn(cal, s, DayOf(t)) then Named(minutes, DayOf(t), t) else 0
  }

  function Hits(cal: Calendar, s: Schedule, t: int): nat
    requires Plannable(s)
  {
    HitsOf(cal, s, MinutesOf(s.times), t)
  }

  lemma {:induction false} OnDayMultiplicity(minutes: seq<int>, day: int, from: int, to: int, t: int)
    ensures multiset(OnDay(minutes, day, from, to))[t] == if from < t <= to then Named(minutes, day, t) else 0
  {
    if minutes != [] {
      OnDayMultiplicity(minutes[..|minutes| - 1], day, from, to, t);
    }
  }

  lemma {:induction false} NamedOnlyOnItsDay(minutes: seq<int>, day: int, t: int)
    requires MinutesOfADay(minutes) && day != DayOf(t)
    ensures Named(minutes, day, t) == 0
  {
    if minutes != [] {
      NamedOnlyOnItsDay(minutes[..|minutes| - 1], day, t);
      InstantIsOnItsDay(day, minutes[|minutes| - 1]);
    }
  }

  lemma {:induction false} IfFiringMultiplicity(cal: Calendar, s: Schedule, minutes: seq<int>, day: int, from: int,
                                                to: int, t: int)
    requires MinutesOfADay(minutes)
    ensures multiset(IfFiring(cal, s, minutes, day, from, to))[t]
         == if from < t <= to && DayOf(t) == day then HitsOf(cal, s, minutes, t) else 0
  {
    OnDayMultiplicity(minutes, day, from, to, t);
    if day != DayOf(t) { NamedOnlyOnItsDay(minutes, day, t); }
  }

  /** An instant planned only on day d is counted once the span reaches that day. */
  lemma {:induction false} DaysMultiplicity(ofDay: int -> seq<int>, first: int, days: nat, t: int, d: int, hits: nat)
    requires forall day :: multiset(ofDay(day))[t] == if day == d then hits else 0
    ensures multiset(DaysFrom(ofDay, first, days))[t] == if first <= d < first + days then hits else 0
  {
    if days > 0 {
      DaysMultiplicity(ofDay, first, days - 1, t, d, hits);
    }
  }

  lemma {:induction false} WithoutEarlier<T>(s: seq<T>, k: nat)
    requires k < |s| - 1
    ensures
      var n, fewer := |s| - 1, s[..k] + s[k + 1..];
      |fewer| == n && fewer[..n - 1] == s[..n][..k] + s[..n][k + 1..] && fewer[n - 1] == s[n]
  {}

  lemma {:induction false} NamedWithoutOne(minutes: seq<int>, k: nat, day: int, t: int)
    requires k < |minutes|
    ensures Named(minutes, day, t)
         == Named(minutes[..k] + minutes[k + 1..], day, t) + (if InstantAt(day, minutes[k]) == t then 1 else 0)
    decreases |minutes|
  {
    var n := |minutes| - 1;
    if k == n {
      assert minutes[..k] + minutes[k + 1..] == minutes[..n];
    } else {
      NamedWithoutOne(minutes[..n], k, day, t);
      WithoutEarlier(minutes, k);
    }
  }

  lemma {:induction false} NamedPermuted(a: seq<int>, b: seq<int>, day: int, t: int)
    requires multiset(a) == multiset(b)
    ensures Named(a, day, t) == Named(b, day, t)
    decreases |a|
  {
    assert |a| == |multiset(a)| == |multiset(b)| == |b|;
    if |a| > 0 {
      var i := |a| - 1;
      var k := RemoveFromBoth(a, i, b);
      NamedWithoutOne(a, i, day, t);
      NamedWithoutOne(b, k, day, t);
      NamedPermuted(a[..i] + a[i + 1..], b[..k] + b[k + 1..], day, t);
    }
  }

  lemma {:induction false} MinutesOfTwo(a: seq<Option<ClockTime>>, b: seq<Option<ClockTime>>)
    requires AllOfADay(a) && AllOfADay(b)
    ensures AllOfADay(a + b) && MinutesIn(a + b) == MinutesIn(a) + MinutesIn(b)
  {
    if b == [] {
      assert a + b == a;
    } else {
      var n := |b| - 1;
      assert (a + b)[..|a + b| - 1] == a + b[..n];
      MinutesOfTwo(a, b[..n]);
    }
  }

  /** The multiset of minutes does not depend on the order of the times. */
  lemma {:induction false} MinutesPermuted(a: seq<Option<ClockTime>>, b: seq<Option<ClockTime>>)
    requires AllOfADay(a) && AllOfADay(b) && multiset(a) == multiset(b)
    ensures multiset(MinutesIn(a)) == multiset(MinutesIn(b))
    decreases |a|
  {
    assert |a| == |multiset(a)| == |multiset(b)| == |b|;
    if |a| > 0 {
      var i := |a| - 1;
      var k := RemoveFromBoth(a, i, b);
      MinutesWithoutOne(a, i);
      MinutesWithoutOne(b, k);
      MinutesPermuted(a[..i] + a[i + 1..], b[..k] + b[k + 1..]);
    }
  }

  lemma {:induction false} MinutesWithoutOne(a: seq<Option<ClockTime>>, k: nat)
    requires AllOfADay(a) && k < |a|
    ensures AllOfADay(a[..k] + a[k + 1..])
    ensures multiset(MinutesIn(a))
         == multiset(MinutesIn(a[..k] + a[k + 1..])) + if a[k].Some? then multiset{MinuteOf(a[k].value)} else multiset{}
  {
    var front, upTo, back := a[..k], a[..k + 1], a[k + 1..];
    assert a == upTo + back && upTo[..k] == front;
    MinutesOfTwo(upTo, back);
    MinutesOfTwo(front, back);
    var named := if a[k].Some? then [MinuteOf(a[k].value)] else [];
    assert MinutesIn(upTo) == MinutesIn(front) + named;
    MiddleOut(MinutesIn(front), named, MinutesIn(back));
  }

  /** The window holds each of its instants exactly as often as the schedule
      names it, and nothing else. */
  lemma {:induction false} PlannedMultiplicity(cal: Calendar, s: Schedule, from: int, to: int, t: int)
    requires Plannable(s)
    ensures multiset(PlannedInstants(cal, s, from, to))[t] == if from < t <= to then Hits(cal, s, t) else 0
  {
    SortedTimesPlannable(s.times);
    var minutes := MinutesOf(SortedTexts(s.times));
    var hits := if from < t <= to then HitsOf(cal, s, minutes, t) else 0;
    var ofDay := EachDay(cal, s, minutes, from, to);
    forall day ensures multiset(ofDay(day))[t] == if day == DayOf(t) then hits else 0 {
      IfFiringMultiplicity(cal, s, minutes, day, from, to, t);
    }
    DaysMultiplicity(ofDay, DayOf(from), SpanOf(from, to), t, DayOf(t), hits);
    MinutesPermuted(Readings(SortedTexts(s.times)), Readings(s.times));
    NamedPermuted(minutes, MinutesOf(s.times), DayOf(t), t);
    if from < t <= to { DayOfMonotone(from, t); DayOfMonotone(t, to); }
  }

  /** Adjacent windows share nothing and lose nothing. */
  lemma {:induction false} WindowsCompose(cal: Calendar, s: Schedule, a: int, b: int, c: int)
    requires Plannable(s) && a <= b <= c
    ensures multiset(PlannedInstants(cal, s, a, c))
         == multiset(PlannedInstants(cal, s, a, b)) + multiset(PlannedInstants(cal, s, b, c))
  {
    forall t
      ensures multiset(PlannedInstants(cal, s, a, c))[t]
           == multiset(PlannedInstants(cal, s, a, b))[t] + multiset(PlannedInstants(cal, s, b, c))[t]
    {
      PlannedMultiplicity(cal, s, a, c, t);
      PlannedMultiplicity(cal, s, a, b, t);
      PlannedMultiplicity(cal, s, b, c, t);
    }
  }

  /** Two times of the list are read alike. */
  ghost predicate ReadTwice(readings: seq<Option<ClockTime>>) {
    exists i, j :: 0 <= i < j < |readings| && readings[i].Some? && readings[i] == readings[j]
  }

  /** Two of the times are read as the same time of the day, however they are
      spelled. */
  ghost predicate RepeatsAMinute(times: seq<string>) { ReadTwice(Readings(times)) }

  ghost predicate HasTwice(minutes: seq<int>) {
    exists i, j :: 0 <= i < j < |minutes| && minutes[i] == minutes[j]
  }

  lemma {:induction false} MinuteOfSome(readings: seq<Option<ClockTime>>, t: ClockTime)
    requires AllOfADay(readings) && OfADay(t)
    ensures MinuteOf(t) in MinutesIn(readings) <==> Some(t) in readings
  {
    if readings != [] {
      var n := |readings| - 1;
      MinuteOfSome(readings[..n], t);
      assert readings == readings[..n] + [readings[n]];
      if readings[n].Some? { SameMinuteSameTime(readings[n].value, t); }
    }
  }

  lemma {:induction false} SameMinuteSameTime(a: ClockTime, b: ClockTime)
    requires OfADay(a) && OfADay(b)
    ensures MinuteOf(a) == MinuteOf(b) <==> a == b
  {}

  lemma {:induction false} TwiceOfAppended(minutes: seq<int>, m: int)
    ensures HasTwice(minutes + [m]) <==> HasTwice(minutes) || m in minutes
  {
    var all := minutes + [m];
    assert all[|minutes|] == m && forall k :: 0 <= k < |minutes| ==> all[k] == minutes[k];
    if HasTwice(minutes) {
      var i, j :| 0 <= i < j < |minutes| && minutes[i] == minutes[j];
      assert all[i] == all[j];
    }
    if m in minutes {
      var i :| 0 <= i < |minutes| && minutes[i] == m;
      assert all[i] == all[|minutes|];
    }
  }

  lemma {:induction false} ReadTwiceAppended(readings: seq<Option<ClockTime>>, x: Option<ClockTime>)
    ensures ReadTwice(readings + [x]) <==> ReadTwice(readings) || (x.Some? && x in readings)
  {
    var all := readings + [x];
    assert all[|readings|] == x && forall k :: 0 <= k < |readings| ==> all[k] == readings[k];
    if ReadTwice(readings) {
      var i, j :| 0 <= i < j < |readings| && readings[i].Some? && readings[i] == readings[j];
      assert all[i] == all[j];
    }
    if x.Some? && x in readings {
      var i :| 0 <= i < |readings| && readings[i] == x;
      assert all[i] == all[|readings|];
    }
  }

  /** Two times are read alike exactly if some minute is named twice. */
  lemma {:induction false} ReadTwiceIffNamedTwice(readings: seq<Option<ClockTime>>)
    requires AllOfADay(readings)
    ensures ReadTwice(readings) <==> HasTwice(MinutesIn(readings))
  {
    if readings != [] {
      var n := |readings| - 1;
      var front, x := readings[..n], readings[n];
      assert readings == front + [x];
      ReadTwiceIffNamedTwice(front);
      ReadTwiceAppended(front, x);
      if x.Some? {
        TwiceOfAppended(MinutesIn(front), MinuteOf(x.value));
        MinuteOfSome(front, x.value);
      } else {
        assert MinutesIn(readings) == MinutesIn(front);
      }
    }
  }

  lemma {:induction false} NamedTwiceByRepetition(minutes: seq<int>, i: nat, j: nat, day: int)
    requires i < j < |minutes| && minutes[i] == minutes[j]
    ensures Named(minutes, day, InstantAt(day, minutes[i])) >= 2
  {
    var t, fewer := InstantAt(day, minutes[i]), minutes[..j] + minutes[j + 1..];
    NamedWithoutOne(minutes, j, day, t);
    NamedWithoutOne(fewer, i, day, t);
  }

  lemma {:induction false} NamedAtAll(minutes: seq<int>, day: int, t: int) returns (k: nat)
    requires Named(minutes, day, t) >= 1
    ensures k < |minutes| && InstantAt(day, minutes[k]) == t
  {
    var n := |minutes| - 1;
    if InstantAt(day, minutes[n]) == t {
      k := n;
    } else {
      k := NamedAtAll(minutes[..n], day, t);
    }
  }

  lemma {:induction false} NamedTwiceRepeats(minutes: seq<int>, day: int, t: int) returns (i: nat, j: nat)
    requires Named(minutes, day, t) >= 2
    ensures i < j < |minutes| && minutes[i] == minutes[j]
  {
    j := |minutes| - 1;
    if InstantAt(day, minutes[j]) == t {
      i := NamedAtAll(minutes[..j], day, t);
    } else {
      i, j := NamedTwiceRepeats(minutes[..j], day, t);
    }
  }

  /** An instant is planned twice exactly when the schedule fires at all and two
      of its times are read alike. */
  lemma {:induction false} PlannedTwiceIffRepeated(cal: Calendar, s: Schedule)
    requires Plannable(s)
    ensures (exists t :: Hits(cal, s, t) >= 2) <==> (exists day :: FiresOn(cal, s, day)) && RepeatsAMinute(s.times)
  {
    var minutes := MinutesOf(s.times);
    ReadTwiceIffNamedTwice(Readings(s.times));
    if t :| Hits(cal, s, t) >= 2 {
      assert FiresOn(cal, s, DayOf(t));
      var i, j := NamedTwiceRepeats(minutes, DayOf(t), t);
    }
    if (exists day :: FiresOn(cal, s, day)) && HasTwice(minutes) {
      var day :| FiresOn(cal, s, day);
      var i: nat, j: nat :| i < j < |minutes| && minutes[i] == minutes[j];
      NamedTwiceByRepetition(minutes, i, j, day);
      InstantIsOnItsDay(day, minutes[i]);
      assert Hits(cal, s, InstantAt(day, minutes[i])) >= 2;
    }
  }

  // ---------------------------------------------------------------- what is planned, column by column

  /** The calendar day of the instant is one of the schedule's: any for hourly and
      daily schedules, else the weekday or the day of the month that is set. */
  ghost predicate OnItsDays(cal: Calendar, s: Schedule, t: int) {
    && (s.kind.Weekly? ==> s.weekday == Some((t / 86_400_000_000 + 3) % 7))
    && (s.kind.Monthly? ==> s.dayOfMonth == Some(cal(t / 86_400_000_000)))
  }

  /** The instant begins the minute that the time names. */
  ghost predicate BeginsMinute(time: string, t: int) {
    ParseTime(time).Some?
    && t % 86_400_000_000 == (ParseTime(time).value.hour * 3600 + ParseTime(time).value.minute * 60) * 1_000_000
  }

  ghost predicate CallsFor(cal: Calendar, s: Schedule, t: int) {
    OnItsDays(cal, s, t) && exists k :: 0 <= k < |s.times| && BeginsMinute(s.times[k], t)
  }

  /** Day 0 is a Thursday, and the weekdays follow each other. */
  lemma {:induction false} WeekdaysFollow(day: int)
    ensures WeekdayOf(0) == 3 && 0 <= WeekdayOf(day) < 7
    ensures WeekdayOf(day + 1) == if WeekdayOf(day) == 6 then 0 else WeekdayOf(day) + 1
  {
  }

  lemma {:induction false} NamedByReading(readings: seq<Option<ClockTime>>, day: int, t: int)
    requires AllOfADay(readings)
    ensures Named(MinutesIn(readings), day, t) > 0
       <==> exists k :: 0 <= k < |readings| && readings[k].Some? && InstantAt(day, MinuteOf(readings[k].value)) == t
  {
    if readings != [] {
      var n := |readings| - 1;
      var front, x := readings[..n], readings[n];
      NamedByReading(front, day, t);
      assert readings == front + [x];
      if x.Some? {
        var minutes := MinutesIn(front);
        assert (minutes + [MinuteOf(x.value)])[..|minutes|] == minutes;
      } else {
        assert MinutesIn(readings) == MinutesIn(front);
      }
    }
  }

  lemma {:induction false} InstantOfTime(c: ClockTime, t: int)
    requires OfADay(c)
    ensures InstantAt(DayOf(t), MinuteOf(c)) == t
       <==> t % 86_400_000_000 == (c.hour * 3600 + c.minute * 60) * 1_000_000
  {
    assert t == DayOf(t) * 86_400_000_000 + t % 86_400_000_000;
  }

  lemma {:induction false} ReadingBegins(times: seq<string>, k: nat, t: int)
    requires k < |times| && PlannableTimes(times)
    ensures BeginsMinute(times[k], t)
       <==> var r := Readings(times)[k]; r.Some? && InstantAt(DayOf(t), MinuteOf(r.value)) == t
  {
    var r := Readings(times)[k];
    if r.Some? { InstantOfTime(r.value, t); }
  }

  lemma {:induction false} NamedIffBegun(times: seq<string>, t: int)
    requires PlannableTimes(times)
    ensures Named(MinutesOf(times), DayOf(t), t) > 0 <==> exists k :: 0 <= k < |times| && BeginsMinute(times[k], t)
  {
    var readings, day := Readings(times), DayOf(t);
    NamedByReading(readings, day, t);
    if k :| 0 <= k < |readings| && readings[k].Some? && InstantAt(day, MinuteOf(readings[k].value)) == t {
      ReadingBegins(times, k, t);
    }
    if k :| 0 <= k < |times| && BeginsMinute(times[k], t) {
      ReadingBegins(times, k, t);
    }
  }

  lemma {:induction false} FiresOnItsDays(cal: Calendar, s: Schedule, t: int)
    ensures FiresOn(cal, s, DayOf(t)) <==> OnItsDays(cal, s, t)
  {
  }

  lemma {:induction false} HitsIffCalledFor(cal: Calendar, s: Schedule, t: int)
    requires Plannable(s)
    ensures Hits(cal, s, t) > 0 <==> CallsFor(cal, s, t)
  {
    FiresOnItsDays(cal, s, t);
    NamedIffBegun(s.times, t);
  }

  /** A window holds exactly those of its instants at which the day is one of the
      schedule's days and one of its readable times begins. */
  lemma {:induction false} PlannedIffCalledFor(cal: Calendar, s: Schedule, from: int, to: int, t: int)
    requires Plannable(s)
    ensures t in PlannedInstants(cal, s, from, to) <==> from < t <= to && CallsFor(cal, s, t)
  {
    PlannedMultiplicity(cal, s, from, to, t);
    HitsIffCalledFor(cal, s, t);
    assert t in PlannedInstants(cal, s, from, to) <==> multiset(PlannedInstants(cal, s, from, to))[t] > 0;
  }
}
