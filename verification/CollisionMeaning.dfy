/** What collisions mean in the calendar and on the clock: which slots a
    configuration has, when two of them collide, and how a cluster is written. */
module CollisionMeaning {
  import opened Wrappers
  import opened ClockTimes
  import opened Texts
  import opened Schedules
  import opened Occurrences
  import opened ScheduleCollisions
  import opened CollisionKeys

  // ---------------------------------------------------------------- common days

  ghost predicate Fires(s: Schedule) {
    exists cal: Calendar, day :: FiresOn(cal, s, day)
  }

  /** On some day of some calendar both fire. */
  ghost predicate FireTogether(s: Schedule, t: Schedule) {
    exists cal: Calendar, day :: FiresOn(cal, s, day) && FiresOn(cal, t, day)
  }

  ghost predicate WeeklyAndMonthly(s: Schedule, t: Schedule) {
    (s.kind.Weekly? && t.kind.Monthly?) || (s.kind.Monthly? && t.kind.Weekly?)
  }

  /** The columns allow a common day: one fires every day, or both are weekly with
      one weekday, or both monthly with one day of the month. */
  ghost predicate MayShareADay(s: Schedule, t: Schedule) {
    || s.kind.Hourly? || s.kind.Daily? || t.kind.Hourly? || t.kind.Daily?
    || (s.kind.Weekly? && t.kind.Weekly? && s.weekday == t.weekday)
    || (s.kind.Monthly? && t.kind.Monthly? && s.dayOfMonth == t.dayOfMonth)
  }

  lemma {:induction false} CompatibleByColumns(s: Schedule, t: Schedule)
    ensures DaysCompatible(DayKeyOf(s), DayKeyOf(t)) <==> MayShareADay(s, t)
  {
  }

  /** A day on which a schedule that fires at all does so. */
  lemma {:induction false} SomeDayOf(s: Schedule, dayOfMonth: int) returns (day: int)
    requires Fires(s) && (s.kind.Monthly? ==> s.dayOfMonth == Some(dayOfMonth))
    ensures FiresOn((_: int) => dayOfMonth, s, day)
    ensures s.kind.Weekly? ==> s.weekday == Some(WeekdayOf(day))
  {
    var cal: Calendar, d: int :| FiresOn(cal, s, d);
    day := d;
  }

  lemma {:induction false} MeetIfCompatible(s: Schedule, t: Schedule)
    requires Fires(s) && Fires(t) && (MayShareADay(s, t) || WeeklyAndMonthly(s, t))
    ensures FireTogether(s, t)
  {
    var m := if s.kind.Monthly? && s.dayOfMonth.Some? then s.dayOfMonth.value
             else if t.dayOfMonth.Some? then t.dayOfMonth.value else 1;
    var cal: Calendar := (_: int) => m;
    var a := SomeDayOf(s, m);
    var b := SomeDayOf(t, m);
    var day := if s.kind.Weekly? then a else b;
    assert FiresOn(cal, s, day) && FiresOn(cal, t, day);
  }

  /** Schedules that fire at all are taken for compatible exactly if some calendar has
      a day on which both fire, except that a weekly and a monthly one never are,
      although such a day always exists for them. */
  lemma {:induction false} CompatibleIffCommonDay(s: Schedule, t: Schedule)
    requires Fires(s) && Fires(t)
    ensures DaysCompatible(DayKeyOf(s), DayKeyOf(t)) <==> FireTogether(s, t) && !WeeklyAndMonthly(s, t)
    ensures WeeklyAndMonthly(s, t) ==> FireTogether(s, t)
  {
    CompatibleByColumns(s, t);
    if MayShareADay(s, t) || WeeklyAndMonthly(s, t) { MeetIfCompatible(s, t); }
    if cal: Calendar, day: int :| FiresOn(cal, s, day) && FiresOn(cal, t, day) && !WeeklyAndMonthly(s, t) {
      assert MayShareADay(s, t);
    }
  }

  // ---------------------------------------------------------------- slots

  /** The link takes part, and its k-th time, as read, is the slot. */
  ghost predicate IsSlotOf(s: Slot, link: Link, k: nat) {
    && link.schedule.Some? && link.policy.Some? && link.group.Some?
    && link.policy.value.enabled && !link.schedule.value.paused
    && k < |link.schedule.value.times| && s.time == link.schedule.value.times[k]
    && ParseTime(s.time).Some?
    && s.minutes == 60 * ParseTime(s.time).value.hour + ParseTime(s.time).value.minute
    && s.groupId == link.group.value.id && s.policyId == link.policy.value.id
    && s.day == DayKeyOf(link.schedule.value)
  }

  lemma {:induction false} SlotsOfReadingsAre(link: Link, times: seq<string>, readings: seq<Option<ClockTime>>, s: Slot)
    requires link.group.Some? && link.policy.Some? && link.schedule.Some? && |times| == |readings|
    ensures s in SlotsOfReadings(link, times, readings)
       <==> exists k :: 0 <= k < |times| && readings[k].Some? && s == SlotAt(link, times[k], readings[k].value)
  {
    if times != [] {
      var n := |times| - 1;
      SlotsOfReadingsAre(link, times[..n], readings[..n], s);
      assert times == times[..n] + [times[n]] && readings == readings[..n] + [readings[n]];
    }
  }

  lemma {:induction false} SlotsOfLinkAre(link: Link, s: Slot)
    ensures s in SlotsOfLink(link) <==> exists k :: IsSlotOf(s, link, k)
  {
    if Contributes(link) {
      var times := link.schedule.value.times;
      SlotsOfReadingsAre(link, times, Readings(times), s);
      if k :| 0 <= k < |times| && Readings(times)[k].Some? && s == SlotAt(link, times[k], Readings(times)[k].value) {
        assert IsSlotOf(s, link, k);
      }
      if k: nat :| IsSlotOf(s, link, k) {
        assert s == SlotAt(link, times[k], Readings(times)[k].value);
      }
    }
  }

  ghost predicate IsSlotOfSome(s: Slot, links: seq<Link>) {
    exists l, k :: 0 <= l < |links| && IsSlotOf(s, links[l], k)
  }

  /** The slots are the readable times of the links that have schedule, policy and
      group, whose policy is enabled and whose schedule is not paused. */
  lemma {:induction false} SlotsAreReadableTimes(links: seq<Link>, s: Slot)
    ensures s in SlotsOf(links) <==> IsSlotOfSome(s, links)
  {
    MemberOfFlat(links, SlotsOfLink, s);
    if s in SlotsOf(links) {
      var link :| link in links && s in SlotsOfLink(link);
      var l :| 0 <= l < |links| && links[l] == link;
      SlotsOfLinkAre(link, s);
      var k :| IsSlotOf(s, links[l], k);
    }
    if IsSlotOfSome(s, links) {
      var l, k :| 0 <= l < |links| && IsSlotOf(s, links[l], k);
      SlotsOfLinkAre(links[l], s);
      assert links[l] in links;
    }
  }

  // ---------------------------------------------------------------- collisions

  /** Two times so many minutes apart, repeated every day, come within the threshold
      of each other. */
  ghost predicate ComeClose(apart: int, threshold: int) {
    exists days: int :: Near(apart, days, threshold)
  }

  ghost predicate Near(apart: int, days: int, threshold: int) {
    -threshold <= apart + 1440 * days <= threshold
  }

  lemma {:induction false} NearIsAtMost(apart: int, days: int, threshold: int)
    ensures Near(apart, days, threshold) <==> Abs(apart + MINUTES_PER_DAY * days) <= threshold
  {
  }

  lemma {:induction false} CloseIffLeastDistance(a: int, b: int, threshold: int)
    ensures CircularDistance(a, b) <= threshold <==> ComeClose(a - b, threshold)
  {
    var apart := a - b;
    if days: int :| Near(apart, days, threshold) {
      NearIsAtMost(apart, days, threshold);
      CircularDistanceIsLeast(a, b, days);
    }
    CircularDistanceIsLeast(a, b, 0);
    var d: int :| CircularDistance(a, b) == Abs(a - b + MINUTES_PER_DAY * d);
    NearIsAtMost(apart, d, threshold);
  }

  /** The minutes from one readable time to another. */
  ghost function Apart(a: ClockTime, b: ClockTime): int { 60 * (a.hour - b.hour) + (a.minute - b.minute) }

  /** Two slots of a configuration collide exactly if the columns of their schedules
      allow a common day and their times come within the threshold of each other. */
  lemma {:induction false} SlotsCollideIff(a: Slot, b: Slot, la: Link, lb: Link, j: nat, k: nat, threshold: int)
    requires IsSlotOf(a, la, j) && IsSlotOf(b, lb, k)
    ensures Collide(a, b, threshold)
       <==> && MayShareADay(la.schedule.value, lb.schedule.value)
            && ComeClose(Apart(ParseTime(a.time).value, ParseTime(b.time).value), threshold)
  {
    SlotsApart(a, b, ParseTime(a.time).value, ParseTime(b.time).value, threshold);
    CompatibleByColumns(la.schedule.value, lb.schedule.value);
  }

  lemma {:induction false} SlotsApart(a: Slot, b: Slot, s: ClockTime, t: ClockTime, threshold: int)
    requires a.minutes == 60 * s.hour + s.minute && b.minutes == 60 * t.hour + t.minute
    ensures Collide(a, b, threshold) <==> DaysCompatible(a.day, b.day) && ComeClose(Apart(s, t), threshold)
  {
    CloseIffLeastDistance(a.minutes, b.minutes, threshold);
    assert a.minutes - b.minutes == Apart(s, t);
  }

  // ---------------------------------------------------------------- how a cluster is written

  /** By time, then group, then policy. */
  ghost predicate NotBehind(a: Slot, b: Slot) {
    || a.minutes < b.minutes
    || (a.minutes == b.minutes && a.groupId != b.groupId && TextLe(a.groupId, b.groupId))
    || (a.minutes == b.minutes && a.groupId == b.groupId && TextLe(a.policyId, b.policyId))
  }

  /** The texts of the members, bars between them. */
  ghost function Written(members: seq<Slot>): (parts: seq<string>)
    ensures |parts| == |members|
  {
    seq(|members|, k requires 0 <= k < |members| =>
          (if k == 0 then "" else "|") + members[k].groupId + ":" + members[k].policyId + ":" + members[k].time)
  }

  ghost function Barred(members: seq<Slot>): (parts: seq<string>)
    ensures |parts| == |members|
  {
    seq(|members|, k requires 0 <= k < |members| =>
          "|" + members[k].groupId + ":" + members[k].policyId + ":" + members[k].time)
  }

  lemma {:induction false} JoinedFirst<T>(parts: seq<seq<T>>)
    requires parts != []
    ensures Joined(parts) == parts[0] + Joined(parts[1..])
  {
    var n := |parts| - 1;
    if n > 0 {
      JoinedFirst(parts[..n]);
      assert parts[..n][1..] == parts[1..][..n - 1];
      assert parts[1..][n - 1] == parts[n];
    } else {
      assert parts[..0] == [] && parts[1..] == [];
    }
  }

  lemma {:induction false} BarredMembers(members: seq<Slot>)
    ensures Joined(Barred(members)) == if members == [] then "" else "|" + JoinBars(members)
  {
    if members != [] {
      BarredMembers(members[1..]);
      JoinedFirst(Barred(members));
      BarredFirst(members);
      JoinBarsFirst(members);
    }
  }

  lemma {:induction false} BarredFirst(members: seq<Slot>)
    requires members != []
    ensures Barred(members)[0] == "|" + MemberText(members[0]) && Barred(members)[1..] == Barred(members[1..])
  {
  }

  lemma {:induction false} WrittenFirst(members: seq<Slot>)
    requires members != []
    ensures Written(members)[0] == MemberText(members[0]) && Written(members)[1..] == Barred(members[1..])
  {
  }

  lemma {:induction false} JoinBarsFirst(members: seq<Slot>)
    requires members != []
    ensures JoinBars(members) == MemberText(members[0]) + if |members| == 1 then "" else "|" + JoinBars(members[1..])
  {
  }

  lemma {:induction false} JoinBarsIsWritten(members: seq<Slot>)
    ensures JoinBars(members) == Joined(Written(members))
  {
    if members != [] {
      JoinedFirst(Written(members));
      WrittenFirst(members);
      BarredMembers(members[1..]);
      JoinBarsFirst(members);
    }
  }

  lemma {:induction false} SortedMembers(members: seq<Slot>)
    ensures |Sorted(members)| == |members|
    ensures forall s :: s in Sorted(members) <==> s in members
    ensures forall i, j :: 0 <= i < j < |Sorted(members)| ==> NotBehind(Sorted(members)[i], Sorted(members)[j])
  {
    MembersAreCounted(members);
    forall s ensures s in Sorted(members) <==> s in members {
      assert s in Sorted(members) <==> s in multiset(Sorted(members));
      assert s in members <==> s in multiset(members);
    }
    SortedInOrder(members);
    forall i, j | 0 <= i < j < |Sorted(members)| ensures NotBehind(Sorted(members)[i], Sorted(members)[j]) {
      assert RankLe(RankOf(Sorted(members)[i]), RankOf(Sorted(members)[j]));
    }
  }

  /** A reported cluster has at least two members, readable times of links that take
      part, by time, group and policy; its key spells them in this order. */
  lemma {:induction false} ReportedClusterIsWritten(links: seq<Link>, threshold: int, c: Cluster)
    requires c in Collisions(SlotsOf(links), threshold)
    ensures |c.members| >= 2 && forall s :: s in c.members ==> IsSlotOfSome(s, links)
    ensures forall i, j :: 0 <= i < j < |c.members| ==> NotBehind(c.members[i], c.members[j])
    ensures c.key == Joined(Written(c.members))
  {
    var slots := SlotsOf(links);
    ReportedExactlyTheComponents(slots, threshold, c);
    var i: nat :| ReportedFor(slots, threshold, c, i);
    var members := Component(slots, threshold, i);
    SortedMembers(members);
    JoinBarsIsWritten(Sorted(members));
    forall s | s in c.members ensures IsSlotOfSome(s, links) {
      assert s in members;
      var p := MemberIsConnected(slots, threshold, i, |slots|, s);
      SlotsAreReadableTimes(links, s);
    }
  }
}
