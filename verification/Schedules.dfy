/** Schedules, policies, protection groups and the links between them. */
module Schedules {
  import opened Wrappers
  import opened ClockTimes

  datatype ScheduleType = Hourly | Daily | Weekly | Monthly

  datatype Schedule = Schedule(
    id: string,
    kind: ScheduleType,
    times: seq<string>,
    weekday: Option<int>,      // 0 = Monday, only for Weekly
    dayOfMonth: Option<int>,   // 1..31, only for Monthly
    paused: bool)

  datatype Retention = Count(n: int) | Days(n: int)

  datatype Policy = Policy(
    id: string,
    name: string,
    enabled: bool,
    retention: Retention,
    snapmirrorUpdate: bool,
    mirrorLabel: Option<string>,
    appConsistent: bool)

  datatype Group = Group(id: string, paused: bool)

  /** A row of the link table; its primary key is (groupId, policyId). The
      objects it refers to are `None` when the reference is empty or dangling. */
  datatype Link = Link(
    groupId: string,
    policyId: string,
    group: Option<Group>,
    policy: Option<Policy>,
    schedule: Option<Schedule>)

  /** Every time has the form the schedule schema admits. */
  predicate ValidTimes(s: Schedule) {
    forall k :: 0 <= k < |s.times| ==> IsValidated(s.times[k])
  }

  /** Every time the scheduler can read is a time of the day; those it cannot read
      it passes over. Only other hours and minutes make the source fail. */
  predicate PlannableTimes(times: seq<string>) { AllOfADay(Readings(times)) }

  predicate Plannable(s: Schedule) { PlannableTimes(s.times) }

  lemma {:induction false} ValidTimesArePlannable(s: Schedule)
    requires ValidTimes(s)
    ensures Plannable(s) && forall k :: 0 <= k < |s.times| ==> IsTimeOfDay(s.times[k])
  {
    forall k | 0 <= k < |s.times| ensures IsTimeOfDay(s.times[k]) { ValidatedIsTimeOfDay(s.times[k]); }
  }

  /** What the object-relational mapping guarantees of loaded links: distinct
      primary keys, references that carry the identifier they were found by, and
      one schedule object per identifier. */
  ghost predicate LoadedLinks(links: seq<Link>) {
    && (forall a, b :: 0 <= a < b < |links| ==>
          (links[a].groupId, links[a].policyId) != (links[b].groupId, links[b].policyId))
    && (forall a :: 0 <= a < |links| ==>
          && (links[a].group.Some? ==> links[a].group.value.id == links[a].groupId)
          && (links[a].policy.Some? ==> links[a].policy.value.id == links[a].policyId))
    && (forall a, b | 0 <= a < |links| && 0 <= b < |links| && links[a].schedule.Some? && links[b].schedule.Some? ::
          links[a].schedule.value.id == links[b].schedule.value.id ==> links[a].schedule == links[b].schedule)
  }
}
