/** Protection classes: does the configuration of an object's policies fulfil its
    class, and which retention is still building up. */
module ProtectionClasses {
  import opened Wrappers
  import opened Texts
  import opened Schedules
  import opened ScheduleGaps

  // ---------------------------------------------------------------- classes

  datatype Tier = HourlyTier | DailyTier | WeeklyTier | MonthlyTier

  const TIERS := [HourlyTier, DailyTier, WeeklyTier, MonthlyTier]

  function Index(t: Tier): int {
    match t case HourlyTier => 0 case DailyTier => 1 case WeeklyTier => 2 case MonthlyTier => 3
  }

  function UnitDays(t: Tier): nat {
    match t case WeeklyTier => 7 case MonthlyTier => 30 case _ => 1
  }

  function ReachTolerance(t: Tier): real {
    match t case WeeklyTier => 7.0 case MonthlyTier => 31.0 case _ => 1.0
  }

  /** What a class asks of a tier, in the tier's unit; 0 asks nothing. */
  datatype Ask = Ask(primary: nat, secondary: nat)

  datatype ProtectionClass = ProtectionClass(maxAgeHours: int, tiers: map<Tier, Ask>, requireAppConsistent: bool)

  function AskOf(cls: ProtectionClass, t: Tier): Ask {
    if t in cls.tiers then cls.tiers[t] else Ask(0, 0)
  }

  function PrimaryDays(cls: ProtectionClass, t: Tier): nat {
    AskOf(cls, t).primary * UnitDays(t)
  }

  function SecondaryDays(cls: ProtectionClass, t: Tier): nat {
    AskOf(cls, t).secondary * UnitDays(t)
  }

  datatype Requirement = Requirement(tier: Tier, primary: nat, secondary: nat)

  /** The tiers with a requirement, finest first, in days. */
  method TierRequirements(cls: ProtectionClass) returns (result: seq<Requirement>)
    ensures forall r :: r in result <==>
              r == Requirement(r.tier, PrimaryDays(cls, r.tier), SecondaryDays(cls, r.tier)) &&
                  (r.primary != 0 || r.secondary != 0)
    ensures forall i, j :: 0 <= i < j < |result| ==> Index(result[i].tier) < Index(result[j].tier)
  {
    result := [];
    for k := 0 to |TIERS|
      invariant forall r :: r in result <==>
                  && r == Requirement(r.tier, PrimaryDays(cls, r.tier), SecondaryDays(cls, r.tier))
                  && (r.primary != 0 || r.secondary != 0) && Index(r.tier) < k
      invariant forall i, j :: 0 <= i < j < |result| ==> Index(result[i].tier) < Index(result[j].tier)
    {
      var tier := TIERS[k];
      assert Index(tier) == k && forall t :: Index(t) == k ==> t == tier;
      forall i | 0 <= i < |result| ensures Index(result[i].tier) < k { var r := result[i]; assert r in result; }
      if PrimaryDays(cls, tier) != 0 || SecondaryDays(cls, tier) != 0 {
        result := result + [Requirement(tier, PrimaryDays(cls, tier), SecondaryDays(cls, tier))];
      }
    }
  }

  // ---------------------------------------------------------------- effective links

  /** A policy link that really backs up: gap and mean of its schedule, retention
      in days, and the tier its mean puts it in. */
  datatype Effective = Effective(
    policyName: string,
    gapHours: real,
    retentionDays: real,
    secondary: bool,
    appConsistent: bool,
    intervalDays: real,
    mirrorLabel: Option<string>,
    tier: int)

  datatype PlanGroup = PlanGroup(name: string, paused: bool, links: seq<Link>)

  predicate Counts(link: Link) {
    link.policy.Some? && link.schedule.Some? && link.policy.value.enabled && !link.schedule.value.paused
  }

  function TierOfMean(mean: real): int {
    if mean < 24.0 then 0 else if mean == 24.0 then 1 else if mean <= 168.0 then 2 else 3
  }

  function EffectOf(link: Link): Effective
    requires Counts(link) && ValidTimes(link.schedule.value)
  {
    EffectAt(link.policy.value, GapHours(link.schedule.value))
  }

  function EffectAt(p: Policy, gap: Gap): Effective {
    var retention := match p.retention case Days(n) => n as real case Count(n) => n as real * gap.mean / 24.0;
    Effective(p.name, gap.largest, retention, p.snapmirrorUpdate, p.appConsistent, gap.mean / 24.0, p.mirrorLabel,
              TierOfMean(gap.mean))
  }

  ghost predicate ValidPlan(g: PlanGroup) {
    forall k :: 0 <= k < |g.links| && g.links[k].schedule.Some? ==> ValidTimes(g.links[k].schedule.value)
  }

  /** One entry for every link that counts; a paused group has none. */
  ghost predicate AreEffective(result: seq<Effective>, g: PlanGroup)
    requires ValidPlan(g)
  {
    forall e :: e in result <==>
      && !g.paused
      && exists k :: && 0 <= k < |g.links| && g.links[k].policy.Some? && g.links[k].schedule.Some?
                     && g.links[k].policy.value.enabled && !g.links[k].schedule.value.paused
                     && e == EffectOf(g.links[k])
  }

  /** The effective links of one group. */
  method EffectiveLinks(g: PlanGroup) returns (result: seq<Effective>)
    requires ValidPlan(g)
    ensures AreEffective(result, g)
  {
    result := [];
    if !g.paused {
      for k := 0 to |g.links|
        invariant forall e :: e in result <==> exists j :: 0 <= j < k && Counts(g.links[j]) && e == EffectOf(g.links[j])
      {
        if Counts(g.links[k]) {
          result := result + [EffectOf(g.links[k])];
        }
      }
    }
  }

  // ---------------------------------------------------------------- secondary retention

  /** How many snapshots a mirror policy keeps, by label. */
  type Rules = map<string, nat>

  /** The rules of every relationship of a source volume, by lower-cased path. */
  type MirrorRules = map<string, seq<Rules>>

  datatype Violation =
    | NoSchedule
    | GapTooLong
    | PrimaryMissing(tier: Tier)
    | PrimaryTooShort(tier: Tier)
    | SecondaryMissing(tier: Tier)
    | NoRelationship(volume: string)
    | SecondaryTooShort(tier: Tier, volume: string)
    | SecondaryNotKept(tier: Tier, volume: string)
    | NotConsistent
    | ConsistentTooRare

  predicate HasLabel(e: Effective) {
    Filled(e.mirrorLabel)
  }

  predicate Offers(rules: Rules, e: Effective) {
    HasLabel(e) && e.mirrorLabel.value in rules
  }

  function KeptDays(rules: Rules, e: Effective): real
    requires Offers(rules, e)
  {
    rules[e.mirrorLabel.value] as real * e.intervalDays
  }

  /** The link's label is kept for at least the days by these rules. */
  predicate KeptBy(rules: Rules, e: Effective, days: nat) {
    Offers(rules, e) && KeptDays(rules, e) + 0.01 >= days as real
  }

  predicate VolumeKept(mirrors: MirrorRules, volume: string, links: seq<Effective>, days: nat) {
    Lower(volume) in mirrors
    && exists r, l :: 0 <= r < |mirrors[Lower(volume)]| && 0 <= l < |links|
                   && links[l].secondary && KeptBy(mirrors[Lower(volume)][r], links[l], days)
  }

  /** Some link mirrors, and every volume keeps some mirrored link long enough. */
  predicate SecondaryKept(mirrors: MirrorRules, volumes: seq<string>, links: seq<Effective>, days: nat) {
    && (exists l :: 0 <= l < |links| && links[l].secondary)
    && (forall v :: 0 <= v < |volumes| ==> VolumeKept(mirrors, volumes[v], links, days))
  }

  function SecondaryLinks(links: seq<Effective>): (r: seq<Effective>)
    ensures forall e :: e in r <==> e in links && e.secondary
  {
    if links == [] then []
    else
      assert links == links[..|links| - 1] + [links[|links| - 1]];
      SecondaryLinks(links[..|links| - 1]) + (if links[|links| - 1].secondary then [links[|links| - 1]] else [])
  }

  /** best is the longest retention among the pairs before (r, k), or zero. */
  ghost predicate BestOf(relationships: seq<Rules>, links: seq<Effective>, r: nat, k: nat, best: real) {
    && best >= 0.0
    && (forall q, l | 0 <= q < |relationships| && 0 <= l < |links| && (q < r || (q == r && l < k)) ::
          Offers(relationships[q], links[l]) ==> KeptDays(relationships[q], links[l]) <= best)
    && (best > 0.0 ==> exists q, l :: 0 <= q < |relationships| && 0 <= l < |links|
                         && Offers(relationships[q], links[l]) && KeptDays(relationships[q], links[l]) == best)
  }

  method BestRetention(relationships: seq<Rules>, links: seq<Effective>) returns (best: real)
    ensures BestOf(relationships, links, |relationships|, 0, best)
  {
    best := 0.0;
    for r := 0 to |relationships|
      invariant BestOf(relationships, links, r, 0, best)
    {
      for k := 0 to |links|
        invariant BestOf(relationships, links, r, k, best)
      {
        if Offers(relationships[r], links[k]) && KeptDays(relationships[r], links[k]) > best {
          best := KeptDays(relationships[r], links[k]);
        }
      }
    }
  }

  ghost predicate SecondaryTag(v: Violation, t: Tier) {
    v == SecondaryMissing(t) || v.NoRelationship? || (v.SecondaryTooShort? && v.tier == t) ||
        (v.SecondaryNotKept? && v.tier == t)
  }

  /** A volume to be protected without any relationship, whatever the tier. */
  ghost predicate Unmirrored(mirrors: MirrorRules, volumes: seq<string>, volume: string) {
    volume in volumes && (Lower(volume) !in mirrors || mirrors[Lower(volume)] == [])
  }

  ghost predicate RelationshipsMissing(mirrors: MirrorRules, volumes: seq<string>, violations: seq<Violation>) {
    forall v :: v in violations && v.NoRelationship? ==> Unmirrored(mirrors, volumes, v.volume)
  }

  lemma {:induction false} UnmirroredIsNotKept(mirrors: MirrorRules, volumes: seq<string>, volume: string,
                                               links: seq<Effective>, days: nat)
    requires Unmirrored(mirrors, volumes, volume)
    ensures !SecondaryKept(mirrors, volumes, links, days)
  {
    var k :| 0 <= k < |volumes| && volumes[k] == volume;
    assert !VolumeKept(mirrors, volumes[k], links, days);
  }

  /** The violation of one volume, if any. */
  method CheckVolume(mirrors: MirrorRules, volume: string, links: seq<Effective>, days: nat, t: Tier)
    returns (found: seq<Violation>)
    requires days > 0
    ensures found == [] <==> VolumeKept(mirrors, volume, links, days)
    ensures forall v :: v in found ==> SecondaryTag(v, t)
    ensures RelationshipsMissing(mirrors, [volume], found)
  {
    found := [];
    if Lower(volume) !in mirrors || mirrors[Lower(volume)] == [] {
      found := [NoRelationship(volume)];
    } else {
      var best := BestRetention(mirrors[Lower(volume)], SecondaryLinks(links));
      KeptIffBest(mirrors, volume, links, days, best);
      if best + 0.01 < days as real {
        found := [if best != 0.0 then SecondaryTooShort(t, volume) else SecondaryNotKept(t, volume)];
      }
    }
  }

  /** Violations of the secondary retention asked of a tier; none exactly if every
      volume keeps a mirrored label long enough. */
  method CheckSecondary(mirrors: MirrorRules, volumes: seq<string>, links: seq<Effective>, days: nat, t: Tier)
    returns (violations: seq<Violation>)
    requires days > 0
    ensures violations == [] <==> SecondaryKept(mirrors, volumes, links, days)
    ensures forall v :: v in violations ==> SecondaryTag(v, t)
    ensures RelationshipsMissing(mirrors, volumes, violations)
  {
    var secondary := SecondaryLinks(links);
    if secondary == [] {
      NoSecondary(links);
      return [SecondaryMissing(t)];
    }
    assert secondary[0] in secondary;
    violations := [];
    for k := 0 to |volumes|
      invariant violations == [] <==> forall v :: 0 <= v < k ==> VolumeKept(mirrors, volumes[v], links, days)
      invariant forall v :: v in violations ==> SecondaryTag(v, t)
      invariant RelationshipsMissing(mirrors, volumes, violations)
    {
      var found := CheckVolume(mirrors, volumes[k], links, days, t);
      violations := violations + found;
    }
  }

  lemma {:induction false} NoSecondary(links: seq<Effective>)
    requires SecondaryLinks(links) == []
    ensures forall l :: 0 <= l < |links| ==> !links[l].secondary
  {
    forall l | 0 <= l < |links| ensures !links[l].secondary {
      var e := links[l];
      assert e in links && e !in SecondaryLinks(links);
    }
  }

  lemma {:induction false} KeptIffBest(mirrors: MirrorRules, volume: string, links: seq<Effective>, days: nat,
                                       best: real)
    requires Lower(volume) in mirrors && days > 0
    requires BestOf(mirrors[Lower(volume)], SecondaryLinks(links), |mirrors[Lower(volume)]|, 0, best)
    ensures VolumeKept(mirrors, volume, links, days) <==> best + 0.01 >= days as real
  {
    var relationships, secondary := mirrors[Lower(volume)], SecondaryLinks(links);
    if VolumeKept(mirrors, volume, links, days) {
      var r, l :| 0 <= r < |relationships| && 0 <= l < |links| && links[l].secondary &&
                  KeptBy(relationships[r], links[l], days);
      var e := links[l];
      assert e in secondary;
      var k :| 0 <= k < |secondary| && secondary[k] == e;
      assert Offers(relationships[r], secondary[k]) && KeptDays(relationships[r], secondary[k]) <= best;
    }
    if best + 0.01 >= days as real {
      var q, k :| 0 <= q < |relationships| && 0 <= k < |secondary|
                  && Offers(relationships[q], secondary[k]) && KeptDays(relationships[q], secondary[k]) == best;
      var e := secondary[k];
      assert e in secondary;
      var l :| 0 <= l < |links| && links[l] == e;
      assert links[l].secondary && KeptBy(relationships[q], links[l], days);
    }
  }

  // ---------------------------------------------------------------- the configuration check

  /** Links of this tier or a finer one. */
  function Candidates(links: seq<Effective>, t: Tier): (r: seq<Effective>)
    ensures forall e :: e in r <==> e in links && e.tier <= Index(t)
  {
    if links == [] then []
    else
      assert links == links[..|links| - 1] + [links[|links| - 1]];
      Candidates(links[..|links| - 1], t) + (if links[|links| - 1].tier <= Index(t) then [links[|links| - 1]] else [])
  }

  ghost predicate PrimaryKept(links: seq<Effective>, t: Tier, days: nat) {
    exists e :: e in links && e.tier <= Index(t) && e.retentionDays + 0.01 >= days as real
  }

  ghost predicate TierKept(cls: ProtectionClass, links: seq<Effective>, mirrors: Option<MirrorRules>,
                           volumes: seq<string>, t: Tier)
  {
    && (PrimaryDays(cls, t) > 0 ==> PrimaryKept(links, t, PrimaryDays(cls, t)))
    && (SecondaryDays(cls, t) > 0 && mirrors.Some? ==>
          SecondaryKept(mirrors.value, volumes, Candidates(links, t), SecondaryDays(cls, t)))
  }

  ghost predicate OftenEnough(links: seq<Effective>, maxAgeHours: int) {
    exists e :: e in links && e.gapHours <= maxAgeHours as real
  }

  ghost predicate ConsistentOftenEnough(links: seq<Effective>, maxAgeHours: int) {
    exists e :: e in links && e.appConsistent && e.gapHours <= maxAgeHours as real
  }

  /** What it means that the links fulfil the class for these volumes. */
  ghost predicate Fulfilled(cls: ProtectionClass, links: seq<Effective>, mirrors: Option<MirrorRules>,
                            volumes: seq<string>)
  {
    && OftenEnough(links, cls.maxAgeHours)
    && (forall t: Tier :: TierKept(cls, links, mirrors, volumes, t))
    && (cls.requireAppConsistent ==> ConsistentOftenEnough(links, cls.maxAgeHours))
  }

  method SmallestGap(links: seq<Effective>) returns (gap: real)
    requires links != []
    ensures (exists e :: e in links && e.gapHours == gap) && forall e :: e in links ==> gap <= e.gapHours
  {
    gap := links[0].gapHours;
    assert links[0] in links;
    for k := 1 to |links|
      invariant exists e :: e in links && e.gapHours == gap
      invariant forall l :: 0 <= l < k ==> gap <= links[l].gapHours
    {
      if links[k].gapHours < gap {
        gap := links[k].gapHours;
        assert links[k] in links;
      }
    }
  }

  method LongestRetention(links: seq<Effective>) returns (days: real)
    requires links != []
    ensures (exists e :: e in links && e.retentionDays == days) && forall e :: e in links ==> e.retentionDays <= days
  {
    days := links[0].retentionDays;
    assert links[0] in links;
    for k := 1 to |links|
      invariant exists e :: e in links && e.retentionDays == days
      invariant forall l :: 0 <= l < k ==> links[l].retentionDays <= days
    {
      if links[k].retentionDays > days {
        days := links[k].retentionDays;
        assert links[k] in links;
      }
    }
  }

  predicate PrimaryTag(v: Violation, t: Tier) {
    v == PrimaryMissing(t) || v == PrimaryTooShort(t)
  }

  ghost predicate PrimaryReported(violations: seq<Violation>, t: Tier) {
    exists v :: v in violations && PrimaryTag(v, t)
  }

  ghost predicate SecondaryReported(violations: seq<Violation>, t: Tier) {
    exists v :: v in violations && SecondaryTag(v, t)
  }

  /** The primary side of one tier. */
  method CheckPrimary(r: Requirement, links: seq<Effective>, candidates: seq<Effective>) returns (found: seq<Violation>)
    requires candidates == Candidates(links, r.tier)
    ensures found != [] <==> r.primary > 0 && !PrimaryKept(links, r.tier, r.primary)
    ensures forall v :: v in found ==> PrimaryTag(v, r.tier)
  {
    found := [];
    if r.primary != 0 {
      if candidates == [] {
        assert !PrimaryKept(links, r.tier, r.primary) by { assert forall e :: e !in candidates; }
        found := [PrimaryMissing(r.tier)];
      } else {
        var best := LongestRetention(candidates);
        if best + 0.01 < r.primary as real {
          found := [PrimaryTooShort(r.tier)];
        }
      }
    }
  }

  lemma {:induction false} ReportedBySide(primary: seq<Violation>, secondary: seq<Violation>, t: Tier)
    requires forall v :: v in primary ==> PrimaryTag(v, t)
    requires forall v :: v in secondary ==> SecondaryTag(v, t)
    ensures PrimaryReported(primary + secondary, t) <==> primary != []
    ensures SecondaryReported(primary + secondary, t) <==> secondary != []
    ensures forall v :: v in primary + secondary ==> PrimaryTag(v, t) || SecondaryTag(v, t)
  {
    var both := primary + secondary;
    if primary != [] { var v := primary[0]; assert v in primary && v in both; }
    if secondary != [] { var v := secondary[0]; assert v in secondary && v in both; }
  }

  /** What one tier finds. */
  method CheckTier(r: Requirement, links: seq<Effective>, mirrors: Option<MirrorRules>, volumes: seq<string>)
    returns (found: seq<Violation>)
    ensures PrimaryReported(found, r.tier) <==> r.primary > 0 && !PrimaryKept(links, r.tier, r.primary)
    ensures SecondaryReported(found, r.tier)
       <==> r.secondary > 0 && mirrors.Some? &&
            !SecondaryKept(mirrors.value, volumes, Candidates(links, r.tier), r.secondary)
    ensures forall v :: v in found ==> PrimaryTag(v, r.tier) || SecondaryTag(v, r.tier)
    ensures mirrors.Some? ==> RelationshipsMissing(mirrors.value, volumes, found)
  {
    var candidates := Candidates(links, r.tier);
    var primary := CheckPrimary(r, links, candidates);
    var secondary: seq<Violation> := [];
    if r.secondary != 0 && mirrors.Some? {
      secondary := CheckSecondary(mirrors.value, volumes, candidates, r.secondary, r.tier);
    }
    ReportedBySide(primary, secondary, r.tier);
    found := primary + secondary;
  }

  ghost predicate AsksSecondary(cls: ProtectionClass, mirrors: Option<MirrorRules>, t: Tier) {
    SecondaryDays(cls, t) > 0 && mirrors.Some?
  }

  /** The class asks it of the tier, and the links do not give it. */
  ghost predicate PrimaryViolated(cls: ProtectionClass, links: seq<Effective>, t: Tier) {
    PrimaryDays(cls, t) > 0 && !PrimaryKept(links, t, PrimaryDays(cls, t))
  }

  ghost predicate SecondaryViolated(cls: ProtectionClass, links: seq<Effective>, mirrors: Option<MirrorRules>,
                                    volumes: seq<string>, t: Tier)
  {
    AsksSecondary(cls, mirrors, t) &&
        !SecondaryKept(mirrors.value, volumes, Candidates(links, t), SecondaryDays(cls, t))
  }

  /** The violation names a side of the tier that really is violated. */
  ghost predicate Justified(cls: ProtectionClass, links: seq<Effective>, mirrors: Option<MirrorRules>,
                            volumes: seq<string>, v: Violation, t: Tier)
  {
    || (PrimaryTag(v, t) && PrimaryViolated(cls, links, t))
    || (SecondaryTag(v, t) && SecondaryViolated(cls, links, mirrors, volumes, t))
  }

  ghost predicate OfSomeTier(cls: ProtectionClass, links: seq<Effective>, mirrors: Option<MirrorRules>,
                             volumes: seq<string>, tiers: set<Tier>, v: Violation)
  {
    exists t :: t in tiers && Justified(cls, links, mirrors, volumes, v, t)
  }

  lemma {:induction false} TierOfTag(cls: ProtectionClass, links: seq<Effective>, mirrors: Option<MirrorRules>,
                                     volumes: seq<string>, tiers: set<Tier>, v: Violation, t: Tier)
    requires OfSomeTier(cls, links, mirrors, volumes, tiers, v) && PrimaryTag(v, t)
    ensures t in tiers
  {
    var u :| u in tiers && Justified(cls, links, mirrors, volumes, v, u);
  }

  /** The violations found are exactly those of the given tiers, none of them lost
      to the suppression of repetitions. */
  ghost predicate TiersReported(cls: ProtectionClass, links: seq<Effective>, mirrors: Option<MirrorRules>,
                                volumes: seq<string>, tiers: set<Tier>, violations: seq<Violation>)
  {
    && (forall t :: t in tiers ==>
          (PrimaryReported(violations, t) <==> PrimaryViolated(cls, links, t)))
    && (forall t :: t in tiers && SecondaryViolated(cls, links, mirrors, volumes, t) ==>
          SecondaryReported(violations, t))
    && (forall v :: v in violations ==> OfSomeTier(cls, links, mirrors, volumes, tiers, v))
    && (mirrors.Some? ==> RelationshipsMissing(mirrors.value, volumes, violations))
  }

  /** Appends what was not seen before. */
  method Extend(violations: seq<Violation>, found: seq<Violation>, seen: set<Violation>)
    returns (longer: seq<Violation>)
    requires forall v :: v in seen <==> v in violations
    ensures violations <= longer
    ensures forall v :: v in longer <==> v in violations || v in found
  {
    longer := violations;
    for k := 0 to |found|
      invariant violations <= longer
      invariant forall v :: v in longer <==> v in violations || v in found[..k]
    {
      assert found[..k + 1] == found[..k] + [found[k]];
      if found[k] !in seen {
        longer := longer + [found[k]];
      }
    }
    assert found[..|found|] == found;
  }

  ghost predicate TierFound(cls: ProtectionClass, links: seq<Effective>, mirrors: Option<MirrorRules>,
                            volumes: seq<string>, tier: Tier, found: seq<Violation>)
  {
    && (PrimaryReported(found, tier) <==> PrimaryViolated(cls, links, tier))
    && (SecondaryReported(found, tier) <==> SecondaryViolated(cls, links, mirrors, volumes, tier))
    && (forall v :: v in found ==> PrimaryTag(v, tier) || SecondaryTag(v, tier))
    && (mirrors.Some? ==> RelationshipsMissing(mirrors.value, volumes, found))
  }

  ghost predicate Joined(before: seq<Violation>, found: seq<Violation>, after: seq<Violation>) {
    forall v :: v in after <==> v in before || v in found
  }

  lemma {:induction false} PrimaryJoined(before: seq<Violation>, found: seq<Violation>, after: seq<Violation>, t: Tier)
    requires Joined(before, found, after)
    ensures PrimaryReported(after, t) <==> PrimaryReported(before, t) || PrimaryReported(found, t)
  {}

  lemma {:induction false} PrimaryOnlyOfTiers(cls: ProtectionClass, links: seq<Effective>, mirrors: Option<MirrorRules>,
                                              volumes: seq<string>, tiers: set<Tier>, violations: seq<Violation>,
                                              t: Tier)
    requires TiersReported(cls, links, mirrors, volumes, tiers, violations) && PrimaryReported(violations, t)
    ensures t in tiers
  {
    var v :| v in violations && PrimaryTag(v, t);
    TierOfTag(cls, links, mirrors, volumes, tiers, v, t);
  }

  lemma {:induction false} PrimaryOnlyOfOne(found: seq<Violation>, tier: Tier, t: Tier)
    requires forall v :: v in found ==> PrimaryTag(v, tier) || SecondaryTag(v, tier)
    requires PrimaryReported(found, t)
    ensures t == tier
  {}

  lemma {:induction false} PrimaryAdded(cls: ProtectionClass, links: seq<Effective>, mirrors: Option<MirrorRules>,
                                        volumes: seq<string>, tiers: set<Tier>, before: seq<Violation>, tier: Tier,
                                        found: seq<Violation>, after: seq<Violation>, t: Tier)
    requires TiersReported(cls, links, mirrors, volumes, tiers, before) && tier !in tiers
    requires TierFound(cls, links, mirrors, volumes, tier, found) && Joined(before, found, after)
    requires t in tiers || t == tier
    ensures PrimaryReported(after, t) <==> PrimaryViolated(cls, links, t)
  {
    PrimaryJoined(before, found, after, t);
    if PrimaryReported(before, t) { PrimaryOnlyOfTiers(cls, links, mirrors, volumes, tiers, before, t); }
    if PrimaryReported(found, t) { PrimaryOnlyOfOne(found, tier, t); }
  }

  lemma {:induction false} SecondaryAdded(cls: ProtectionClass, links: seq<Effective>, mirrors: Option<MirrorRules>,
                                          volumes: seq<string>, tiers: set<Tier>, before: seq<Violation>, tier: Tier,
                                          found: seq<Violation>, after: seq<Violation>, t: Tier)
    requires TiersReported(cls, links, mirrors, volumes, tiers, before)
    requires TierFound(cls, links, mirrors, volumes, tier, found) && Joined(before, found, after)
    requires (t in tiers || t == tier) && SecondaryViolated(cls, links, mirrors, volumes, t)
    ensures SecondaryReported(after, t)
  {
    var v :| (v in before || v in found) && SecondaryTag(v, t);
    assert v in after;
  }

  lemma {:induction false} JustifiedAdded(cls: ProtectionClass, links: seq<Effective>, mirrors: Option<MirrorRules>,
                                          volumes: seq<string>, tiers: set<Tier>, before: seq<Violation>, tier: Tier,
                                          found: seq<Violation>, after: seq<Violation>, v: Violation)
    requires TiersReported(cls, links, mirrors, volumes, tiers, before)
    requires TierFound(cls, links, mirrors, volumes, tier, found) && Joined(before, found, after) && v in after
    ensures OfSomeTier(cls, links, mirrors, volumes, tiers + {tier}, v)
  {
    if v in before {
      var u :| u in tiers && Justified(cls, links, mirrors, volumes, v, u);
      assert u in tiers + {tier};
    } else {
      assert tier in tiers + {tier} && Justified(cls, links, mirrors, volumes, v, tier);
    }
  }

  lemma {:induction false} TierAdded(cls: ProtectionClass, links: seq<Effective>, mirrors: Option<MirrorRules>,
                                     volumes: seq<string>, tiers: set<Tier>, before: seq<Violation>, tier: Tier,
                                     found: seq<Violation>, after: seq<Violation>)
    requires TiersReported(cls, links, mirrors, volumes, tiers, before) && tier !in tiers
    requires TierFound(cls, links, mirrors, volumes, tier, found) && Joined(before, found, after)
    ensures TiersReported(cls, links, mirrors, volumes, tiers + {tier}, after)
  {
    var all := tiers + {tier};
    forall t | t in all ensures PrimaryReported(after, t) <==> PrimaryViolated(cls, links, t) {
      PrimaryAdded(cls, links, mirrors, volumes, tiers, before, tier, found, after, t);
    }
    forall t | t in all && SecondaryViolated(cls, links, mirrors, volumes, t) ensures SecondaryReported(after, t) {
      SecondaryAdded(cls, links, mirrors, volumes, tiers, before, tier, found, after, t);
    }
    forall v | v in after ensures OfSomeTier(cls, links, mirrors, volumes, all, v) {
      JustifiedAdded(cls, links, mirrors, volumes, tiers, before, tier, found, after, v);
    }
  }

  ghost predicate NothingAskedOutside(cls: ProtectionClass, tiers: set<Tier>) {
    forall t :: t !in tiers ==> PrimaryDays(cls, t) == 0 && SecondaryDays(cls, t) == 0
  }

  /** The tiers of the class, each with its violations. */
  method CheckTiers(cls: ProtectionClass, links: seq<Effective>, mirrors: Option<MirrorRules>, volumes: seq<string>)
    returns (violations: seq<Violation>)
    ensures exists tiers :: TiersReported(cls, links, mirrors, volumes, tiers, violations)
                         && NothingAskedOutside(cls, tiers)
  {
    var requirements := TierRequirements(cls);
    violations := [];
    var seen: set<Violation> := {};
    ghost var tiers: set<Tier> := {};
    for k := 0 to |requirements|
      invariant forall v :: v in seen <==> v in violations
      invariant forall t :: t in tiers <==> exists i :: 0 <= i < k && requirements[i].tier == t
      invariant TiersReported(cls, links, mirrors, volumes, tiers, violations)
    {
      var r := requirements[k];
      assert r in requirements;
      var found := CheckTier(r, links, mirrors, volumes);
      ghost var before := violations;
      violations := Extend(violations, found, seen);
      seen := seen + set v | v in found;
      TierAdded(cls, links, mirrors, volumes, tiers, before, r.tier, found, violations);
      tiers := tiers + {r.tier};
    }
    forall r | r in requirements ensures r.tier in tiers {
      var i :| 0 <= i < |requirements| && requirements[i] == r;
    }
    forall t | t !in tiers ensures PrimaryDays(cls, t) == 0 && SecondaryDays(cls, t) == 0 {
      var r := Requirement(t, PrimaryDays(cls, t), SecondaryDays(cls, t));
      assert r in requirements <==> (r.primary != 0 || r.secondary != 0);
    }
  }

  /** The check of a configuration: it finds nothing exactly if the class is
      fulfilled, and names a side of a tier that the class asks for exactly if that
      side is violated. A missing relationship speaks for every tier. */
  method CheckConfig(cls: ProtectionClass, links: seq<Effective>, mirrors: Option<MirrorRules>, volumes: seq<string>)
    returns (violations: seq<Violation>)
    ensures violations == [] <==> Fulfilled(cls, links, mirrors, volumes)
    ensures links == [] ==> violations == [NoSchedule]
    ensures forall t :: links != [] ==>
              (PrimaryReported(violations, t) <==> PrimaryViolated(cls, links, t))
    ensures forall t :: links != [] && AsksSecondary(cls, mirrors, t) ==>
              (SecondaryReported(violations, t) <==> SecondaryViolated(cls, links, mirrors, volumes, t))
  {
    if links == [] {
      return [NoSchedule];
    }
    var bestGap := SmallestGap(links);
    violations := if bestGap > cls.maxAgeHours as real then [GapTooLong] else [];
    ghost var ageFound := violations;
    var tierFound := CheckTiers(cls, links, mirrors, volumes);
    violations := violations + tierFound;
    TiersDecide(cls, links, mirrors, volumes, tierFound);
    var consistentFound := [];
    if cls.requireAppConsistent {
      consistentFound := CheckConsistency(links, cls.maxAgeHours, bestGap);
      violations := violations + consistentFound;
    }
    forall t ensures PrimaryReported(violations, t) <==> PrimaryReported(tierFound, t) {
      assert forall v :: v in violations <==> v in ageFound || v in tierFound || v in consistentFound;
    }
    forall t ensures SecondaryReported(violations, t) <==> SecondaryReported(tierFound, t) {
      assert forall v :: v in violations <==> v in ageFound || v in tierFound || v in consistentFound;
    }
  }

  /** Application-consistent links, judged only where the gap itself is small enough. */
  method CheckConsistency(links: seq<Effective>, maxAgeHours: int, bestGap: real) returns (found: seq<Violation>)
    requires (exists e :: e in links && e.gapHours == bestGap) && forall e :: e in links ==> bestGap <= e.gapHours
    ensures bestGap <= maxAgeHours as real ==> (found == [] <==> ConsistentOftenEnough(links, maxAgeHours))
    ensures forall v :: v in found ==> v.NotConsistent? || v.ConsistentTooRare?
  {
    var consistent := Consistent(links);
    found := [];
    if consistent == [] {
      assert forall e :: e !in consistent;
      found := [NotConsistent];
    } else {
      var gap := SmallestGap(consistent);
      if gap > maxAgeHours as real && bestGap <= maxAgeHours as real {
        found := [ConsistentTooRare];
      }
    }
  }

  function Consistent(links: seq<Effective>): (r: seq<Effective>)
    ensures forall e :: e in r <==> e in links && e.appConsistent
  {
    if links == [] then []
    else
      assert links == links[..|links| - 1] + [links[|links| - 1]];
      Consistent(links[..|links| - 1]) + (if links[|links| - 1].appConsistent then [links[|links| - 1]] else [])
  }

  lemma {:induction false} KeptIffNotViolated(cls: ProtectionClass, links: seq<Effective>, mirrors: Option<MirrorRules>,
                                              volumes: seq<string>, t: Tier)
    ensures TierKept(cls, links, mirrors, volumes, t)
       <==> !PrimaryViolated(cls, links, t) && !SecondaryViolated(cls, links, mirrors, volumes, t)
  {
  }

  lemma {:induction false} ReportedTierByTier(cls: ProtectionClass, links: seq<Effective>, mirrors: Option<MirrorRules>,
                                              volumes: seq<string>, tiers: set<Tier>, violations: seq<Violation>,
                                              t: Tier)
    requires TiersReported(cls, links, mirrors, volumes, tiers, violations) && NothingAskedOutside(cls, tiers)
    ensures PrimaryReported(violations, t) <==> PrimaryViolated(cls, links, t)
    ensures AsksSecondary(cls, mirrors, t) ==>
              (SecondaryReported(violations, t) <==> SecondaryViolated(cls, links, mirrors, volumes, t))
  {
    if AsksSecondary(cls, mirrors, t) && SecondaryReported(violations, t) {
      var v :| v in violations && SecondaryTag(v, t);
      ReportedIsViolated(cls, links, mirrors, volumes, tiers, violations, v, t);
    }
    if t in tiers {
    } else {
      assert !PrimaryViolated(cls, links, t) && !SecondaryViolated(cls, links, mirrors, volumes, t);
      forall v | v in violations ensures !PrimaryTag(v, t) {
        var u :| u in tiers && Justified(cls, links, mirrors, volumes, v, u);
        OtherTiersTag(cls, links, mirrors, volumes, v, u, t);
      }
    }
  }

  lemma {:induction false} ReportedIsViolated(cls: ProtectionClass, links: seq<Effective>, mirrors: Option<MirrorRules>,
                                              volumes: seq<string>, tiers: set<Tier>, violations: seq<Violation>,
                                              v: Violation, t: Tier)
    requires TiersReported(cls, links, mirrors, volumes, tiers, violations) && v in violations
    requires AsksSecondary(cls, mirrors, t) && SecondaryTag(v, t)
    ensures SecondaryViolated(cls, links, mirrors, volumes, t)
  {
    if v.NoRelationship? {
      UnmirroredIsNotKept(mirrors.value, volumes, v.volume, Candidates(links, t), SecondaryDays(cls, t));
    } else {
      assert OfSomeTier(cls, links, mirrors, volumes, tiers, v);
      var u :| u in tiers && Justified(cls, links, mirrors, volumes, v, u);
      JustifiedByItsTier(cls, links, mirrors, volumes, v, t, u);
    }
  }

  lemma {:induction false} JustifiedByItsTier(cls: ProtectionClass, links: seq<Effective>, mirrors: Option<MirrorRules>,
                                              volumes: seq<string>, v: Violation, t: Tier, u: Tier)
    requires SecondaryTag(v, t) && !v.NoRelationship? && Justified(cls, links, mirrors, volumes, v, u)
    ensures SecondaryViolated(cls, links, mirrors, volumes, t)
  {
    assert !PrimaryTag(v, u);
    assert u == t;
  }

  lemma {:induction false} OtherTiersTag(cls: ProtectionClass, links: seq<Effective>, mirrors: Option<MirrorRules>,
                                         volumes: seq<string>, v: Violation, u: Tier, t: Tier)
    requires Justified(cls, links, mirrors, volumes, v, u) && u != t
    ensures !PrimaryTag(v, t)
  {
  }

  /** Reported tiers decide whether every tier is kept. */
  lemma {:induction false} TiersDecide(cls: ProtectionClass, links: seq<Effective>, mirrors: Option<MirrorRules>,
                                       volumes: seq<string>, violations: seq<Violation>)
    requires exists tiers :: TiersReported(cls, links, mirrors, volumes, tiers, violations) &&
                             NothingAskedOutside(cls, tiers)
    ensures violations == [] <==> forall t: Tier :: TierKept(cls, links, mirrors, volumes, t)
    ensures forall t :: PrimaryReported(violations, t) <==> PrimaryViolated(cls, links, t)
    ensures forall t :: AsksSecondary(cls, mirrors, t) ==>
              (SecondaryReported(violations, t) <==> SecondaryViolated(cls, links, mirrors, volumes, t))
  {
    var tiers :| TiersReported(cls, links, mirrors, volumes, tiers, violations) && NothingAskedOutside(cls, tiers);
    forall t
      ensures PrimaryReported(violations, t) <==> PrimaryViolated(cls, links, t)
      ensures AsksSecondary(cls, mirrors, t) ==>
                (SecondaryReported(violations, t) <==> SecondaryViolated(cls, links, mirrors, volumes, t))
    {
      ReportedTierByTier(cls, links, mirrors, volumes, tiers, violations, t);
    }
    if violations != [] {
      var v := violations[0];
      assert v in violations;
      var u :| u in tiers && Justified(cls, links, mirrors, volumes, v, u);
      KeptIffNotViolated(cls, links, mirrors, volumes, u);
    } else {
      forall t
        ensures TierKept(cls, links, mirrors, volumes, t)
      {
        KeptIffNotViolated(cls, links, mirrors, volumes, t);
      }
    }
  }

  // ---------------------------------------------------------------- what a class asks, column by column

  /** So many days the class asks of a tier: the entry is in days, in weeks of seven
      days or in months of thirty, and without an entry nothing is asked. */
  lemma {:induction false} DaysAsked(cls: ProtectionClass, t: Tier)
    ensures t !in cls.tiers ==> PrimaryDays(cls, t) == 0 && SecondaryDays(cls, t) == 0
    ensures t in cls.tiers && t in {HourlyTier, DailyTier} ==>
              PrimaryDays(cls, t) == cls.tiers[t].primary && SecondaryDays(cls, t) == cls.tiers[t].secondary
    ensures t in cls.tiers && t == WeeklyTier ==>
              PrimaryDays(cls, t) == 7 * cls.tiers[t].primary && SecondaryDays(cls, t) == 7 * cls.tiers[t].secondary
    ensures t in cls.tiers && t == MonthlyTier ==>
              PrimaryDays(cls, t) == 30 * cls.tiers[t].primary && SecondaryDays(cls, t) == 30 * cls.tiers[t].secondary
  {
  }

  /** How often a schedule of every day runs. */
  ghost function RunsADay(s: Schedule): nat
    requires ValidTimes(s)
  {
    |SortedDistinct(ListedMinutes(s.times))|
  }

  lemma {:induction false} TierOfGap(s: Schedule)
    requires ValidTimes(s)
    ensures s.kind.Weekly? ==> TierOfMean(GapHours(s).mean) == Index(WeeklyTier)
    ensures s.kind.Monthly? ==> TierOfMean(GapHours(s).mean) == Index(MonthlyTier)
    ensures EveryDay(s) ==> TierOfMean(GapHours(s).mean)
                            == if RunsADay(s) > 1 then Index(HourlyTier)
                               else Index(DailyTier)
  {
    if EveryDay(s) {
      var runs := SortedDistinct(ListedMinutes(s.times));
      assert GapHours(s) == Figures(|runs|, if runs == [] then 0 else Largest(Gaps(runs)));
      if |runs| > 1 { MeanOfMany(|runs|); }
    }
  }

  /** Every schedule has the tier of its kind: weekly and monthly their own, one run a
      day the daily tier, more than one the hourly one. */
  lemma {:induction false} TierFollowsSchedule(link: Link)
    requires Counts(link) && ValidTimes(link.schedule.value)
    ensures
      var s, tier := link.schedule.value, EffectOf(link).tier;
      && (s.kind.Weekly? ==> tier == Index(WeeklyTier)) && (s.kind.Monthly? ==> tier == Index(MonthlyTier))
      && (EveryDay(s) ==> tier == if RunsADay(s) > 1 then Index(HourlyTier)
                                  else Index(DailyTier))
    ensures Index(HourlyTier) < Index(DailyTier) < Index(WeeklyTier) < Index(MonthlyTier)
  {
    TierOfGap(link.schedule.value);
  }

  lemma {:induction false} MeanOfMany(count: int)
    requires count > 1
    ensures 24.0 / count as real < 24.0
  {
    var n := count as real;
    assert 24.0 / n * n == 24.0;
  }

  /** What a policy is judged by at the gap of a schedule: for how many days it keeps
      backups is so many as it says, or so many backups at the mean distance. */
  ghost predicate Judged(e: Effective, p: Policy, gap: Gap) {
    && e.gapHours == gap.largest && e.intervalDays * 24.0 == gap.mean
    && e.policyName == p.name && e.secondary == p.snapmirrorUpdate && e.appConsistent == p.appConsistent
    && e.mirrorLabel == p.mirrorLabel
    && (p.retention.Days? ==> e.retentionDays == p.retention.n as real)
    && (p.retention.Count? ==> e.retentionDays * 24.0 == p.retention.n as real * gap.mean)
  }

  lemma {:induction false} EffectSays(p: Policy, gap: Gap)
    ensures Judged(EffectAt(p, gap), p, gap)
  {
  }

  /** The largest gap, the mean distance and the days of a link are those of its
      schedule and policy. */
  lemma {:induction false} EffectIsJudged(link: Link)
    requires Counts(link) && ValidTimes(link.schedule.value)
    ensures Judged(EffectOf(link), link.policy.value, GapHours(link.schedule.value))
  {
    EffectSays(link.policy.value, GapHours(link.schedule.value));
  }

  /** So many runs at the mean distance make a day. */
  ghost predicate FillsTheDay(mean: real, runs: nat) { mean * runs as real == 24.0 }

  /** n backups at so many runs a day last for so many days. */
  ghost predicate LastsFor(days: real, runs: nat, n: int) { days * runs as real == n as real }

  lemma {:induction false} MeanOfTimes(m: seq<int>)
    requires |m| > 0
    ensures FillsTheDay(GapOfTimes(m).mean, |m|)
  {
    GapOfTimesIsExact(m);
  }

  lemma {:induction false} MeanOfRuns(s: Schedule)
    requires ValidTimes(s) && EveryDay(s) && s.times != []
    ensures FillsTheDay(GapHours(s).mean, RunsADay(s))
  {
    var runs := SortedDistinct(ListedMinutes(s.times));
    assert ListedMinutes(s.times)[0] in runs;
    MeanOfTimes(runs);
    assert GapHours(s) == GapOfTimes(runs);
  }

  lemma {:induction false} CountAtGap(p: Policy, gap: Gap, runs: nat)
    requires p.retention.Count? && FillsTheDay(gap.mean, runs)
    ensures LastsFor(EffectAt(p, gap).retentionDays, runs, p.retention.n)
  {
    CountTimesRuns(EffectAt(p, gap).retentionDays, p.retention.n as real, gap.mean, runs as real);
  }

  lemma {:induction false} CountTimesRuns(days: real, n: real, mean: real, runs: real)
    requires days * 24.0 == n * mean && mean * runs == 24.0
    ensures days * runs == n
  {
    assert days * 24.0 * runs == n * (mean * runs);
    assert days * runs * 24.0 == n * 24.0;
  }

  /** For schedules of every day: n backups at k runs a day last for n / k days. */
  lemma {:induction false} CountLasts(link: Link)
    requires Counts(link) && ValidTimes(link.schedule.value) && link.policy.value.retention.Count?
    requires EveryDay(link.schedule.value) && link.schedule.value.times != []
    ensures LastsFor(EffectOf(link).retentionDays, RunsADay(link.schedule.value), link.policy.value.retention.n)
  {
    MeanOfRuns(link.schedule.value);
    CountAtGap(link.policy.value, GapHours(link.schedule.value), RunsADay(link.schedule.value));
  }

  lemma {:induction false} CountAtMean(p: Policy, gap: Gap)
    requires p.retention.Count?
    ensures gap.mean == 24.0 * 7.0 ==> EffectAt(p, gap).retentionDays == 7.0 * p.retention.n as real
    ensures gap.mean * 12.0 == 24.0 * 365.0 ==>
              EffectAt(p, gap).retentionDays * 12.0 == 365.0 * p.retention.n as real
  {
    var n := p.retention.n as real;
    assert n * gap.mean * 12.0 == n * (gap.mean * 12.0);
  }

  /** n weekly backups last for n weeks, n monthly ones for n twelfths of a year. */
  lemma {:induction false} RareCountLasts(link: Link)
    requires Counts(link) && ValidTimes(link.schedule.value) && link.policy.value.retention.Count?
    ensures
      var kind, n, days := link.schedule.value.kind, link.policy.value.retention.n as real,
          EffectOf(link).retentionDays;
      (kind.Weekly? ==> days == 7.0 * n) && (kind.Monthly? ==> days * 12.0 == 365.0 * n)
  {
    AssumedMeans(link.schedule.value);
    CountAtMean(link.policy.value, GapHours(link.schedule.value));
  }

  /** The link is of the tier or a finer one. */
  ghost predicate AtLeastAsFine(e: Effective, t: Tier) {
    match t
    case HourlyTier => e.tier <= 0
    case DailyTier => e.tier <= 1
    case WeeklyTier => e.tier <= 2
    case MonthlyTier => e.tier <= 3
  }

  /** So many units asked of a tier, in days. */
  ghost function InDays(t: Tier, units: nat): nat {
    match t
    case WeeklyTier => 7 * units
    case MonthlyTier => 30 * units
    case _ => units
  }

  /** The rules keep so many snapshots of the link's label that at the link's mean
      distance they last for the days, up to a hundredth. */
  ghost predicate LastsBy(rules: Rules, e: Effective, days: nat) {
    && e.mirrorLabel.Some? && e.mirrorLabel.value != "" && e.mirrorLabel.value in rules
    && rules[e.mirrorLabel.value] as real * e.intervalDays + 0.01 >= days as real
  }

  /** The link mirrors, and some relationship of the volume keeps its snapshots long enough. */
  ghost predicate LastsOn(mirrors: MirrorRules, volume: string, e: Effective, days: nat) {
    && e.secondary && Lower(volume) in mirrors
    && exists rules :: rules in mirrors[Lower(volume)] && LastsBy(rules, e, days)
  }

  ghost predicate PrimaryLasts(links: seq<Effective>, t: Tier, days: nat) {
    exists e :: e in links && AtLeastAsFine(e, t) && e.retentionDays + 0.01 >= days as real
  }

  ghost predicate SecondaryLasts(links: seq<Effective>, mirrors: MirrorRules, volumes: seq<string>, t: Tier, days: nat)
  {
    && (exists e :: e in links && AtLeastAsFine(e, t) && e.secondary)
    && forall volume :: volume in volumes ==>
         exists e :: e in links && AtLeastAsFine(e, t) && LastsOn(mirrors, volume, e, days)
  }

  lemma {:induction false} KeptByIffLastsBy(rules: Rules, e: Effective, days: nat)
    ensures KeptBy(rules, e, days) <==> LastsBy(rules, e, days)
  {
  }

  lemma {:induction false} CandidatesAreFine(links: seq<Effective>, t: Tier, e: Effective)
    ensures e in Candidates(links, t) <==> e in links && AtLeastAsFine(e, t)
  {
  }

  lemma {:induction false} KeptLasts(mirrors: MirrorRules, volume: string, links: seq<Effective>, days: nat)
    requires VolumeKept(mirrors, volume, links, days)
    ensures exists e :: e in links && LastsOn(mirrors, volume, e, days)
  {
    var all := mirrors[Lower(volume)];
    var r, l :| 0 <= r < |all| && 0 <= l < |links| && links[l].secondary && KeptBy(all[r], links[l], days);
    KeptByIffLastsBy(all[r], links[l], days);
    assert all[r] in all && links[l] in links && LastsOn(mirrors, volume, links[l], days);
  }

  lemma {:induction false} LastingIsKept(mirrors: MirrorRules, volume: string, links: seq<Effective>, e: Effective,
                                         days: nat)
    requires e in links && LastsOn(mirrors, volume, e, days)
    ensures VolumeKept(mirrors, volume, links, days)
  {
    var all := mirrors[Lower(volume)];
    var rules :| rules in all && LastsBy(rules, e, days);
    KeptByIffLastsBy(rules, e, days);
    var r :| 0 <= r < |all| && all[r] == rules;
    var l :| 0 <= l < |links| && links[l] == e;
    assert links[l].secondary && KeptBy(all[r], links[l], days);
  }

  lemma {:induction false} VolumeKeptIffLasts(mirrors: MirrorRules, volume: string, links: seq<Effective>, t: Tier,
                                              days: nat)
    ensures VolumeKept(mirrors, volume, Candidates(links, t), days)
       <==> exists e :: e in links && AtLeastAsFine(e, t) && LastsOn(mirrors, volume, e, days)
  {
    var fine := Candidates(links, t);
    if VolumeKept(mirrors, volume, fine, days) {
      KeptLasts(mirrors, volume, fine, days);
      var e :| e in fine && LastsOn(mirrors, volume, e, days);
      CandidatesAreFine(links, t, e);
    }
    if e :| e in links && AtLeastAsFine(e, t) && LastsOn(mirrors, volume, e, days) {
      CandidatesAreFine(links, t, e);
      LastingIsKept(mirrors, volume, fine, e, days);
    }
  }

  lemma {:induction false} SecondaryKeptIffLasts(mirrors: MirrorRules, volumes: seq<string>, links: seq<Effective>,
                                                 t: Tier, days: nat)
    ensures SecondaryKept(mirrors, volumes, Candidates(links, t), days)
       <==> SecondaryLasts(links, mirrors, volumes, t, days)
  {
    var fine := Candidates(links, t);
    assert forall e :: e in fine <==> e in links && AtLeastAsFine(e, t);
    forall volume
      ensures VolumeKept(mirrors, volume, fine, days)
         <==> exists e :: e in links && AtLeastAsFine(e, t) && LastsOn(mirrors, volume, e, days)
    {
      VolumeKeptIffLasts(mirrors, volume, links, t, days);
    }
    assert forall v :: 0 <= v < |volumes| ==> volumes[v] in volumes;
    if l :| 0 <= l < |fine| && fine[l].secondary { assert fine[l] in fine; }
    if e :| e in links && AtLeastAsFine(e, t) && e.secondary {
      var l :| 0 <= l < |fine| && fine[l] == e;
    }
  }

  /** Both sides of a tier last for what the class's entry asks. */
  ghost predicate TierLasts(cls: ProtectionClass, links: seq<Effective>, mirrors: Option<MirrorRules>,
                            volumes: seq<string>, t: Tier)
    requires t in cls.tiers
  {
    && (cls.tiers[t].primary > 0 ==> PrimaryLasts(links, t, InDays(t, cls.tiers[t].primary)))
    && (cls.tiers[t].secondary > 0 && mirrors.Some? ==>
          SecondaryLasts(links, mirrors.value, volumes, t, InDays(t, cls.tiers[t].secondary)))
  }

  lemma {:induction false} TierKeptIffLasts(cls: ProtectionClass, links: seq<Effective>, mirrors: Option<MirrorRules>,
                                            volumes: seq<string>, t: Tier)
    ensures TierKept(cls, links, mirrors, volumes, t)
          <==> (t in cls.tiers ==> TierLasts(cls, links, mirrors, volumes, t))
  {
    DaysAsked(cls, t);
    assert forall e: Effective :: e.tier <= Index(t) <==> AtLeastAsFine(e, t);
    if mirrors.Some? { SecondaryKeptIffLasts(mirrors.value, volumes, links, t, SecondaryDays(cls, t)); }
  }

  /** The class is fulfilled exactly if some link backs up often enough, for every
      entry some link of its tier or a finer one keeps backups long enough, every
      volume's copies last as long, and some application-consistent link backs up often
      enough where that is asked. */
  lemma {:induction false} FulfilledIff(cls: ProtectionClass, links: seq<Effective>, mirrors: Option<MirrorRules>,
                                        volumes: seq<string>)
    ensures Fulfilled(cls, links, mirrors, volumes)
       <==> && (exists e :: e in links && e.gapHours <= cls.maxAgeHours as real)
            && (forall t :: t in cls.tiers ==> TierLasts(cls, links, mirrors, volumes, t))
            && (cls.requireAppConsistent ==>
                  exists e :: e in links && e.appConsistent && e.gapHours <= cls.maxAgeHours as real)
  {
    forall t: Tier
      ensures TierKept(cls, links, mirrors, volumes, t)
         <==> (t in cls.tiers ==> TierLasts(cls, links, mirrors, volumes, t))
    {
      TierKeptIffLasts(cls, links, mirrors, volumes, t);
    }
  }
}
