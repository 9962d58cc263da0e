/** Laws of the class check: it is monotone in everything an administrator can
    improve, and the notes on retention building up never contradict it. */
module ComplianceLaws {
  import opened Wrappers
  import opened Texts
  import opened Schedules
  import opened ScheduleGaps
  import opened ProtectionClasses

  // ---------------------------------------------------------------- better plans, weaker classes

  /** b backs up at least as often, as finely and for as long as e, with the same label. */
  ghost predicate Dominates(b: Effective, e: Effective) {
    && b.gapHours <= e.gapHours && b.tier <= e.tier && b.retentionDays >= e.retentionDays
    && (e.secondary ==> b.secondary) && (e.appConsistent ==> b.appConsistent)
    && b.mirrorLabel == e.mirrorLabel && b.intervalDays >= e.intervalDays >= 0.0
  }

  /** Every link has one at least as good; adding links is the simplest case. */
  ghost predicate AtLeastAsGood(better: seq<Effective>, links: seq<Effective>) {
    forall e :: e in links ==> exists b :: b in better && Dominates(b, e)
  }

  ghost predicate KeepsMore(more: Rules, rules: Rules) {
    forall name :: name in rules ==> name in more && more[name] >= rules[name]
  }

  /** Every relationship has one that keeps at least as much. */
  ghost predicate MirrorsMore(more: Option<MirrorRules>, mirrors: Option<MirrorRules>) {
    more.Some? ==>
      && mirrors.Some?
      && forall v :: v in mirrors.value ==>
           && v in more.value
           && forall r :: 0 <= r < |mirrors.value[v]| ==> SomeKeepsMore(more.value[v], mirrors.value[v][r])
  }

  ghost predicate SomeKeepsMore(all: seq<Rules>, rules: Rules) {
    exists q :: 0 <= q < |all| && KeepsMore(all[q], rules)
  }

  ghost predicate AsksLess(weaker: ProtectionClass, cls: ProtectionClass) {
    && weaker.maxAgeHours >= cls.maxAgeHours
    && (weaker.requireAppConsistent ==> cls.requireAppConsistent)
    && forall t :: AskOf(weaker, t).primary <= AskOf(cls, t).primary &&
                   AskOf(weaker, t).secondary <= AskOf(cls, t).secondary
  }

  lemma {:induction false} AddedLinksAreAsGood(links: seq<Effective>, more: seq<Effective>)
    requires forall e :: e in links ==> e in more && e.intervalDays >= 0.0
    ensures AtLeastAsGood(more, links)
  {
    forall e | e in links ensures exists b :: b in more && Dominates(b, e) { assert Dominates(e, e); }
  }

  lemma {:induction false} MeanIsPositive(s: Schedule)
    requires ValidTimes(s)
    ensures GapHours(s).mean > 0.0
  {
    var m := SortedDistinct(ListedMinutes(s.times));
    if |m| >= 1 { PositiveMean(|m|, Largest(Gaps(m))); }
  }

  lemma {:induction false} EffectiveIntervalsPositive(link: Link)
    requires Counts(link) && ValidTimes(link.schedule.value)
    ensures EffectOf(link).intervalDays > 0.0
  {
    MeanIsPositive(link.schedule.value);
  }

  lemma {:induction false} PositiveMean(count: int, largest: int)
    requires count >= 1
    ensures Figures(count, largest).mean > 0.0
  {
    if count > 1 {
      var n := count as real;
      assert 24.0 / n > 0.0;
    }
  }

  lemma {:induction false} ProductGrows(a: nat, b: nat, x: real, y: real)
    requires a <= b && 0.0 <= x <= y
    ensures a as real * x <= b as real * y
  {
    var p, q := a as real, b as real;
    assert p * x <= q * x by { assert (q - p) * x >= 0.0; }
    assert q * x <= q * y by { assert q * (y - x) >= 0.0; }
  }

  lemma {:induction false} KeptByMore(rules: Rules, more: Rules, e: Effective, b: Effective, days: nat, fewer: nat)
    requires KeptBy(rules, e, days) && KeepsMore(more, rules) && Dominates(b, e) && fewer <= days
    ensures KeptBy(more, b, fewer)
  {
    ProductGrows(rules[e.mirrorLabel.value], more[e.mirrorLabel.value], e.intervalDays, b.intervalDays);
  }

  lemma {:induction false} VolumeKeptByMore(mirrors: MirrorRules, more: MirrorRules, volume: string,
                                            links: seq<Effective>, better: seq<Effective>, days: nat, fewer: nat)
    requires VolumeKept(mirrors, volume, links, days) && fewer <= days
    requires AtLeastAsGood(better, links) && MirrorsMore(Some(more), Some(mirrors))
    ensures VolumeKept(more, volume, better, fewer)
  {
    var v := Lower(volume);
    var r, l :| 0 <= r < |mirrors[v]| && 0 <= l < |links| && links[l].secondary &&
                KeptBy(mirrors[v][r], links[l], days);
    var e := links[l];
    assert e in links;
    var b :| b in better && Dominates(b, e);
    var q :| 0 <= q < |more[v]| && KeepsMore(more[v][q], mirrors[v][r]);
    KeptByMore(mirrors[v][r], more[v][q], e, b, days, fewer);
    var m :| 0 <= m < |better| && better[m] == b;
    assert better[m].secondary && KeptBy(more[v][q], better[m], fewer);
  }

  lemma {:induction false} SecondaryKeptByMore(mirrors: MirrorRules, more: MirrorRules, volumes: seq<string>,
                                               fewerVolumes: seq<string>, links: seq<Effective>, better: seq<Effective>,
                                               days: nat, fewer: nat)
    requires SecondaryKept(mirrors, volumes, links, days) && fewer <= days
    requires (forall v :: v in fewerVolumes ==> v in volumes)
    requires AtLeastAsGood(better, links) && MirrorsMore(Some(more), Some(mirrors))
    ensures SecondaryKept(more, fewerVolumes, better, fewer)
  {
    var l :| 0 <= l < |links| && links[l].secondary;
    var e := links[l];
    assert e in links;
    var b :| b in better && Dominates(b, e);
    var m :| 0 <= m < |better| && better[m] == b;
    assert better[m].secondary;
    forall k | 0 <= k < |fewerVolumes| ensures VolumeKept(more, fewerVolumes[k], better, fewer) {
      var volume := fewerVolumes[k];
      assert volume in fewerVolumes;
      var v :| 0 <= v < |volumes| && volumes[v] == volume;
      VolumeKeptByMore(mirrors, more, volumes[v], links, better, days, fewer);
    }
  }

  lemma {:induction false} CandidatesAsGood(links: seq<Effective>, better: seq<Effective>, t: Tier)
    requires AtLeastAsGood(better, links)
    ensures AtLeastAsGood(Candidates(better, t), Candidates(links, t))
  {
    forall e | e in Candidates(links, t) ensures exists b :: b in Candidates(better, t) && Dominates(b, e) {
      var b :| b in better && Dominates(b, e);
      assert b in Candidates(better, t);
    }
  }

  lemma {:induction false} DaysShrink(weaker: ProtectionClass, cls: ProtectionClass, t: Tier)
    requires AsksLess(weaker, cls)
    ensures PrimaryDays(weaker, t) <= PrimaryDays(cls, t) && SecondaryDays(weaker, t) <= SecondaryDays(cls, t)
  {
    var u := UnitDays(t);
    assert AskOf(weaker, t).primary * u <= AskOf(cls, t).primary * u;
    assert AskOf(weaker, t).secondary * u <= AskOf(cls, t).secondary * u;
  }

  lemma {:induction false} TierStaysKept(cls: ProtectionClass, weaker: ProtectionClass, links: seq<Effective>,
                                         better: seq<Effective>, mirrors: Option<MirrorRules>,
                                         more: Option<MirrorRules>, volumes: seq<string>, fewer: seq<string>, t: Tier)
    requires TierKept(cls, links, mirrors, volumes, t)
    requires AsksLess(weaker, cls) && AtLeastAsGood(better, links) && MirrorsMore(more, mirrors)
    requires forall v :: v in fewer ==> v in volumes
    ensures TierKept(weaker, better, more, fewer, t)
  {
    DaysShrink(weaker, cls, t);
    if PrimaryDays(weaker, t) > 0 {
      var e :| e in links && e.tier <= Index(t) && e.retentionDays + 0.01 >= PrimaryDays(cls, t) as real;
      var b :| b in better && Dominates(b, e);
      assert b.retentionDays + 0.01 >= PrimaryDays(weaker, t) as real;
    }
    if SecondaryDays(weaker, t) > 0 && more.Some? {
      CandidatesAsGood(links, better, t);
      SecondaryKeptByMore(mirrors.value, more.value, volumes, fewer, Candidates(links, t), Candidates(better, t),
                          SecondaryDays(cls, t), SecondaryDays(weaker, t));
    }
  }

  /** A fulfilled class stays fulfilled when links are added or replaced by better
      ones, mirror policies keep more, volumes are removed, the age limit is raised
      or any requirement is lowered. */
  lemma {:induction false} FulfilledIsMonotone(cls: ProtectionClass, weaker: ProtectionClass, links: seq<Effective>,
                                               better: seq<Effective>, mirrors: Option<MirrorRules>,
                                               more: Option<MirrorRules>, volumes: seq<string>, fewer: seq<string>)
    requires Fulfilled(cls, links, mirrors, volumes)
    requires AsksLess(weaker, cls) && AtLeastAsGood(better, links) && MirrorsMore(more, mirrors)
    requires forall v :: v in fewer ==> v in volumes
    ensures Fulfilled(weaker, better, more, fewer)
  {
    var e :| e in links && e.gapHours <= cls.maxAgeHours as real;
    var b :| b in better && Dominates(b, e);
    assert b.gapHours <= weaker.maxAgeHours as real;
    forall t: Tier ensures TierKept(weaker, better, more, fewer, t) {
      TierStaysKept(cls, weaker, links, better, mirrors, more, volumes, fewer, t);
    }
    if weaker.requireAppConsistent {
      var c :| c in links && c.appConsistent && c.gapHours <= cls.maxAgeHours as real;
      var d :| d in better && Dominates(d, c);
      assert d.gapHours <= weaker.maxAgeHours as real;
    }
  }

  /** A plan that fulfils a class keeps fulfilling it when links are added to its
      group, whatever their schedules and policies. */
  lemma {:induction false} AddedLinksStayFulfilled(cls: ProtectionClass, g: PlanGroup, larger: PlanGroup,
                                                   links: seq<Effective>, more: seq<Effective>,
                                                   mirrors: Option<MirrorRules>, volumes: seq<string>)
    requires ValidPlan(g) && ValidPlan(larger) && AreEffective(links, g) && AreEffective(more, larger)
    requires larger.paused == g.paused && forall k :: 0 <= k < |g.links| ==> g.links[k] in larger.links
    requires Fulfilled(cls, links, mirrors, volumes)
    ensures Fulfilled(cls, more, mirrors, volumes)
  {
    forall e | e in links ensures e in more && e.intervalDays >= 0.0 {
      var k :| 0 <= k < |g.links| && Counts(g.links[k]) && e == EffectOf(g.links[k]);
      var j :| 0 <= j < |larger.links| && larger.links[j] == g.links[k];
      EffectiveIntervalsPositive(g.links[k]);
    }
    AddedLinksAreAsGood(links, more);
    MirrorsKeepThemselves(mirrors);
    FulfilledIsMonotone(cls, cls, links, more, mirrors, mirrors, volumes, volumes);
  }

  lemma {:induction false} MirrorsKeepThemselves(mirrors: Option<MirrorRules>)
    ensures MirrorsMore(mirrors, mirrors)
  {
    if mirrors.Some? {
      forall v, r | v in mirrors.value && 0 <= r < |mirrors.value[v]|
        ensures SomeKeepsMore(mirrors.value[v], mirrors.value[v][r])
      {
        assert KeepsMore(mirrors.value[v][r], mirrors.value[v][r]);
      }
    }
  }

  // ---------------------------------------------------------------- retention building up

  datatype Side = Primary | Secondary

  datatype Note = Undefined | BuildingUp(side: Side, tiers: seq<Tier>)

  function Asked(r: Requirement, side: Side): nat {
    if side.Primary? then r.primary else r.secondary
  }

  ghost predicate SideViolated(cls: ProtectionClass, links: seq<Effective>, mirrors: Option<MirrorRules>,
                               volumes: seq<string>, side: Side, t: Tier)
  {
    if side.Primary? then PrimaryViolated(cls, links, t) else SecondaryViolated(cls, links, mirrors, volumes, t)
  }

  /** The oldest backup known of any of the links' policies. */
  method OldestOf(links: seq<Effective>, store: map<string, int>) returns (oldest: Option<int>)
    ensures oldest == None <==> forall e :: e in links ==> e.policyName !in store
    ensures oldest.Some? ==> exists e :: e in links && e.policyName in store && store[e.policyName] == oldest.value
    ensures oldest.Some? ==> forall e :: e in links && e.policyName in store ==> oldest.value <= store[e.policyName]
  {
    oldest := None;
    for k := 0 to |links|
      invariant oldest == None <==> forall l :: 0 <= l < k ==> links[l].policyName !in store
      invariant oldest.Some? ==> exists e :: e in links && e.policyName in store && store[e.policyName] == oldest.value
      invariant oldest.Some? ==> forall l ::
                0 <= l < k && links[l].policyName in store ==> oldest.value <= store[links[l].policyName]
    {
      if links[k].policyName in store {
        var at := store[links[k].policyName];
        assert links[k] in links;
        if oldest == None || at < oldest.value {
          oldest := Some(at);
        }
      }
    }
  }

  function AgeDays(now: int, at: int): real {
    (now - at) as real / 86_400_000_000.0
  }

  /** Tier t is to be noted: asked for, not violated, some backup known, and none
      old enough yet. */
  ghost predicate StillBuilding(cls: ProtectionClass, links: seq<Effective>, store: map<string, int>, now: int,
                                mirrors: Option<MirrorRules>, volumes: seq<string>, side: Side, r: Requirement)
  {
    && Asked(r, side) > 0 && !SideViolated(cls, links, mirrors, volumes, side, r.tier)
    && (exists e :: e in Candidates(links, r.tier) && e.policyName in store)
    && (forall e :: e in Candidates(links, r.tier) && e.policyName in store ==>
          AgeDays(now, store[e.policyName]) + ReachTolerance(r.tier) < Asked(r, side) as real)
  }

  /** The configuration of one side reaches what the tier asks. */
  method Reachable(side: Side, r: Requirement, links: seq<Effective>, mirrors: Option<MirrorRules>,
                   volumes: seq<string>) returns (ok: bool)
    requires Asked(r, side) > 0 && Candidates(links, r.tier) != []
    ensures side.Primary? ==> ok == PrimaryKept(links, r.tier, r.primary)
    ensures side.Secondary? ==>
              ok == (mirrors == None || SecondaryKept(mirrors.value, volumes, Candidates(links, r.tier), r.secondary))
  {
    var candidates := Candidates(links, r.tier);
    if side.Primary? {
      var best := LongestRetention(candidates);
      ok := best + 0.01 >= r.primary as real;
    } else if mirrors == None {
      ok := true;
    } else {
      var violations := CheckSecondary(mirrors.value, volumes, candidates, r.secondary, r.tier);
      ok := violations == [];
    }
  }

  method IsBuilding(cls: ProtectionClass, links: seq<Effective>, store: map<string, int>, now: int,
                    mirrors: Option<MirrorRules>, volumes: seq<string>, side: Side,
                    r: Requirement) returns (building: bool)
    requires r == Requirement(r.tier, PrimaryDays(cls, r.tier), SecondaryDays(cls, r.tier))
    ensures building == StillBuilding(cls, links, store, now, mirrors, volumes, side, r)
  {
    var candidates := Candidates(links, r.tier);
    var oldest := OldestOf(candidates, store);
    if Asked(r, side) == 0 || oldest == None {
      return false;
    }
    assert candidates != [];
    var reachable := Reachable(side, r, links, mirrors, volumes);
    building := reachable && AgeDays(now, oldest.value) + ReachTolerance(r.tier) < Asked(r, side) as real;
    OlderIsLarger(candidates, store, now, oldest.value, Asked(r, side) as real - ReachTolerance(r.tier));
  }

  lemma {:induction false} OlderIsLarger(links: seq<Effective>, store: map<string, int>, now: int, oldest: int,
                                         limit: real)
    requires (exists e :: e in links && e.policyName in store && store[e.policyName] == oldest)
    requires forall e :: e in links && e.policyName in store ==> oldest <= store[e.policyName]
    ensures AgeDays(now, oldest) < limit
          <==> forall e :: e in links && e.policyName in store ==> AgeDays(now, store[e.policyName]) < limit
  {
    forall e | e in links && e.policyName in store ensures AgeDays(now, store[e.policyName]) <= AgeDays(now, oldest) {
      assert (now - store[e.policyName]) as real <= (now - oldest) as real;
    }
  }

  function AskedOf(cls: ProtectionClass, t: Tier): Requirement {
    Requirement(t, PrimaryDays(cls, t), SecondaryDays(cls, t))
  }

  /** How far, in days, a full history of the tier may fall short of what is asked. */
  ghost function ToleranceOf(t: Tier): int {
    match t
    case WeeklyTier => 7
    case MonthlyTier => 31
    case _ => 1
  }

  /** The backup is too young by more than the tolerance. */
  ghost predicate TooYoung(at: int, now: int, t: Tier, days: nat) {
    now - at < (days - ToleranceOf(t)) * 86_400_000_000
  }

  ghost function UnitsAsked(cls: ProtectionClass, side: Side, t: Tier): nat {
    if t !in cls.tiers then 0 else if side.Primary? then cls.tiers[t].primary else cls.tiers[t].secondary
  }

  lemma {:induction false} TooYoungByAge(at: int, now: int, t: Tier, days: nat)
    ensures AgeDays(now, at) + ReachTolerance(t) < days as real <==> TooYoung(at, now, t, days)
  {
    var age, left := (now - at) as real, (days - ToleranceOf(t)) as real;
    assert ReachTolerance(t) == ToleranceOf(t) as real;
    assert AgeDays(now, at) < left <==> age < left * 86_400_000_000.0;
    assert left * 86_400_000_000.0 == ((days - ToleranceOf(t)) * 86_400_000_000) as real;
  }

  /** A tier is building up on a side exactly if the class's entry asks something of
      it, the configuration gives it, some link of the tier or a finer one has a
      backup, and all these backups are too young. */
  lemma {:induction false} BuildingIffTooYoung(cls: ProtectionClass, links: seq<Effective>, store: map<string, int>,
                                               now: int, mirrors: Option<MirrorRules>, volumes: seq<string>, side: Side,
                                               t: Tier)
    ensures StillBuilding(cls, links, store, now, mirrors, volumes, side, AskedOf(cls, t))
       <==> && UnitsAsked(cls, side, t) > 0 && !SideViolated(cls, links, mirrors, volumes, side, t)
            && (exists e :: e in links && AtLeastAsFine(e, t) && e.policyName in store)
            && (forall e :: e in links && AtLeastAsFine(e, t) && e.policyName in store ==>
                  TooYoung(store[e.policyName], now, t, InDays(t, UnitsAsked(cls, side, t))))
  {
    DaysAsked(cls, t);
    var days := Asked(AskedOf(cls, t), side);
    assert days == InDays(t, UnitsAsked(cls, side, t));
    forall e
      ensures e in Candidates(links, t) <==> e in links && AtLeastAsFine(e, t)
    {
      CandidatesAreFine(links, t, e);
    }
    forall e: Effective | e.policyName in store
      ensures AgeDays(now, store[e.policyName]) + ReachTolerance(t) < days as real
         <==> TooYoung(store[e.policyName], now, t, days)
    {
      TooYoungByAge(store[e.policyName], now, t, days);
    }
  }

  /** Tier `t` is listed as building up on the side. */
  ghost predicate NotedFor(notes: seq<Note>, side: Side, t: Tier) {
    exists n :: n in notes && n.BuildingUp? && n.side == side && t in n.tiers
  }

  method SideNotes(cls: ProtectionClass, requirements: seq<Requirement>, links: seq<Effective>, store: map<string, int>,
                   now: int, mirrors: Option<MirrorRules>, volumes: seq<string>, side: Side) returns (parts: seq<Tier>)
    requires forall r :: r in requirements <==> r == AskedOf(cls, r.tier) && (r.primary != 0 || r.secondary != 0)
    ensures forall t :: t in parts <==> StillBuilding(cls, links, store, now, mirrors, volumes, side, AskedOf(cls, t))
  {
    parts := [];
    for k := 0 to |requirements|
      invariant forall t :: t in parts <==>
                  exists i :: 0 <= i < k && requirements[i].tier == t &&
                              StillBuilding(cls, links, store, now, mirrors, volumes, side, requirements[i])
    {
      var r := requirements[k];
      assert r in requirements;
      var building := IsBuilding(cls, links, store, now, mirrors, volumes, side, r);
      if building {
        parts := parts + [r.tier];
      }
    }
    forall t ensures t in parts <==> StillBuilding(cls, links, store, now, mirrors, volumes, side, AskedOf(cls, t)) {
      if t in parts {
        var i :| 0 <= i < |requirements| && requirements[i].tier == t &&
                 StillBuilding(cls, links, store, now, mirrors, volumes, side, requirements[i]);
        var r := requirements[i];
        assert r in requirements;
      }
      if StillBuilding(cls, links, store, now, mirrors, volumes, side, AskedOf(cls, t)) {
        assert AskedOf(cls, t) in requirements;
        var i :| 0 <= i < |requirements| && requirements[i] == AskedOf(cls, t);
      }
    }
  }

  lemma {:induction false} NotedBySide(primary: seq<Tier>, secondary: seq<Tier>, notes: seq<Note>, t: Tier)
    requires notes == (if primary != [] then [BuildingUp(Primary, primary)] else [])
                      + (if secondary != [] then [BuildingUp(Secondary, secondary)] else [])
    ensures NotedFor(notes, Primary, t) <==> t in primary
    ensures NotedFor(notes, Secondary, t) <==> t in secondary
  {
    if t in primary { assert BuildingUp(Primary, primary) in notes; }
    if t in secondary { assert BuildingUp(Secondary, secondary) in notes; }
  }

  /** The notes: a tier is listed on a side exactly while it is still building up,
      so never where the configuration check reports that side as violated. */
  method ReachNotes(cls: ProtectionClass, links: seq<Effective>, oldestPrimary: map<string, int>,
                    oldestSecondary: map<string, int>, now: int, mirrors: Option<MirrorRules>,
                    volumes: seq<string>) returns (notes: seq<Note>)
    ensures forall t ::
              NotedFor(notes, Primary, t)
              <==> StillBuilding(cls, links, oldestPrimary, now, mirrors, volumes, Primary, AskedOf(cls, t))
    ensures forall t ::
              NotedFor(notes, Secondary, t)
              <==> StillBuilding(cls, links, oldestSecondary, now, mirrors, volumes, Secondary, AskedOf(cls, t))
    ensures forall side, t :: NotedFor(notes, side, t) ==> !SideViolated(cls, links, mirrors, volumes, side, t)
    ensures Undefined in notes <==> forall t: Tier :: PrimaryDays(cls, t) == 0 && SecondaryDays(cls, t) == 0
  {
    var requirements := TierRequirements(cls);
    if requirements == [] {
      forall t: Tier ensures PrimaryDays(cls, t) == 0 && SecondaryDays(cls, t) == 0 {
        assert AskedOf(cls, t) !in requirements;
      }
      return [Undefined];
    }
    var first := requirements[0];
    assert first in requirements;
    var primary := SideNotes(cls, requirements, links, oldestPrimary, now, mirrors, volumes, Primary);
    var secondary := SideNotes(cls, requirements, links, oldestSecondary, now, mirrors, volumes, Secondary);
    notes := (if primary != [] then [BuildingUp(Primary, primary)] else [])
             + (if secondary != [] then [BuildingUp(Secondary, secondary)] else []);
    forall t
      ensures (NotedFor(notes, Primary, t) <==> t in primary) && (NotedFor(notes, Secondary, t) <==> t in secondary)
    {
      NotedBySide(primary, secondary, notes, t);
    }
    forall side: Side, t | NotedFor(notes, side, t) ensures !SideViolated(cls, links, mirrors, volumes, side, t) {
      assert side == Primary || side == Secondary;
    }
  }
}
