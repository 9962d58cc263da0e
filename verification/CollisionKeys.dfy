/** What the reported clusters are, and why their keys identify them: the same
    links in any order give the same keys, and no two clusters share one. */
module CollisionKeys {
  import opened Wrappers
  import opened ClockTimes
  import opened Texts
  import opened Schedules
  import opened ScheduleCollisions

  // ---------------------------------------------------------------- one cluster per component

  lemma {:induction false} LeadersAreTheFirstOnes(slots: seq<Slot>, threshold: int, n: nat, i: nat)
    requires n <= |slots|
    ensures i in Leaders(slots, threshold, n) <==> i < n && Leads(slots, threshold, i)
  {
    if n > 0 { LeadersAreTheFirstOnes(slots, threshold, n - 1, i); }
  }

  lemma {:induction false} HasLeader(slots: seq<Slot>, threshold: int, i: nat) returns (l: nat)
    requires i < |slots|
    ensures l <= i && Leads(slots, threshold, l) && Connected(slots, threshold, l, i)
    decreases i
  {
    ConnectedReflexive(slots, threshold, i);
    l := i;
    if !Leads(slots, threshold, i) {
      var k: nat :| k < i && Connected(slots, threshold, k, i);
      l := HasLeader(slots, threshold, k);
      ConnectedTransitive(slots, threshold, l, k, i);
    }
  }

  lemma {:induction false} OneLeader(slots: seq<Slot>, threshold: int, l: nat, m: nat, i: nat)
    requires l in Leaders(slots, threshold, |slots|) && m in Leaders(slots, threshold, |slots|)
    requires Connected(slots, threshold, l, i) && Connected(slots, threshold, m, i)
    ensures l == m
  {
    LeadersAreTheFirstOnes(slots, threshold, |slots|, l);
    LeadersAreTheFirstOnes(slots, threshold, |slots|, m);
    ConnectedSymmetric(slots, threshold, l, i);
    ConnectedSymmetric(slots, threshold, m, i);
    ConnectedTransitive(slots, threshold, l, i, m);
    ConnectedTransitive(slots, threshold, m, i, l);
  }

  /** Every slot lies in the component of exactly one leader, so it is in at
      most one reported cluster. */
  lemma {:induction false} EverySlotHasOneLeader(slots: seq<Slot>, threshold: int, i: nat)
    requires i < |slots|
    ensures exists l :: l in Leaders(slots, threshold, |slots|) && Connected(slots, threshold, l, i)
    ensures forall l, m | l in Leaders(slots, threshold, |slots|) && m in Leaders(slots, threshold, |slots|) ::
              Connected(slots, threshold, l, i) && Connected(slots, threshold, m, i) ==> l == m
  {
    var l := HasLeader(slots, threshold, i);
    LeadersAreTheFirstOnes(slots, threshold, |slots|, l);
    forall l, m | l in Leaders(slots, threshold, |slots|) && m in Leaders(slots, threshold, |slots|)
                  && Connected(slots, threshold, l, i) && Connected(slots, threshold, m, i)
      ensures l == m
    {
      OneLeader(slots, threshold, l, m, i);
    }
  }

  lemma {:induction false} SameComponent(slots: seq<Slot>, threshold: int, i: nat, j: nat, n: nat)
    requires i < |slots| && j < |slots| && n <= |slots| && Connected(slots, threshold, i, j)
    ensures ComponentUpTo(slots, threshold, i, n) == ComponentUpTo(slots, threshold, j, n)
  {
    if n > 0 {
      SameComponent(slots, threshold, i, j, n - 1);
      ConnectedSymmetric(slots, threshold, i, j);
      if Connected(slots, threshold, i, n - 1) { ConnectedTransitive(slots, threshold, j, i, n - 1); }
      if Connected(slots, threshold, j, n - 1) { ConnectedTransitive(slots, threshold, i, j, n - 1); }
    }
  }

  ghost predicate ReportedFor(slots: seq<Slot>, threshold: int, c: Cluster, i: nat) {
    i < |slots| && |Component(slots, threshold, i)| >= 2 && c == ClusterOf(Component(slots, threshold, i))
  }

  lemma {:induction false} ReportedIffLeader(slots: seq<Slot>, threshold: int, leaders: seq<nat>, c: Cluster)
    requires forall k :: 0 <= k < |leaders| ==> leaders[k] < |slots|
    ensures c in Reported(slots, threshold, leaders)
          <==> exists l :: l in leaders && ReportedFor(slots, threshold, c, l)
  {
    if leaders != [] {
      var rest, last := leaders[..|leaders| - 1], leaders[|leaders| - 1];
      ReportedIffLeader(slots, threshold, rest, c);
      assert leaders == rest + [last];
      OneMoreLeader(slots, threshold, leaders, c);
      assert forall l :: l in leaders <==> l in rest || l == last;
    }
  }

  lemma {:induction false} OneMoreLeader(slots: seq<Slot>, threshold: int, leaders: seq<nat>, c: Cluster)
    requires leaders != [] && forall k :: 0 <= k < |leaders| ==> leaders[k] < |slots|
    ensures
      var n := |leaders| - 1;
      c in Reported(slots, threshold, leaders)
      <==> c in Reported(slots, threshold, leaders[..n]) || ReportedFor(slots, threshold, c, leaders[n])
  {
  }

  /** A cluster is reported exactly when it is the component of some slot that
      collides, directly or through others, with a second one. */
  lemma {:induction false} ReportedExactlyTheComponents(slots: seq<Slot>, threshold: int, c: Cluster)
    ensures c in Collisions(slots, threshold) <==> exists i :: ReportedFor(slots, threshold, c, i)
  {
    var leaders := Leaders(slots, threshold, |slots|);
    ReportedIffLeader(slots, threshold, leaders, c);
    if exists i :: ReportedFor(slots, threshold, c, i) {
      var i: nat :| ReportedFor(slots, threshold, c, i);
      var l := HasLeader(slots, threshold, i);
      LeadersAreTheFirstOnes(slots, threshold, |slots|, l);
      SameComponent(slots, threshold, l, i, |slots|);
      assert ReportedFor(slots, threshold, c, l);
    }
  }

  // ---------------------------------------------------------------- connection depends on the slots only

  ghost predicate IsChain(present: multiset<Slot>, threshold: int, chain: seq<Slot>, a: Slot, b: Slot) {
    && |chain| > 0 && chain[0] == a && chain[|chain| - 1] == b
    && (forall k :: 0 <= k < |chain| ==> chain[k] in present)
    && (forall k :: 0 <= k < |chain| - 1 ==> Collide(chain[k], chain[k + 1], threshold))
  }

  ghost predicate Chained(present: multiset<Slot>, threshold: int, a: Slot, b: Slot) {
    exists chain: seq<Slot> :: IsChain(present, threshold, chain, a, b)
  }

  lemma {:induction false} ConnectedImpliesChained(slots: seq<Slot>, threshold: int, i: nat, j: nat)
    requires i < |slots| && j < |slots| && Connected(slots, threshold, i, j)
    ensures Chained(multiset(slots), threshold, slots[i], slots[j])
  {
    var path :| IsPath(slots, threshold, path, i, j);
    var chain := seq(|path|, k requires 0 <= k < |path| => slots[path[k]]);
    assert IsChain(multiset(slots), threshold, chain, slots[i], slots[j]);
  }

  lemma {:induction false} ChainImpliesConnected(slots: seq<Slot>, threshold: int, chain: seq<Slot>, i: nat, j: nat)
    requires threshold >= 0 && i < |slots| && j < |slots|
    requires IsChain(multiset(slots), threshold, chain, slots[i], slots[j])
    ensures Connected(slots, threshold, i, j)
  {
    if |chain| == 1 {
      ConnectedByCollision(slots, threshold, i, j);
    } else {
      assert chain[1] in multiset(slots);
      var k :| 0 <= k < |slots| && slots[k] == chain[1];
      assert Collide(chain[0], chain[0 + 1], threshold);
      ConnectedByCollision(slots, threshold, i, k);
      forall m | 0 <= m < |chain[1..]| - 1 ensures Collide(chain[1..][m], chain[1..][m + 1], threshold) {
        assert Collide(chain[m + 1], chain[m + 1 + 1], threshold);
      }
      ChainImpliesConnected(slots, threshold, chain[1..], k, j);
      ConnectedTransitive(slots, threshold, i, k, j);
    }
  }

  lemma {:induction false} ConnectedIffChained(slots: seq<Slot>, threshold: int, i: nat, j: nat)
    requires threshold >= 0 && i < |slots| && j < |slots|
    ensures Connected(slots, threshold, i, j) <==> Chained(multiset(slots), threshold, slots[i], slots[j])
  {
    if Connected(slots, threshold, i, j) { ConnectedImpliesChained(slots, threshold, i, j); }
    if Chained(multiset(slots), threshold, slots[i], slots[j]) {
      var chain :| IsChain(multiset(slots), threshold, chain, slots[i], slots[j]);
      ChainImpliesConnected(slots, threshold, chain, i, j);
    }
  }

  /** The members of a component are the slots a chain leads to, in their order. */
  ghost function Reached(slots: seq<Slot>, present: multiset<Slot>, threshold: int, a: Slot): seq<Slot> {
    if slots == [] then []
    else
      var n := |slots| - 1;
      Reached(slots[..n], present, threshold, a) + if Chained(present, threshold, a, slots[n]) then [slots[n]] else []
  }

  lemma {:induction false} ComponentIsReached(slots: seq<Slot>, threshold: int, i: nat, n: nat)
    requires threshold >= 0 && i < |slots| && n <= |slots|
    ensures ComponentUpTo(slots, threshold, i, n) == Reached(slots[..n], multiset(slots), threshold, slots[i])
  {
    if n > 0 {
      ComponentIsReached(slots, threshold, i, n - 1);
      ConnectedIffChained(slots, threshold, i, n - 1);
      assert slots[..n][..n - 1] == slots[..n - 1];
    }
  }

  // ---------------------------------------------------------------- sorted members depend on the slots of each rank

  lemma {:induction false} RankLeOrder(a: Rank, b: Rank, c: Rank)
    ensures RankLe(a, b) || RankLe(b, a)
    ensures RankLe(a, b) && RankLe(b, a) ==> a == b
    ensures RankLe(a, b) && RankLe(b, c) ==> RankLe(a, c)
  {
    TextLeTotal(a.groupId, b.groupId);
    TextLeTotal(a.policyId, b.policyId);
    if RankLe(a, b) && RankLe(b, a) {
      if a.groupId != b.groupId { TextLeAntisymmetric(a.groupId, b.groupId); }
      TextLeAntisymmetric(a.policyId, b.policyId);
    }
    if RankLe(a, b) && RankLe(b, c) && a.minutes == b.minutes == c.minutes {
      if a.groupId != b.groupId && b.groupId != c.groupId {
        TextLeTransitive(a.groupId, b.groupId, c.groupId);
        if a.groupId == c.groupId { TextLeAntisymmetric(a.groupId, b.groupId); }
      } else if a.groupId == b.groupId == c.groupId {
        TextLeTransitive(a.policyId, b.policyId, c.policyId);
      }
    }
  }

  ghost predicate InOrder(members: seq<Slot>) {
    forall a, b :: 0 <= a < b < |members| ==> RankLe(RankOf(members[a]), RankOf(members[b]))
  }

  lemma {:induction false} InsertKeepsOrder(sorted: seq<Slot>, s: Slot)
    requires InOrder(sorted)
    ensures InOrder(Insert(sorted, s))
  {
    if sorted == [] {
    } else {
      var last, rest := sorted[|sorted| - 1], sorted[..|sorted| - 1];
      RankLeOrder(RankOf(last), RankOf(s), RankOf(s));
      if RankLe(RankOf(last), RankOf(s)) {
        forall a | 0 <= a < |sorted| ensures RankLe(RankOf(sorted[a]), RankOf(s)) {
          RankLeOrder(RankOf(sorted[a]), RankOf(last), RankOf(s));
        }
      } else {
        InsertKeepsOrder(rest, s);
        var r := Insert(rest, s);
        forall a | 0 <= a < |r| ensures RankLe(RankOf(r[a]), RankOf(last)) {
          assert r[a] in multiset(r);
          assert r[a] in multiset(rest) || r[a] == s;
        }
      }
    }
  }

  lemma {:induction false} SortedInOrder(members: seq<Slot>)
    ensures InOrder(Sorted(members))
  {
    if members != [] {
      SortedInOrder(members[..|members| - 1]);
      InsertKeepsOrder(Sorted(members[..|members| - 1]), members[|members| - 1]);
    }
  }

  /** The slots of one rank, in their order. */
  ghost function OfRank(slots: seq<Slot>, r: Rank): seq<Slot> {
    if slots == [] then []
    else
      var n := |slots| - 1;
      OfRank(slots[..n], r) + if RankOf(slots[n]) == r then [slots[n]] else []
  }

  /** Slots of one rank come in the same order in both. */
  ghost predicate AgreeByRank(a: seq<Slot>, b: seq<Slot>) {
    forall r :: OfRank(a, r) == OfRank(b, r)
  }

  lemma {:induction false} OfRankOfTwo(a: seq<Slot>, b: seq<Slot>, r: Rank)
    ensures OfRank(a + b, r) == OfRank(a, r) + OfRank(b, r)
  {
    if b == [] {
      assert a + b == a;
    } else {
      var n := |b| - 1;
      assert (a + b)[..|a + b| - 1] == a + b[..n];
      OfRankOfTwo(a, b[..n], r);
      Regrouped(OfRank(a, r), OfRank(b[..n], r), if RankOf(b[n]) == r then [b[n]] else []);
    }
  }

  lemma {:induction false} OfRankOfOne(s: Slot, r: Rank)
    ensures OfRank([s], r) == if RankOf(s) == r then [s] else []
  {
    assert [s][..0] == [];
  }

  lemma {:induction false} OfRankOfAppended(slots: seq<Slot>, x: Slot, r: Rank)
    ensures OfRank(slots + [x], r) == if RankOf(x) == r then OfRank(slots, r) + [x] else OfRank(slots, r)
  {
    assert (slots + [x])[..|slots|] == slots;
  }

  lemma {:induction false} AppendedEitherWay(slots: seq<Slot>, x: Slot, y: Slot, r: Rank)
    requires RankOf(x) != RankOf(y)
    ensures OfRank((slots + [x]) + [y], r) == OfRank((slots + [y]) + [x], r)
  {
    OfRankOfAppended(slots, x, r);
    OfRankOfAppended(slots, y, r);
    OfRankOfAppended(slots + [x], y, r);
    OfRankOfAppended(slots + [y], x, r);
  }

  lemma {:induction false} InsertedBefore(rest: seq<Slot>, last: Slot, s: Slot, inserted: seq<Slot>, r: Rank)
    requires RankOf(last) != RankOf(s) && OfRank(inserted, r) == OfRank(rest + [s], r)
    ensures OfRank(inserted + [last], r) == OfRank((rest + [last]) + [s], r)
  {
    OfRankOfAppended(inserted, last, r);
    OfRankOfAppended(rest + [s], last, r);
    AppendedEitherWay(rest, s, last, r);
  }

  /** Insertion puts a slot behind the others of its rank. */
  lemma {:induction false} InsertedBehind(sorted: seq<Slot>, s: Slot, r: Rank)
    ensures OfRank(Insert(sorted, s), r) == OfRank(sorted + [s], r)
  {
    if sorted != [] {
      var rest, last := sorted[..|sorted| - 1], sorted[|sorted| - 1];
      if !RankLe(RankOf(last), RankOf(s)) {
        InsertedBehind(rest, s, r);
        RankLeOrder(RankOf(last), RankOf(s), RankOf(s));
        InsertedBefore(rest, last, s, Insert(rest, s), r);
        assert rest + [last] == sorted;
      }
    }
  }

  /** Sorting is stable. */
  lemma {:induction false} SortedIsStable(members: seq<Slot>, r: Rank)
    ensures OfRank(Sorted(members), r) == OfRank(members, r)
  {
    if members != [] {
      var n := |members| - 1;
      assert members == members[..n] + [members[n]];
      SortedIsStable(members[..n], r);
      InsertedBehind(Sorted(members[..n]), members[n], r);
      OfRankOfTwo(Sorted(members[..n]), [members[n]], r);
      OfRankOfTwo(members[..n], [members[n]], r);
    }
  }

  lemma {:induction false} OfRankFirst(slots: seq<Slot>, r: Rank)
    requires slots != []
    ensures OfRank(slots, r) == (if RankOf(slots[0]) == r then [slots[0]] else []) + OfRank(slots[1..], r)
  {
    assert slots == [slots[0]] + slots[1..];
    OfRankOfTwo([slots[0]], slots[1..], r);
    OfRankOfOne(slots[0], r);
  }

  lemma {:induction false} OfRankMember(slots: seq<Slot>, r: Rank) returns (k: nat)
    requires OfRank(slots, r) != []
    ensures k < |slots| && RankOf(slots[k]) == r
  {
    var n := |slots| - 1;
    if RankOf(slots[n]) == r { k := n; } else { k := OfRankMember(slots[..n], r); }
  }

  lemma {:induction false} SameFirst(a: seq<Slot>, b: seq<Slot>)
    requires InOrder(a) && InOrder(b) && AgreeByRank(a, b) && a != []
    ensures b != [] && a[0] == b[0]
  {
    var ra := RankOf(a[0]);
    OfRankFirst(a, ra);
    assert OfRank(b, ra) == OfRank(a, ra);
    var k := OfRankMember(b, ra);
    var rb := RankOf(b[0]);
    OfRankFirst(b, rb);
    assert OfRank(a, rb) == OfRank(b, rb);
    var j := OfRankMember(a, rb);
    RankLeOrder(ra, rb, ra);
    assert ra == rb;
    OfRankFirst(b, ra);
    assert OfRank(a, ra)[0] == a[0] && OfRank(b, ra)[0] == b[0];
  }

  lemma {:induction false} AgreeAfterFirst(a: seq<Slot>, b: seq<Slot>)
    requires a != [] && b != [] && a[0] == b[0] && AgreeByRank(a, b)
    ensures AgreeByRank(a[1..], b[1..])
  {
    forall r ensures OfRank(a[1..], r) == OfRank(b[1..], r) {
      OfRankFirst(a, r);
      OfRankFirst(b, r);
      assert OfRank(a, r) == OfRank(b, r);
      var first := if RankOf(a[0]) == r then [a[0]] else [];
      assert OfRank(a[1..], r) == OfRank(a, r)[|first|..];
      assert OfRank(b[1..], r) == OfRank(b, r)[|first|..];
    }
  }

  /** One order of ranks, and one order within each, make one sequence. */
  lemma {:induction false} OneSlotSequence(a: seq<Slot>, b: seq<Slot>)
    requires InOrder(a) && InOrder(b) && AgreeByRank(a, b)
    ensures a == b
  {
    if a != [] {
      SameFirst(a, b);
      AgreeAfterFirst(a, b);
      OneSlotSequence(a[1..], b[1..]);
    } else if b != [] {
      assert AgreeByRank(b, a);
      SameFirst(b, a);
    }
  }

  lemma {:induction false} OneClusterOf(a: seq<Slot>, b: seq<Slot>)
    requires AgreeByRank(a, b)
    ensures ClusterOf(a) == ClusterOf(b)
  {
    SortedInOrder(a);
    SortedInOrder(b);
    forall r ensures OfRank(Sorted(a), r) == OfRank(Sorted(b), r) {
      SortedIsStable(a, r);
      SortedIsStable(b, r);
      assert OfRank(a, r) == OfRank(b, r);
    }
    OneSlotSequence(Sorted(a), Sorted(b));
  }

  lemma {:induction false} ReachedOfAppended(slots: seq<Slot>, x: Slot, present: multiset<Slot>, threshold: int,
                                             a: Slot)
    ensures Reached(slots + [x], present, threshold, a)
         == if Chained(present, threshold, a, x) then Reached(slots, present, threshold, a) + [x]
            else Reached(slots, present, threshold, a)
  {
    assert (slots + [x])[..|slots|] == slots;
  }

  /** What a chain leads to, within one rank. */
  lemma {:induction false} ReachedOfRank(slots: seq<Slot>, present: multiset<Slot>, threshold: int, a: Slot, r: Rank)
    ensures OfRank(Reached(slots, present, threshold, a), r) == Reached(OfRank(slots, r), present, threshold, a)
  {
    if slots != [] {
      var n := |slots| - 1;
      var front, x := slots[..n], slots[n];
      assert slots == front + [x];
      ReachedOfRank(front, present, threshold, a, r);
      ReachedOfAppended(front, x, present, threshold, a);
      OfRankOfAppended(front, x, r);
      OfRankOfAppended(Reached(front, present, threshold, a), x, r);
      ReachedOfAppended(OfRank(front, r), x, present, threshold, a);
    }
  }

  // ---------------------------------------------------------------- slots of links

  lemma {:induction false} SlotOfReadings(link: Link, times: seq<string>, readings: seq<Option<ClockTime>>, s: Slot)
    returns (k: nat)
    requires Contributes(link) && |times| == |readings| && s in SlotsOfReadings(link, times, readings)
    ensures k < |times| && readings[k].Some? && s == SlotAt(link, times[k], readings[k].value)
  {
    var n := |times| - 1;
    if s in SlotsOfReadings(link, times[..n], readings[..n]) {
      k := SlotOfReadings(link, times[..n], readings[..n], s);
    } else {
      k := n;
    }
  }

  lemma {:induction false} SlotOfTimes(link: Link, times: seq<string>, s: Slot)
    requires Contributes(link) && s in SlotsOfTimes(link, times)
    ensures s.time in times && ParseTime(s.time).Some? && s == SlotAt(link, s.time, ParseTime(s.time).value)
  {
    var k := SlotOfReadings(link, times, Readings(times), s);
  }

  lemma {:induction false} SlotOrigin(links: seq<Link>, s: Slot) returns (l: nat)
    requires s in SlotsOf(links)
    ensures l < |links| && s in SlotsOfLink(links[l]) && Contributes(links[l])
  {
    var n := |links| - 1;
    if s in SlotsOfLink(links[n]) {
      l := n;
    } else {
      l := SlotOrigin(links[..n], s);
    }
  }

  /** The links of one primary key. */
  ghost function LinksOf(links: seq<Link>, groupId: string, policyId: string): seq<Link> {
    if links == [] then []
    else
      var n := |links| - 1;
      LinksOf(links[..n], groupId, policyId)
      + if links[n].groupId == groupId && links[n].policyId == policyId then [links[n]] else []
  }

  /** The objects of a link carry the identifiers of its key. */
  ghost predicate Referring(links: seq<Link>) {
    forall k :: 0 <= k < |links| ==>
      && (links[k].group.Some? ==> links[k].group.value.id == links[k].groupId)
      && (links[k].policy.Some? ==> links[k].policy.value.id == links[k].policyId)
  }

  lemma {:induction false} RankOfLinkSlots(link: Link, times: seq<string>, readings: seq<Option<ClockTime>>, r: Rank)
    requires Contributes(link) && (r.groupId != link.group.value.id || r.policyId != link.policy.value.id)
    requires |times| == |readings|
    ensures OfRank(SlotsOfReadings(link, times, readings), r) == []
  {
    if times != [] {
      var n := |times| - 1;
      RankOfLinkSlots(link, times[..n], readings[..n], r);
      if readings[n].Some? {
        OfRankOfAppended(SlotsOfReadings(link, times[..n], readings[..n]), SlotAt(link, times[n], readings[n].value),
                         r);
      } else {
        assert SlotsOfReadings(link, times, readings) == SlotsOfReadings(link, times[..n], readings[..n]);
      }
    }
  }

  /** The slots of a rank come from the links of its key alone. */
  lemma {:induction false} RankComesFromItsLinks(links: seq<Link>, r: Rank)
    requires Referring(links)
    ensures OfRank(SlotsOf(links), r) == OfRank(SlotsOf(LinksOf(links, r.groupId, r.policyId)), r)
  {
    if links != [] {
      var n := |links| - 1;
      var last, own := links[n], LinksOf(links[..n], r.groupId, r.policyId);
      RankComesFromItsLinks(links[..n], r);
      OfRankOfTwo(SlotsOf(links[..n]), SlotsOfLink(last), r);
      if last.groupId == r.groupId && last.policyId == r.policyId {
        assert (own + [last])[..|own|] == own;
        OfRankOfTwo(SlotsOf(own), SlotsOfLink(last), r);
      } else {
        if Contributes(last) {
          RankOfLinkSlots(last, last.schedule.value.times, Readings(last.schedule.value.times), r);
        }
        assert OfRank(SlotsOfLink(last), r) == [];
        assert LinksOf(links, r.groupId, r.policyId) == own;
      }
    }
  }

  lemma {:induction false} LinksOfLast(links: seq<Link>, groupId: string, policyId: string, n: nat)
    requires |links| == n + 1
    ensures links == links[..n] + [links[n]]
    ensures LinksOf(links, groupId, policyId)
         == if links[n].groupId == groupId && links[n].policyId == policyId
            then LinksOf(links[..n], groupId, policyId) + [links[n]] else LinksOf(links[..n], groupId, policyId)
  {
  }

  ghost predicate CountsOf(all: seq<Link>, some: seq<Link>, groupId: string, policyId: string, x: Link) {
    multiset(some)[x] == if x.groupId == groupId && x.policyId == policyId then multiset(all)[x] else 0
  }

  lemma {:induction false} CountsOfAppended(all: seq<Link>, some: seq<Link>, groupId: string, policyId: string,
                                            last: Link, x: Link)
    requires CountsOf(all, some, groupId, policyId, x)
    ensures
      var counts := last.groupId == groupId && last.policyId == policyId;
      CountsOf(all + [last], if counts then some + [last] else some, groupId, policyId, x)
  {
    CountAppended(all, last, x);
    CountAppended(some, last, x);
  }

  lemma {:induction false} LinksOfCount(links: seq<Link>, groupId: string, policyId: string, x: Link)
    ensures CountsOf(links, LinksOf(links, groupId, policyId), groupId, policyId, x)
  {
    if links != [] {
      var n := |links| - 1;
      var front := links[..n];
      LinksOfCount(front, groupId, policyId, x);
      LinksOfLast(links, groupId, policyId, n);
      CountsOfAppended(front, LinksOf(front, groupId, policyId), groupId, policyId, links[n], x);
    }
  }

  lemma {:induction false} LinksOfMember(links: seq<Link>, groupId: string, policyId: string, i: nat) returns (k: nat)
    requires i < |LinksOf(links, groupId, policyId)|
    ensures k < |links| && LinksOf(links, groupId, policyId)[i] == links[k]
    ensures links[k].groupId == groupId && links[k].policyId == policyId
    ensures i == |LinksOf(links[..k], groupId, policyId)|
  {
    var n := |links| - 1;
    if i < |LinksOf(links[..n], groupId, policyId)| {
      k := LinksOfMember(links[..n], groupId, policyId, i);
      assert links[..n][..k] == links[..k];
    } else {
      k := n;
    }
  }

  /** Primary keys are distinct. */
  lemma {:induction false} OneLinkOf(links: seq<Link>, groupId: string, policyId: string)
    requires LoadedLinks(links)
    ensures |LinksOf(links, groupId, policyId)| <= 1
  {
    if |LinksOf(links, groupId, policyId)| > 1 {
      var j := LinksOfMember(links, groupId, policyId, 0);
      var k := LinksOfMember(links, groupId, policyId, 1);
    }
  }

  lemma {:induction false} AtMostOneElement<T>(a: seq<T>, b: seq<T>)
    requires multiset(a) == multiset(b) && |a| <= 1
    ensures a == b
  {
    assert |a| == |multiset(a)| == |multiset(b)| == |b|;
    if a != [] {
      var x := b[0];
      assert x in multiset(a);
    }
  }

  lemma {:induction false} SameLinksOf(a: seq<Link>, b: seq<Link>, groupId: string, policyId: string)
    requires multiset(a) == multiset(b) && LoadedLinks(a)
    ensures LinksOf(a, groupId, policyId) == LinksOf(b, groupId, policyId)
  {
    var x, y := LinksOf(a, groupId, policyId), LinksOf(b, groupId, policyId);
    OneLinkOf(a, groupId, policyId);
    SameCounts(a, b, groupId, policyId);
    AtMostOneElement(x, y);
  }

  lemma {:induction false} SameCounts(a: seq<Link>, b: seq<Link>, groupId: string, policyId: string)
    requires multiset(a) == multiset(b)
    ensures multiset(LinksOf(a, groupId, policyId)) == multiset(LinksOf(b, groupId, policyId))
  {
    forall l ensures multiset(LinksOf(a, groupId, policyId))[l] == multiset(LinksOf(b, groupId, policyId))[l] {
      LinksOfCount(a, groupId, policyId, l);
      LinksOfCount(b, groupId, policyId, l);
    }
  }

  lemma {:induction false} ReferringPermuted(a: seq<Link>, b: seq<Link>)
    requires multiset(a) == multiset(b) && LoadedLinks(a)
    ensures Referring(a) && Referring(b)
  {
    forall k | 0 <= k < |b|
      ensures b[k].group.Some? ==> b[k].group.value.id == b[k].groupId
      ensures b[k].policy.Some? ==> b[k].policy.value.id == b[k].policyId
    {
      assert b[k] in multiset(a);
      var j :| 0 <= j < |a| && a[j] == b[k];
    }
  }

  /** In whatever order the links are loaded, slots of one rank come in the same
      order: they belong to one link. */
  lemma {:induction false} PermutedLinksAgree(a: seq<Link>, b: seq<Link>)
    requires multiset(a) == multiset(b) && LoadedLinks(a)
    ensures AgreeByRank(SlotsOf(a), SlotsOf(b))
  {
    ReferringPermuted(a, b);
    forall r ensures OfRank(SlotsOf(a), r) == OfRank(SlotsOf(b), r) {
      RankComesFromItsLinks(a, r);
      RankComesFromItsLinks(b, r);
      SameLinksOf(a, b, r.groupId, r.policyId);
    }
  }

  // ---------------------------------------------------------------- the key theorems

  ghost function Keys(clusters: seq<Cluster>): set<string> {
    set c | c in clusters :: c.key
  }

  lemma {:induction false} SameComponentReached(slots: seq<Slot>, others: seq<Slot>, threshold: int, i: nat, j: nat)
    requires multiset(slots) == multiset(others) && threshold >= 0 && AgreeByRank(slots, others)
    requires i < |slots| && j < |others| && slots[i] == others[j]
    ensures ClusterOf(Component(slots, threshold, i)) == ClusterOf(Component(others, threshold, j))
  {
    var present, a := multiset(slots), slots[i];
    ComponentIsReached(slots, threshold, i, |slots|);
    ComponentIsReached(others, threshold, j, |others|);
    assert slots[..|slots|] == slots && others[..|others|] == others;
    forall r ensures OfRank(Component(slots, threshold, i), r) == OfRank(Component(others, threshold, j), r) {
      ReachedOfRank(slots, present, threshold, a, r);
      ReachedOfRank(others, present, threshold, a, r);
      assert OfRank(slots, r) == OfRank(others, r);
    }
    OneClusterOf(Component(slots, threshold, i), Component(others, threshold, j));
  }

  lemma {:induction false} AgreeSymmetric(a: seq<Slot>, b: seq<Slot>)
    requires AgreeByRank(a, b)
    ensures AgreeByRank(b, a)
  {
    forall r ensures OfRank(b, r) == OfRank(a, r) { assert OfRank(a, r) == OfRank(b, r); }
  }

  lemma {:induction false} SameClusterReported(slots: seq<Slot>, others: seq<Slot>, threshold: int, c: Cluster)
    requires multiset(slots) == multiset(others) && threshold >= 0 && AgreeByRank(slots, others)
    requires c in Collisions(slots, threshold)
    ensures c in Collisions(others, threshold)
  {
    ReportedExactlyTheComponents(slots, threshold, c);
    var i: nat :| ReportedFor(slots, threshold, c, i);
    assert slots[i] in multiset(others);
    var j :| 0 <= j < |others| && others[j] == slots[i];
    SameComponentReached(slots, others, threshold, i, j);
    MembersAreCounted(Component(slots, threshold, i));
    MembersAreCounted(Component(others, threshold, j));
    assert ReportedFor(others, threshold, c, j);
    ReportedExactlyTheComponents(others, threshold, c);
  }

  lemma {:induction false} MembersAreCounted(members: seq<Slot>)
    ensures |ClusterOf(members).members| == |members|
  {
    assert |Sorted(members)| == |multiset(Sorted(members))| == |multiset(members)|;
  }

  lemma {:induction false} NoneBelowZero(slots: seq<Slot>, threshold: int)
    requires threshold < 0
    ensures forall c :: c !in Collisions(slots, threshold)
    ensures Keys(Collisions(slots, threshold)) == {}
  {
    forall c | c in Collisions(slots, threshold) ensures false {
      ReportedExactlyTheComponents(slots, threshold, c);
      var i: nat :| ReportedFor(slots, threshold, c, i);
      AloneBelowZero(slots, threshold, i, |slots|);
    }
  }

  lemma {:induction false} AloneBelowZero(slots: seq<Slot>, threshold: int, i: nat, n: nat)
    requires threshold < 0 && i < |slots| && n <= |slots|
    ensures |ComponentUpTo(slots, threshold, i, n)| <= if i < n then 1 else 0
  {
    if n > 0 {
      AloneBelowZero(slots, threshold, i, n - 1);
      if Connected(slots, threshold, i, n - 1) {
        var path :| IsPath(slots, threshold, path, i, n - 1);
        assert |path| > 1 ==> Collide(slots[path[0]], slots[path[0 + 1]], threshold);
      }
    }
  }

  /** The reported clusters, keys and members, do not depend on the order in which
      the links are loaded, although the order of the unions and the roots do. */
  lemma {:induction false} KeysAreCanonical(links: seq<Link>, permuted: seq<Link>, threshold: int, c: Cluster)
    requires multiset(links) == multiset(permuted) && LoadedLinks(links)
    ensures c in Collisions(SlotsOf(links), threshold) <==> c in Collisions(SlotsOf(permuted), threshold)
    ensures Keys(Collisions(SlotsOf(links), threshold)) == Keys(Collisions(SlotsOf(permuted), threshold))
  {
    var slots, others := SlotsOf(links), SlotsOf(permuted);
    if threshold < 0 {
      NoneBelowZero(slots, threshold);
      NoneBelowZero(others, threshold);
    } else {
      FlatPermuted(links, permuted, SlotsOfLink);
      PermutedLinksAgree(links, permuted);
      AgreeSymmetric(slots, others);
      forall d ensures d in Collisions(slots, threshold) <==> d in Collisions(others, threshold) {
        if d in Collisions(slots, threshold) { SameClusterReported(slots, others, threshold, d); }
        if d in Collisions(others, threshold) { SameClusterReported(others, slots, threshold, d); }
      }
    }
  }

  /** Identifiers as the application generates them contain neither separator. */
  ghost predicate PlainId(id: string) {
    ':' !in id && '|' !in id
  }

  lemma {:induction false} SplitAtFirst(a: string, x: string, b: string, y: string, c: char)
    requires c !in a && c !in b && a + [c] + x == b + [c] + y
    ensures a == b && x == y
  {
    var whole := a + [c] + x;
    assert (forall k :: 0 <= k < |a| ==> whole[k] == a[k]) && whole[|a|] == c;
    assert (forall k :: 0 <= k < |b| ==> whole[k] == b[k]) && whole[|b|] == c;
    assert |a| == |b|;
    assert a == whole[..|a|] == b;
    assert x == whole[|a| + 1..] == y;
  }

  lemma {:induction false} MemberTextInjective(a: Slot, b: Slot)
    requires PlainId(a.groupId) && PlainId(b.groupId) && PlainId(a.policyId) && PlainId(b.policyId)
    requires MemberText(a) == MemberText(b)
    ensures a.groupId == b.groupId && a.policyId == b.policyId && a.time == b.time
  {
    var ra, rb := a.policyId + ":" + a.time, b.policyId + ":" + b.time;
    assert MemberText(a) == a.groupId + [':'] + ra && MemberText(b) == b.groupId + [':'] + rb;
    SplitAtFirst(a.groupId, ra, b.groupId, rb, ':');
    assert ra == a.policyId + [':'] + a.time && rb == b.policyId + [':'] + b.time;
    SplitAtFirst(a.policyId, a.time, b.policyId, b.time, ':');
  }

  /** Equal keys begin with the same member. */
  lemma {:induction false} EqualKeysShareFirst(a: seq<Slot>, b: seq<Slot>)
    requires |a| >= 2 && |b| >= 2 && JoinBars(a) == JoinBars(b)
    requires '|' !in MemberText(a[0]) && '|' !in MemberText(b[0])
    ensures MemberText(a[0]) == MemberText(b[0])
  {
    assert JoinBars(a) == MemberText(a[0]) + ['|'] + JoinBars(a[1..]);
    assert JoinBars(b) == MemberText(b[0]) + ['|'] + JoinBars(b[1..]);
    SplitAtFirst(MemberText(a[0]), JoinBars(a[1..]), MemberText(b[0]), JoinBars(b[1..]), '|');
  }

  ghost predicate PlainIds(links: seq<Link>) {
    forall l :: 0 <= l < |links| ==> PlainId(links[l].groupId) && PlainId(links[l].policyId)
  }

  lemma {:induction false} SlotDeterminedByText(links: seq<Link>, a: Slot, b: Slot)
    requires LoadedLinks(links) && PlainIds(links) && a in SlotsOf(links) && b in SlotsOf(links)
    requires MemberText(a) == MemberText(b)
    ensures a == b
  {
    var la := SlotOrigin(links, a);
    var lb := SlotOrigin(links, b);
    SlotOfTimes(links[la], links[la].schedule.value.times, a);
    SlotOfTimes(links[lb], links[lb].schedule.value.times, b);
    MemberTextInjective(a, b);
    assert la == lb;
  }

  lemma {:induction false} TextHasNoBar(links: seq<Link>, s: Slot)
    requires LoadedLinks(links) && PlainIds(links) && s in SlotsOf(links)
    ensures '|' !in MemberText(s)
  {
    var l := SlotOrigin(links, s);
    SlotOfTimes(links[l], links[l].schedule.value.times, s);
    ReadableHasNoBar(s.time);
    assert s.groupId == links[l].groupId && s.policyId == links[l].policyId;
  }

  lemma {:induction false} MemberIsConnected(slots: seq<Slot>, threshold: int, i: nat, n: nat, s: Slot) returns (p: nat)
    requires i < |slots| && n <= |slots| && s in ComponentUpTo(slots, threshold, i, n)
    ensures p < n && slots[p] == s && Connected(slots, threshold, i, p)
  {
    if s in ComponentUpTo(slots, threshold, i, n - 1) {
      p := MemberIsConnected(slots, threshold, i, n - 1, s);
    } else {
      p := n - 1;
    }
  }

  lemma {:induction false} FirstSortedMember(links: seq<Link>, threshold: int, l: nat) returns (first: Slot, p: nat)
    requires l < |SlotsOf(links)| && |Component(SlotsOf(links), threshold, l)| >= 2
    ensures p < |SlotsOf(links)| && SlotsOf(links)[p] == first && Connected(SlotsOf(links), threshold, l, p)
    ensures |ClusterOf(Component(SlotsOf(links), threshold, l)).members| >= 2
    ensures ClusterOf(Component(SlotsOf(links), threshold, l)).members[0] == first
  {
    var members := Component(SlotsOf(links), threshold, l);
    assert |Sorted(members)| == |multiset(Sorted(members))| == |multiset(members)| == |members|;
    first := Sorted(members)[0];
    assert first in multiset(Sorted(members));
    p := MemberIsConnected(SlotsOf(links), threshold, l, |SlotsOf(links)|, first);
  }

  /** Components with equal keys hold the same first slot. */
  lemma {:induction false} SharedSlot(links: seq<Link>, threshold: int, l: nat, m: nat) returns (p: nat, q: nat)
    requires LoadedLinks(links) && PlainIds(links) && l < |SlotsOf(links)| && m < |SlotsOf(links)|
    requires |Component(SlotsOf(links), threshold, l)| >= 2 && |Component(SlotsOf(links), threshold, m)| >= 2
    requires ClusterOf(Component(SlotsOf(links), threshold, l)).key
           == ClusterOf(Component(SlotsOf(links), threshold, m)).key
    ensures p < |SlotsOf(links)| && q < |SlotsOf(links)| && SlotsOf(links)[p] == SlotsOf(links)[q]
    ensures Connected(SlotsOf(links), threshold, l, p) && Connected(SlotsOf(links), threshold, m, q)
  {
    var a, b;
    a, p := FirstSortedMember(links, threshold, l);
    b, q := FirstSortedMember(links, threshold, m);
    TextHasNoBar(links, a);
    TextHasNoBar(links, b);
    EqualKeysShareFirst(ClusterOf(Component(SlotsOf(links), threshold, l)).members,
                        ClusterOf(Component(SlotsOf(links), threshold, m)).members);
    SlotDeterminedByText(links, a, b);
  }

  /** Two different components never share a key, so a collision alert names one cluster. */
  lemma {:induction false} KeysAreDistinct(links: seq<Link>, threshold: int, l: nat, m: nat)
    requires LoadedLinks(links) && PlainIds(links) && threshold >= 0
    requires l in Leaders(SlotsOf(links), threshold, |SlotsOf(links)|)
    requires m in Leaders(SlotsOf(links), threshold, |SlotsOf(links)|)
    requires |Component(SlotsOf(links), threshold, l)| >= 2 && |Component(SlotsOf(links), threshold, m)| >= 2
    requires ClusterOf(Component(SlotsOf(links), threshold, l)).key
           == ClusterOf(Component(SlotsOf(links), threshold, m)).key
    ensures l == m
  {
    var p, q := SharedSlot(links, threshold, l, m);
    LeadersOfOneSlot(SlotsOf(links), threshold, l, m, p, q);
  }

  lemma {:induction false} LeadersOfOneSlot(slots: seq<Slot>, threshold: int, l: nat, m: nat, p: nat, q: nat)
    requires l in Leaders(slots, threshold, |slots|) && m in Leaders(slots, threshold, |slots|) && threshold >= 0
    requires p < |slots| && q < |slots| && slots[p] == slots[q]
    requires Connected(slots, threshold, l, p) && Connected(slots, threshold, m, q)
    ensures l == m
  {
    ConnectedByCollision(slots, threshold, p, q);
    ConnectedTransitive(slots, threshold, l, p, q);
    OneLeader(slots, threshold, l, m, q);
  }

  lemma {:induction false} LeadersAscend(slots: seq<Slot>, threshold: int, n: nat, a: nat, b: nat)
    requires n <= |slots| && a < b < |Leaders(slots, threshold, n)|
    ensures Leaders(slots, threshold, n)[a] < Leaders(slots, threshold, n)[b]
  {
    if b < |Leaders(slots, threshold, n - 1)| {
      LeadersAscend(slots, threshold, n - 1, a, b);
    }
  }

  /** The leader whose component the i-th reported cluster is. */
  lemma {:induction false} LeaderOfReported(slots: seq<Slot>, threshold: int, leaders: seq<nat>, i: nat)
    returns (p: nat)
    requires (forall k :: 0 <= k < |leaders| ==> leaders[k] < |slots|) && i < |Reported(slots, threshold, leaders)|
    ensures p < |leaders| && ReportedFor(slots, threshold, Reported(slots, threshold, leaders)[i], leaders[p])
    ensures i == |Reported(slots, threshold, leaders[..p])|
  {
    var n := |leaders| - 1;
    if i < |Reported(slots, threshold, leaders[..n])| {
      p := LeaderOfReported(slots, threshold, leaders[..n], i);
      assert leaders[..n][..p] == leaders[..p];
    } else {
      p := n;
    }
  }

  /** No two reported clusters carry the same key. */
  lemma {:induction false} ReportedKeysDiffer(links: seq<Link>, threshold: int, i: nat, j: nat)
    requires LoadedLinks(links) && PlainIds(links)
    requires i < j < |Collisions(SlotsOf(links), threshold)|
    ensures Collisions(SlotsOf(links), threshold)[i].key != Collisions(SlotsOf(links), threshold)[j].key
  {
    var slots := SlotsOf(links);
    var leaders := Leaders(slots, threshold, |slots|);
    var clusters := Collisions(slots, threshold);
    if threshold < 0 {
      assert clusters[i] in clusters;
      assert clusters[i].key in Keys(clusters);
      NoneBelowZero(slots, threshold);
    } else {
      var p := LeaderOfReported(slots, threshold, leaders, i);
      var q := LeaderOfReported(slots, threshold, leaders, j);
      if clusters[i].key == clusters[j].key {
        KeysAreDistinct(links, threshold, leaders[p], leaders[q]);
        if p < q { LeadersAscend(slots, threshold, |slots|, p, q); }
        if q < p { LeadersAscend(slots, threshold, |slots|, q, p); }
      }
    }
  }
}
