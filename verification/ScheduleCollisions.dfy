/** Schedule collisions: slots that may fire on a common day within a threshold
    of each other, gathered into clusters by union-find. */
module ScheduleCollisions {
  import opened Wrappers
  import opened ClockTimes
  import opened Texts
  import opened Schedules
  import opened UnionFind

  datatype DayKey = AnyDay | OnWeekday(weekday: Option<int>) | OnMonthday(day: Option<int>)

  datatype Slot = Slot(minutes: int, time: string, day: DayKey, groupId: string, policyId: string)

  datatype Cluster = Cluster(key: string, members: seq<Slot>)

  // ---------------------------------------------------------------- when two slots collide

  function DayKeyOf(s: Schedule): DayKey {
    match s.kind
    case Weekly => OnWeekday(s.weekday)
    case Monthly => OnMonthday(s.dayOfMonth)
    case _ => AnyDay
  }

  predicate DaysCompatible(a: DayKey, b: DayKey) {
    a.AnyDay? || b.AnyDay? || a == b
  }

  function Abs(x: int): nat {
    if x < 0 then -x else x
  }

  function CircularDistance(a: int, b: int): nat {
    var diff := Abs(a - b) % MINUTES_PER_DAY;
    if diff <= MINUTES_PER_DAY - diff then diff else MINUTES_PER_DAY - diff
  }

  predicate Collide(a: Slot, b: Slot, threshold: int) {
    DaysCompatible(a.day, b.day) && CircularDistance(a.minutes, b.minutes) <= threshold
  }

  lemma {:induction false} ShiftedByDays(u: int, q: int, rest: int, days: int)
    requires u == 1440 * q + rest && 0 <= rest < 1440 && 0 <= q
    ensures Abs(u + 1440 * days) >= if rest <= 1440 - rest then rest else 1440 - rest
    ensures Abs(u + 1440 * -q) == rest && Abs(u + 1440 * (-q - 1)) == 1440 - rest
  {
    assert u + 1440 * days == 1440 * (q + days) + rest;
    if q + days >= 0 { assert 1440 * (q + days) >= 0; } else { assert 1440 * (q + days) <= -1440; }
  }

  lemma {:induction false} ShiftEitherWay(x: int, days: int)
    ensures Abs(x + 1440 * days) == Abs(Abs(x) + 1440 * if x >= 0 then days else -days)
  {}

  /** The distance is the least one between the two times repeated every day. */
  lemma {:induction false} CircularDistanceIsLeast(a: int, b: int, days: int)
    ensures CircularDistance(a, b) <= Abs(a - b + MINUTES_PER_DAY * days)
    ensures exists d :: CircularDistance(a, b) == Abs(a - b + MINUTES_PER_DAY * d)
  {
    var u: int := Abs(a - b);
    var rest, q := u % 1440, u / 1440;
    ShiftEitherWay(a - b, days);
    ShiftedByDays(u, q, rest, if a >= b then days else -days);
    var near := if rest <= 1440 - rest then -q else -q - 1;
    var d := if a >= b then near else -near;
    ShiftEitherWay(a - b, d);
    assert CircularDistance(a, b) == Abs(a - b + MINUTES_PER_DAY * d);
  }

  lemma {:induction false} CollideSymmetric(a: Slot, b: Slot, threshold: int)
    ensures Collide(a, b, threshold) == Collide(b, a, threshold)
  {
  }

  // ---------------------------------------------------------------- slots of the links

  function SlotAt(link: Link, time: string, t: ClockTime): Slot
    requires link.group.Some? && link.policy.Some? && link.schedule.Some?
  {
    Slot(MinuteOf(t), time, DayKeyOf(link.schedule.value), link.group.value.id, link.policy.value.id)
  }

  /** A slot for every time that could be read. */
  function SlotsOfReadings(link: Link, times: seq<string>, readings: seq<Option<ClockTime>>): seq<Slot>
    requires link.group.Some? && link.policy.Some? && link.schedule.Some? && |times| == |readings|
  {
    if times == [] then []
    else
      var n := |times| - 1;
      SlotsOfReadings(link, times[..n], readings[..n])
      + if readings[n].Some? then [SlotAt(link, times[n], readings[n].value)] else []
  }

  function SlotsOfTimes(link: Link, times: seq<string>): seq<Slot>
    requires link.group.Some? && link.policy.Some? && link.schedule.Some?
  {
    SlotsOfReadings(link, times, Readings(times))
  }

  predicate Contributes(link: Link) {
    && link.schedule.Some? && link.policy.Some? && link.group.Some?
    && link.policy.value.enabled && !link.schedule.value.paused
  }

  function SlotsOfLink(link: Link): seq<Slot> {
    if Contributes(link) then SlotsOfTimes(link, link.schedule.value.times) else []
  }

  function SlotsOf(links: seq<Link>): seq<Slot> {
    Flat(links, SlotsOfLink)
  }

  /** The inner loop: one link's times. */
  method AppendSlots(slots: seq<Slot>, link: Link, times: seq<string>) returns (longer: seq<Slot>)
    requires link.group.Some? && link.policy.Some? && link.schedule.Some?
    ensures longer == slots + SlotsOfTimes(link, times)
  {
    longer := slots;
    ghost var readings := Readings(times);
    for k := 0 to |times|
      invariant longer == slots + SlotsOfReadings(link, times[..k], readings[..k])
    {
      assert times[..k + 1][..k] == times[..k] && readings[..k + 1][..k] == readings[..k];
      var reading := ParseTime(times[k]);
      assert reading == readings[k];
      match reading {
        case None =>
        case Some(t) => longer := longer + [SlotAt(link, times[k], t)];
      }
    }
    assert times[..|times|] == times && readings[..|times|] == readings;
  }

  method CollectSlots(links: seq<Link>) returns (slots: seq<Slot>)
    ensures slots == SlotsOf(links)
  {
    slots := [];
    for l := 0 to |links|
      invariant slots == SlotsOf(links[..l])
    {
      assert links[..l + 1][..l] == links[..l];
      if Contributes(links[l]) {
        slots := AppendSlots(slots, links[l], links[l].schedule.value.times);
      }
    }
    assert links[..|links|] == links;
  }

  // ---------------------------------------------------------------- connected components

  ghost predicate IsPath(slots: seq<Slot>, threshold: int, path: seq<nat>, i: nat, j: nat) {
    && |path| > 0 && path[0] == i && path[|path| - 1] == j
    && (forall k :: 0 <= k < |path| ==> path[k] < |slots|)
    && (forall k :: 0 <= k < |path| - 1 ==> Collide(slots[path[k]], slots[path[k + 1]], threshold))
  }

  /** Two slots are connected when a chain of collisions leads from one to the other. */
  ghost predicate Connected(slots: seq<Slot>, threshold: int, i: nat, j: nat) {
    exists path: seq<nat> :: IsPath(slots, threshold, path, i, j)
  }

  lemma {:induction false} ConnectedReflexive(slots: seq<Slot>, threshold: int, i: nat)
    requires i < |slots|
    ensures Connected(slots, threshold, i, i)
  {
    assert IsPath(slots, threshold, [i], i, i);
  }

  lemma {:induction false} ConnectedByCollision(slots: seq<Slot>, threshold: int, i: nat, j: nat)
    requires i < |slots| && j < |slots| && Collide(slots[i], slots[j], threshold)
    ensures Connected(slots, threshold, i, j)
  {
    assert IsPath(slots, threshold, [i, j], i, j);
  }

  lemma {:induction false} ConnectedSymmetric(slots: seq<Slot>, threshold: int, i: nat, j: nat)
    requires Connected(slots, threshold, i, j)
    ensures Connected(slots, threshold, j, i)
  {
    var path :| IsPath(slots, threshold, path, i, j);
    var n := |path|;
    var back := seq(n, k requires 0 <= k < n => path[n - 1 - k]);
    forall k | 0 <= k < n - 1
      ensures Collide(slots[back[k]], slots[back[k + 1]], threshold)
    {
      assert Collide(slots[path[n - 2 - k]], slots[path[n - 2 - k + 1]], threshold);
      CollideSymmetric(slots[path[n - 2 - k]], slots[path[n - 2 - k + 1]], threshold);
    }
    assert IsPath(slots, threshold, back, j, i);
  }

  lemma {:induction false} ConnectedTransitive(slots: seq<Slot>, threshold: int, i: nat, j: nat, k: nat)
    requires Connected(slots, threshold, i, j) && Connected(slots, threshold, j, k)
    ensures Connected(slots, threshold, i, k)
  {
    var p :| IsPath(slots, threshold, p, i, j);
    var q :| IsPath(slots, threshold, q, j, k);
    var path := p + q[1..];
    forall m | 0 <= m < |path| - 1
      ensures Collide(slots[path[m]], slots[path[m + 1]], threshold)
    {
      if m < |p| - 1 {
        assert Collide(slots[p[m]], slots[p[m + 1]], threshold);
      } else {
        assert path[m] == q[m - |p| + 1] && path[m + 1] == q[m - |p| + 2];
      }
    }
    assert IsPath(slots, threshold, path, i, k);
  }

  // The union loop: equal roots only along chains, and equal roots for every pair done.

  ghost predicate RootsAreConnected(slots: seq<Slot>, threshold: int, root: seq<nat>) {
    |root| == |slots|
    && forall a: nat, b: nat :: a < |root| && b < |root| && root[a] == root[b] ==> Connected(slots, threshold, a, b)
  }

  ghost predicate PairsDone(slots: seq<Slot>, threshold: int, root: seq<nat>, i: nat, j: nat) {
    |root| == |slots|
    && forall a: nat, b: nat ::
        a < b < |root| && (a < i || (a == i && b < j)) && Collide(slots[a], slots[b], threshold) ==>
         root[a] == root[b]
  }

  lemma {:induction false} MergingKeepsRootsConnected(slots: seq<Slot>, threshold: int, root: seq<nat>, i: nat, j: nat)
    requires RootsAreConnected(slots, threshold, root)
    requires i < |slots| && j < |slots| && Collide(slots[i], slots[j], threshold)
    ensures RootsAreConnected(slots, threshold, Merged(root, root[i], root[j]))
  {
    var merged := Merged(root, root[i], root[j]);
    ConnectedByCollision(slots, threshold, i, j);
    forall a: nat, b: nat | a < |root| && b < |root| && merged[a] == merged[b]
      ensures Connected(slots, threshold, a, b)
    {
      if root[a] != root[b] {
        // one of them was below i's root, the other below j's
        var (x, y) := if root[a] == root[i] then (a, b) else (b, a);
        assert root[x] == root[i] && root[y] == root[j];
        ConnectedTransitive(slots, threshold, x, i, j);
        ConnectedTransitive(slots, threshold, x, j, y);
        ConnectedSymmetric(slots, threshold, x, y);
      }
    }
  }

  lemma {:induction false} PathKeepsRoot(slots: seq<Slot>, threshold: int, root: seq<nat>, path: seq<nat>, i: nat,
                                         j: nat)
    requires PairsDone(slots, threshold, root, |slots|, 0)
    requires IsPath(slots, threshold, path, i, j)
    ensures root[i] == root[j]
  {
    if |path| > 1 {
      var k := path[1];
      assert Collide(slots[path[0]], slots[path[1]], threshold);
      CollideSymmetric(slots[i], slots[k], threshold);
      assert root[i] == root[k] by {
        if i < k { assert Collide(slots[i], slots[k], threshold); }
        else if k < i { assert Collide(slots[k], slots[i], threshold); }
      }
      forall m | 0 <= m < |path[1..]| - 1
        ensures Collide(slots[path[1..][m]], slots[path[1..][m + 1]], threshold)
      {
        assert Collide(slots[path[m + 1]], slots[path[m + 1 + 1]], threshold);
      }
      PathKeepsRoot(slots, threshold, root, path[1..], k, j);
    }
  }

  lemma {:induction false} PairDone(slots: seq<Slot>, threshold: int, root: seq<nat>, after: seq<nat>, i: nat, j: nat)
    requires PairsDone(slots, threshold, root, i, j) && i < j < |slots|
    requires if Collide(slots[i], slots[j], threshold) then after == Merged(root, root[i], root[j]) else after == root
    ensures PairsDone(slots, threshold, after, i, j + 1)
  {
  }

  lemma {:induction false} RowDone(slots: seq<Slot>, threshold: int, root: seq<nat>, i: nat)
    requires |root| == |slots| && i < |slots|
    ensures PairsDone(slots, threshold, root, i, 0) ==> PairsDone(slots, threshold, root, i, i + 1)
    ensures PairsDone(slots, threshold, root, i, |slots|) ==> PairsDone(slots, threshold, root, i + 1, 0)
  {
  }

  lemma {:induction false} RootsAreComponents(slots: seq<Slot>, threshold: int, root: seq<nat>)
    requires RootsAreConnected(slots, threshold, root) && PairsDone(slots, threshold, root, |slots|, 0)
    ensures RootPerComponent(slots, threshold, root)
  {
    forall i: nat, j: nat | i < |slots| && j < |slots| && Connected(slots, threshold, i, j)
      ensures root[i] == root[j]
    {
      var path :| IsPath(slots, threshold, path, i, j);
      PathKeepsRoot(slots, threshold, root, path, i, j);
    }
  }

  ghost predicate RootPerComponent(slots: seq<Slot>, threshold: int, root: seq<nat>) {
    |root| == |slots|
    && forall i: nat, j: nat ::
        i < |slots| && j < |slots| ==> (root[i] == root[j] <==> Connected(slots, threshold, i, j))
  }

  /** The inner loop: joins slot i with every later slot it collides with. */
  method UniteRow(forest: Forest, slots: seq<Slot>, threshold: int, i: nat)
    requires forest.Valid() && forest.parent.Length == |slots| && i < |slots|
    requires RootsAreConnected(slots, threshold, forest.rootOf) && PairsDone(slots, threshold, forest.rootOf, i, 0)
    modifies forest`rootOf, forest`height, forest.parent
    ensures forest.Valid()
    ensures RootsAreConnected(slots, threshold, forest.rootOf) && PairsDone(slots, threshold, forest.rootOf, i + 1, 0)
  {
    RowDone(slots, threshold, forest.rootOf, i);
    for j := i + 1 to |slots|
      invariant forest.Valid() && |forest.rootOf| == |slots|
      invariant RootsAreConnected(slots, threshold, forest.rootOf)
      invariant PairsDone(slots, threshold, forest.rootOf, i, j)
    {
      ghost var root := forest.rootOf;
      if DaysCompatible(slots[i].day, slots[j].day) {
        if CircularDistance(slots[i].minutes, slots[j].minutes) <= threshold {
          forest.Union(i, j);
          MergingKeepsRootsConnected(slots, threshold, root, i, j);
        }
      }
      PairDone(slots, threshold, root, forest.rootOf, i, j);
    }
    RowDone(slots, threshold, forest.rootOf, i);
  }

  lemma {:induction false} SingletonRoots(slots: seq<Slot>, threshold: int, root: seq<nat>)
    requires |root| == |slots| && forall k :: 0 <= k < |slots| ==> root[k] == k
    ensures RootsAreConnected(slots, threshold, root) && PairsDone(slots, threshold, root, 0, 0)
  {
    forall a: nat | a < |slots| ensures Connected(slots, threshold, a, a) { ConnectedReflexive(slots, threshold, a); }
  }

  /** The union loop ends with one root per connected component. */
  method UniteCollisions(slots: seq<Slot>, threshold: int) returns (forest: Forest)
    ensures fresh(forest) && fresh(forest.parent) && forest.Valid() && forest.parent.Length == |slots|
    ensures RootPerComponent(slots, threshold, forest.rootOf)
  {
    forest := new Forest(|slots|);
    SingletonRoots(slots, threshold, forest.rootOf);
    for i := 0 to |slots|
      invariant fresh(forest) && fresh(forest.parent) && forest.Valid() && forest.parent.Length == |slots|
      invariant RootsAreConnected(slots, threshold, forest.rootOf) && PairsDone(slots, threshold, forest.rootOf, i, 0)
    {
      UniteRow(forest, slots, threshold, i);
    }
    RootsAreComponents(slots, threshold, forest.rootOf);
  }

  // ---------------------------------------------------------------- clusters

  /** The slots connected to slot i, in their original order. */
  ghost function ComponentUpTo(slots: seq<Slot>, threshold: int, i: nat, n: nat): seq<Slot>
    requires i < |slots| && n <= |slots|
  {
    if n == 0 then []
    else
      ComponentUpTo(slots, threshold, i, n - 1)
      + (if Connected(slots, threshold, i, n - 1) then [slots[n - 1]] else [])
  }

  ghost function Component(slots: seq<Slot>, threshold: int, i: nat): seq<Slot>
    requires i < |slots|
  {
    ComponentUpTo(slots, threshold, i, |slots|)
  }

  /** Slot i is the first of its component. */
  ghost predicate Leads(slots: seq<Slot>, threshold: int, i: nat) {
    forall k: nat :: k < i ==> !Connected(slots, threshold, k, i)
  }

  ghost function Leaders(slots: seq<Slot>, threshold: int, n: nat): (leaders: seq<nat>)
    requires n <= |slots|
    ensures forall k :: 0 <= k < |leaders| ==> leaders[k] < n
  {
    if n == 0 then []
    else Leaders(slots, threshold, n - 1) + (if Leads(slots, threshold, n - 1) then [n - 1] else [])
  }

  // The dictionary of the grouping loop: members by root, roots in the order first seen.

  function WithRoot(slots: seq<Slot>, root: seq<nat>, r: nat, n: nat): seq<Slot>
    requires n <= |slots| == |root|
  {
    if n == 0 then [] else WithRoot(slots, root, r, n - 1) + (if root[n - 1] == r then [slots[n - 1]] else [])
  }

  lemma {:induction false} WithRootIsComponent(slots: seq<Slot>, threshold: int, root: seq<nat>, i: nat, n: nat)
    requires n <= |slots| && i < |slots| && RootPerComponent(slots, threshold, root)
    ensures WithRoot(slots, root, root[i], n) == ComponentUpTo(slots, threshold, i, n)
  {
    if n > 0 {
      WithRootIsComponent(slots, threshold, root, i, n - 1);
      assert root[i] == root[n - 1] <==> Connected(slots, threshold, i, n - 1);
    }
  }

  lemma {:induction false} NoneWithRoot(slots: seq<Slot>, root: seq<nat>, r: nat, n: nat)
    requires n <= |slots| == |root|
    requires r !in root[..n]
    ensures WithRoot(slots, root, r, n) == []
  {
    if n > 0 {
      assert root[n - 1] == root[..n][n - 1];
      assert forall q :: q in root[..n - 1] ==> q in root[..n];
      NoneWithRoot(slots, root, r, n - 1);
    }
  }

  lemma {:induction false} LeaderIsFirstOfRoot(slots: seq<Slot>, threshold: int, root: seq<nat>, i: nat)
    requires i < |slots| && RootPerComponent(slots, threshold, root)
    ensures Leads(slots, threshold, i) <==> root[i] !in root[..i]
  {
    if root[i] in root[..i] {
      var k :| 0 <= k < i && root[..i][k] == root[i];
      assert Connected(slots, threshold, k, i);
    }
    forall k: nat | k < i && Connected(slots, threshold, k, i)
      ensures root[i] in root[..i]
    {
      assert root[..i][k] == root[i];
    }
  }

  /** The dictionary after the first n slots. */
  ghost predicate MembersByRoot(slots: seq<Slot>, root: seq<nat>, n: nat, byRoot: map<nat, seq<Slot>>) {
    && n <= |slots| == |root|
    && (forall r :: r in byRoot <==> r in root[..n])
    && (forall r :: r in byRoot ==> byRoot[r] == WithRoot(slots, root, r, n))
  }

  /** The first slot of each root. */
  function Firsts(root: seq<nat>, n: nat): (firsts: seq<nat>)
    requires n <= |root|
    ensures forall k :: 0 <= k < |firsts| ==> firsts[k] < n
  {
    if n == 0 then [] else Firsts(root, n - 1) + (if root[n - 1] !in root[..n - 1] then [n - 1] else [])
  }

  lemma {:induction false} FirstsAreLeaders(slots: seq<Slot>, threshold: int, root: seq<nat>, n: nat)
    requires n <= |slots| && RootPerComponent(slots, threshold, root)
    ensures Firsts(root, n) == Leaders(slots, threshold, n)
  {
    if n > 0 {
      FirstsAreLeaders(slots, threshold, root, n - 1);
      LeaderIsFirstOfRoot(slots, threshold, root, n - 1);
    }
  }

  /** The roots of the given slots. */
  function RootsOf(root: seq<nat>, firsts: seq<nat>): (order: seq<nat>)
    requires forall k :: 0 <= k < |firsts| ==> firsts[k] < |root|
    ensures |order| == |firsts| && forall k :: 0 <= k < |firsts| ==> order[k] == root[firsts[k]]
  {
    seq(|firsts|, k requires 0 <= k < |firsts| => root[firsts[k]])
  }

  function Append(byRoot: map<nat, seq<Slot>>, r: nat, s: Slot): map<nat, seq<Slot>> {
    byRoot[r := (if r in byRoot then byRoot[r] else []) + [s]]
  }

  lemma {:induction false} AllMembersNext(slots: seq<Slot>, root: seq<nat>, n: nat, byRoot: map<nat, seq<Slot>>)
    requires n < |slots| && MembersByRoot(slots, root, n, byRoot)
    ensures MembersByRoot(slots, root, n + 1, Append(byRoot, root[n], slots[n]))
  {
    var after := Append(byRoot, root[n], slots[n]);
    assert root[..n + 1] == root[..n] + [root[n]];
    forall q | q in after ensures after[q] == WithRoot(slots, root, q, n + 1) {
      MembersNext(slots, root, n, byRoot, q);
    }
  }

  lemma {:induction false} MembersNext(slots: seq<Slot>, root: seq<nat>, n: nat, byRoot: map<nat, seq<Slot>>, q: nat)
    requires n < |slots| && MembersByRoot(slots, root, n, byRoot) && (q in byRoot || q == root[n])
    ensures Append(byRoot, root[n], slots[n])[q] == WithRoot(slots, root, q, n + 1)
  {
    if q !in byRoot {
      NoneWithRoot(slots, root, q, n);
    }
  }

  lemma {:induction false} RootsNext(root: seq<nat>, n: nat)
    requires n < |root|
    ensures RootsOf(root, Firsts(root, n + 1))
         == RootsOf(root, Firsts(root, n)) + if root[n] !in root[..n] then [root[n]] else []
  {
  }

  /** The grouping loop: members by root, roots in the order first seen. */
  method GroupByRoot(slots: seq<Slot>, forest: Forest) returns (order: seq<nat>, byRoot: map<nat, seq<Slot>>)
    requires forest.Valid() && forest.parent.Length == |slots|
    modifies forest.parent
    ensures |forest.rootOf| == |slots| && MembersByRoot(slots, forest.rootOf, |slots|, byRoot)
    ensures order == RootsOf(forest.rootOf, Firsts(forest.rootOf, |slots|))
  {
    order, byRoot := [], map[];
    for i := 0 to |slots|
      invariant forest.Valid() && forest.parent.Length == |slots|
      invariant MembersByRoot(slots, forest.rootOf, i, byRoot)
      invariant order == RootsOf(forest.rootOf, Firsts(forest.rootOf, i))
    {
      var r := forest.Find(i);
      RootsNext(forest.rootOf, i);
      AllMembersNext(slots, forest.rootOf, i, byRoot);
      if r !in byRoot {
        order := order + [r];
      }
      byRoot := Append(byRoot, r, slots[i]);
    }
  }

  /** The groups are the components of the leaders, in order. */
  lemma {:induction false} GroupsAreComponents(slots: seq<Slot>, threshold: int, root: seq<nat>, order: seq<nat>,
                                               byRoot: map<nat, seq<Slot>>)
    requires RootPerComponent(slots, threshold, root) && MembersByRoot(slots, root, |slots|, byRoot)
    requires order == RootsOf(root, Firsts(root, |slots|))
    ensures
      var leaders := Leaders(slots, threshold, |slots|);
      && |order| == |leaders|
      && forall k :: 0 <= k < |order| ==>
           order[k] in byRoot && byRoot[order[k]] == Component(slots, threshold, leaders[k])
  {
    var leaders := Leaders(slots, threshold, |slots|);
    FirstsAreLeaders(slots, threshold, root, |slots|);
    assert root[..|slots|] == root;
    forall k | 0 <= k < |order|
      ensures order[k] in byRoot && byRoot[order[k]] == Component(slots, threshold, leaders[k])
    {
      assert root[leaders[k]] in root;
      WithRootIsComponent(slots, threshold, root, leaders[k], |slots|);
    }
  }

  /** The clusters of the given components, those of a single slot left out. */
  ghost function Reported(slots: seq<Slot>, threshold: int, leaders: seq<nat>): seq<Cluster>
    requires forall k :: 0 <= k < |leaders| ==> leaders[k] < |slots|
  {
    if leaders == [] then []
    else
      var last := Component(slots, threshold, leaders[|leaders| - 1]);
      Reported(slots, threshold, leaders[..|leaders| - 1]) + (if |last| >= 2 then [ClusterOf(last)] else [])
  }

  /** What the check must report: every component of at least two slots, once. */
  ghost function Collisions(slots: seq<Slot>, threshold: int): seq<Cluster> {
    Reported(slots, threshold, Leaders(slots, threshold, |slots|))
  }

  /** Groups of at least two slots become clusters. */
  method ReportGroups(ghost slots: seq<Slot>, ghost threshold: int, order: seq<nat>, byRoot: map<nat, seq<Slot>>,
                      ghost leaders: seq<nat>) returns (results: seq<Cluster>)
    requires |leaders| == |order| && forall k :: 0 <= k < |leaders| ==> leaders[k] < |slots|
    requires forall k :: 0 <= k < |order| ==>
               order[k] in byRoot && byRoot[order[k]] == Component(slots, threshold, leaders[k])
    ensures results == Reported(slots, threshold, leaders)
  {
    results := [];
    for k := 0 to |order|
      invariant results == Reported(slots, threshold, leaders[..k])
    {
      assert leaders[..k + 1][..k] == leaders[..k];
      var members := byRoot[order[k]];
      if |members| >= 2 {
        results := results + [ClusterOf(members)];
      }
    }
    assert leaders[..|order|] == leaders;
  }

  method FindCollisions(links: seq<Link>, threshold: int) returns (results: seq<Cluster>)
    ensures results == Collisions(SlotsOf(links), threshold)
  {
    var slots := CollectSlots(links);
    var forest := UniteCollisions(slots, threshold);
    var order, byRoot := GroupByRoot(slots, forest);
    ghost var leaders := Leaders(slots, threshold, |slots|);
    GroupsAreComponents(slots, threshold, forest.rootOf, order, byRoot);
    results := ReportGroups(slots, threshold, order, byRoot, leaders);
  }

  // ---------------------------------------------------------------- keys

  /** The tuple the members of a cluster are sorted by. */
  datatype Rank = Rank(minutes: int, groupId: string, policyId: string)

  function RankOf(s: Slot): Rank {
    Rank(s.minutes, s.groupId, s.policyId)
  }

  predicate RankLe(a: Rank, b: Rank) {
    || a.minutes < b.minutes
    || (a.minutes == b.minutes && a.groupId != b.groupId && TextLe(a.groupId, b.groupId))
    || (a.minutes == b.minutes && a.groupId == b.groupId && TextLe(a.policyId, b.policyId))
  }

  function Insert(sorted: seq<Slot>, s: Slot): (r: seq<Slot>)
    ensures multiset(r) == multiset(sorted) + multiset{s}
  {
    if sorted == [] || RankLe(RankOf(sorted[|sorted| - 1]), RankOf(s)) then sorted + [s]
    else
      assert sorted == sorted[..|sorted| - 1] + [sorted[|sorted| - 1]];
      Insert(sorted[..|sorted| - 1], s) + [sorted[|sorted| - 1]]
  }

  /** A stable sort by rank. */
  function Sorted(members: seq<Slot>): (r: seq<Slot>)
    ensures multiset(r) == multiset(members)
  {
    if members == [] then []
    else
      assert members == members[..|members| - 1] + [members[|members| - 1]];
      Insert(Sorted(members[..|members| - 1]), members[|members| - 1])
  }

  function MemberText(s: Slot): string {
    s.groupId + ":" + s.policyId + ":" + s.time
  }

  function JoinBars(members: seq<Slot>): string {
    if members == [] then ""
    else if |members| == 1 then MemberText(members[0])
    else MemberText(members[0]) + "|" + JoinBars(members[1..])
  }

  function ClusterOf(members: seq<Slot>): Cluster {
    Cluster(JoinBars(Sorted(members)), Sorted(members))
  }
}
