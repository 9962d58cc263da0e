/** Retention against its meaning: keep the newest N of every (cluster, volume),
    or everything not older than the cutoff; a second run finds nothing to do. */
module RetentionMeaning {
  import opened Wrappers
  import opened Schedules
  import opened SnapshotCatalogue
  import opened Retention
  import opened CatalogueJobs
  import opened MirrorTargets

  ghost predicate Precedes(order: seq<int>, a: int, b: int) {
    exists i, j :: 0 <= i < j < |order| && order[i] == a && order[j] == b
  }

  /** a is newer than b; at equal age the query returns it first. */
  ghost predicate Before(rows: Rows, order: seq<int>, a: int, b: int)
    requires a in rows && b in rows
  {
    rows[a].createdAt > rows[b].createdAt || (rows[a].createdAt == rows[b].createdAt && Precedes(order, a, b))
  }

  /** A successful snapshot of the policy, on a known volume. */
  ghost predicate SnapshotOf(rows: Rows, p: Policy, id: int) {
    id in rows && rows[id].policyId == Some(p.id) && rows[id].success && rows[id].volumeUuid.Some?
  }

  ghost predicate SameGroupOf(rows: Rows, p: Policy, a: int, b: int) {
    && SnapshotOf(rows, p, a) && SnapshotOf(rows, p, b)
    && rows[a].clusterId == rows[b].clusterId && rows[a].volumeUuid == rows[b].volumeUuid
  }

  /** The successful snapshots of the same policy and volume that come before id. */
  ghost function Ahead(rows: Rows, order: seq<int>, p: Policy, id: int): set<int>
    requires id in rows
  {
    set a | a in rows && SameGroupOf(rows, p, a, id) && Before(rows, order, a, id)
  }

  /** What a policy promises to keep. */
  ghost predicate Kept(rows: Rows, order: seq<int>, p: Policy, now: int, id: int)
    requires id in rows
  {
    match p.retention
    case Count(n) => n <= 0 || |Ahead(rows, order, p, id)| < n
    case Days(n) => rows[id].createdAt >= now - n * 24 * 3600 * 1_000_000
  }

  // ---------------------------------------------------------------- the sorted group

  ghost predicate FollowsOrder(order: seq<int>, ids: seq<int>) {
    forall i, j :: 0 <= i < j < |ids| ==> Precedes(order, ids[i], ids[j])
  }

  ghost predicate Ranked(rows: Rows, order: seq<int>, ids: seq<int>) {
    && (forall k :: 0 <= k < |ids| ==> ids[k] in rows)
    && forall i, j :: 0 <= i < j < |ids| ==> Before(rows, order, ids[i], ids[j])
  }

  lemma {:induction false} PrecedesInPrefix(order: seq<int>, n: nat, a: int, b: int)
    requires n <= |order| && Precedes(order[..n], a, b)
    ensures Precedes(order, a, b)
  {
    var i, j :| 0 <= i < j < n && order[..n][i] == a && order[..n][j] == b;
    assert order[i] == a && order[j] == b;
  }

  lemma {:induction false} QueryFollowsOrder(rows: Rows, order: seq<int>, policyId: string)
    ensures FollowsOrder(order, Query(rows, order, policyId))
  {
    if order != [] {
      var n := |order| - 1;
      QueryFollowsOrder(rows, order[..n], policyId);
      var rest, ids := Query(rows, order[..n], policyId), Query(rows, order, policyId);
      forall i, j | 0 <= i < j < |ids| ensures Precedes(order, ids[i], ids[j]) {
        if j < |rest| {
          PrecedesInPrefix(order, n, ids[i], ids[j]);
        } else {
          var x := rest[i];
          assert x in rest;
          var k :| 0 <= k < n && order[..n][k] == x;
          assert order[k] == ids[i] && order[n] == ids[j];
        }
      }
    }
  }

  lemma {:induction false} PrecedesTheLast(order: seq<int>, ids: seq<int>, x: int)
    requires ids != [] && FollowsOrder(order, ids) && x in ids[..|ids| - 1]
    ensures Precedes(order, x, ids[|ids| - 1])
  {
    var k :| 0 <= k < |ids| - 1 && ids[k] == x;
    assert Precedes(order, ids[k], ids[|ids| - 1]);
  }

  lemma {:induction false} InGroupFollowsOrder(rows: Rows, order: seq<int>, ids: seq<int>, key: GroupKey)
    requires (forall id :: id in ids ==> id in rows) && FollowsOrder(order, ids)
    ensures FollowsOrder(order, InGroup(rows, ids, key))
  {
    if ids != [] {
      var n := |ids| - 1;
      var last := ids[n];
      assert ids == ids[..n] + [last] && last in ids;
      InGroupFollowsOrder(rows, order, ids[..n], key);
      var rest := InGroup(rows, ids[..n], key);
      forall x | x in rest ensures Precedes(order, x, last) {
        PrecedesTheLast(order, ids, x);
      }
      OneMoreFollows(order, rest, last);
    }
  }

  lemma {:induction false} OneMoreFollows(order: seq<int>, ids: seq<int>, last: int)
    requires FollowsOrder(order, ids) && forall x :: x in ids ==> Precedes(order, x, last)
    ensures FollowsOrder(order, ids + [last])
  {
    var longer := ids + [last];
    forall i, j | 0 <= i < j < |longer| ensures Precedes(order, longer[i], longer[j]) {
      if j == |ids| { assert ids[i] in ids; }
    }
  }

  lemma {:induction false} RankedAppend(rows: Rows, order: seq<int>, front: seq<int>, last: int)
    requires Ranked(rows, order, front) && last in rows
    requires forall k :: 0 <= k < |front| ==> Before(rows, order, front[k], last)
    ensures Ranked(rows, order, front + [last])
  {
  }

  lemma {:induction false} RankedPrefix(rows: Rows, order: seq<int>, ids: seq<int>, n: nat)
    requires Ranked(rows, order, ids) && n <= |ids|
    ensures Ranked(rows, order, ids[..n])
  {
    forall i, j | 0 <= i < j < n ensures Before(rows, order, ids[..n][i], ids[..n][j]) {
      assert Before(rows, order, ids[i], ids[j]);
    }
  }

  /** Everything the insertion leaves in front of the last element ranks before it. */
  lemma {:induction false} InsertedBeforeLast(rows: Rows, order: seq<int>, sorted: seq<int>, id: int, k: nat)
    requires |sorted| > 0 && Ranked(rows, order, sorted) && id in rows && forall x :: x in sorted ==> x in rows
    requires rows[sorted[|sorted| - 1]].createdAt < rows[id].createdAt
    requires k < |InsertNewest(rows, sorted[..|sorted| - 1], id)|
    ensures var x := InsertNewest(rows, sorted[..|sorted| - 1], id)[k];
            x in rows && Before(rows, order, x, sorted[|sorted| - 1])
  {
    var n := |sorted| - 1;
    var front := InsertNewest(rows, sorted[..n], id);
    var x := front[k];
    assert x in multiset(front);
    if x != id {
      assert x in multiset(sorted[..n]);
      var q :| 0 <= q < n && sorted[..n][q] == x;
      assert Before(rows, order, sorted[q], sorted[n]);
    }
  }

  lemma {:induction false} InsertKeepsRanks(rows: Rows, order: seq<int>, sorted: seq<int>, id: int)
    requires Ranked(rows, order, sorted) && id in rows && forall x :: x in sorted ==> x in rows
    requires forall k :: 0 <= k < |sorted| ==> Precedes(order, sorted[k], id)
    ensures Ranked(rows, order, InsertNewest(rows, sorted, id))
  {
    if sorted != [] {
      var n := |sorted| - 1;
      var last := sorted[n];
      if rows[last].createdAt < rows[id].createdAt {
        RankedPrefix(rows, order, sorted, n);
        InsertKeepsRanks(rows, order, sorted[..n], id);
        var front := InsertNewest(rows, sorted[..n], id);
        forall k | 0 <= k < |front| ensures Before(rows, order, front[k], last) {
          InsertedBeforeLast(rows, order, sorted, id, k);
        }
        RankedAppend(rows, order, front, last);
      } else {
        forall k | 0 <= k < |sorted| ensures Before(rows, order, sorted[k], id) {
          if k < n { assert Before(rows, order, sorted[k], sorted[n]); }
        }
        RankedAppend(rows, order, sorted, id);
      }
    }
  }

  lemma {:induction false} SortedPrecede(rows: Rows, order: seq<int>, ids: seq<int>, k: nat)
    requires (forall id :: id in ids ==> id in rows) && FollowsOrder(order, ids) && ids != []
    requires k < |NewestFirst(rows, ids[..|ids| - 1])|
    ensures NewestFirst(rows, ids[..|ids| - 1])[k] in rows
    ensures Precedes(order, NewestFirst(rows, ids[..|ids| - 1])[k], ids[|ids| - 1])
  {
    var front := ids[..|ids| - 1];
    var rest := NewestFirst(rows, front);
    var x := rest[k];
    assert x in multiset(rest);
    assert x in multiset(front);
    var q :| 0 <= q < |front| && front[q] == x;
    assert Precedes(order, ids[q], ids[|front|]);
  }

  lemma {:induction false} NewestFirstRanked(rows: Rows, order: seq<int>, ids: seq<int>)
    requires (forall id :: id in ids ==> id in rows) && FollowsOrder(order, ids)
    ensures Ranked(rows, order, NewestFirst(rows, ids))
  {
    if ids != [] {
      var n := |ids| - 1;
      var last := ids[n];
      assert ids == ids[..n] + [last] && last in ids;
      NewestFirstRanked(rows, order, ids[..n]);
      var rest := NewestFirst(rows, ids[..n]);
      forall k: nat | k < |rest| ensures rest[k] in rows && Precedes(order, rest[k], last) {
        SortedPrecede(rows, order, ids, k);
      }
      InsertKeepsRanks(rows, order, rest, last);
    }
  }

  lemma {:induction false} SamePlace(order: seq<int>, i: nat, j: nat)
    requires NoRepeats(order) && i < |order| && j < |order| && order[i] == order[j]
    ensures i == j
  {
    if i < j { assert order[..j][i] == order[j]; NoRepeatsNext(order, j); }
    if j < i { assert order[..i][j] == order[i]; NoRepeatsNext(order, i); }
  }

  lemma {:induction false} BeforeOnlyOneWay(rows: Rows, order: seq<int>, a: int, b: int)
    requires a in rows && b in rows && NoRepeats(order) && Before(rows, order, a, b)
    ensures !Before(rows, order, b, a)
  {
    if Before(rows, order, b, a) {
      var i, j :| 0 <= i < j < |order| && order[i] == a && order[j] == b;
      var k, m :| 0 <= k < m < |order| && order[k] == b && order[m] == a;
      SamePlace(order, i, m);
      SamePlace(order, j, k);
    }
  }

  lemma {:induction false} SizeOfDistinct(ids: seq<int>)
    requires NoRepeats(ids)
    ensures |Elements(ids)| == |ids|
  {
    if ids != [] {
      var n := |ids| - 1;
      NoRepeatsNext(ids, n);
      assert ids == ids[..n] + [ids[n]];
      forall id ensures multiset(ids[..n])[id] <= multiset(ids)[id] { }
      SizeOfDistinct(ids[..n]);
      assert Elements(ids) == Elements(ids[..n]) + {ids[n]};
    } else {
      assert Elements(ids) == {};
    }
  }

  lemma {:induction false} PrefixNoRepeats(ids: seq<int>, n: nat)
    requires NoRepeats(ids) && n <= |ids|
    ensures NoRepeats(ids[..n])
  {
    assert ids == ids[..n] + ids[n..];
    forall id ensures multiset(ids[..n])[id] <= multiset(ids)[id] { }
  }

  /** The group of a row, sorted: the rows ahead of place m are the first m. */
  lemma {:induction false} RankIsPlace(rows: Rows, order: seq<int>, p: Policy, sorted: seq<int>, m: nat)
    requires NoRepeats(order) && Ranked(rows, order, sorted) && NoRepeats(sorted) && m < |sorted|
    requires forall a :: a in sorted <==> a in rows && SameGroupOf(rows, p, a, sorted[m])
    ensures |Ahead(rows, order, p, sorted[m])| == m
  {
    var id := sorted[m];
    assert id in sorted;
    forall a | a in Ahead(rows, order, p, id) ensures a in sorted[..m] {
      var q :| 0 <= q < |sorted| && sorted[q] == a;
      if m < q {
        BeforeOnlyOneWay(rows, order, sorted[m], sorted[q]);
      }
      if q == m {
        BeforeOnlyOneWay(rows, order, a, id);
      }
      assert sorted[..m][q] == a;
    }
    forall a | a in sorted[..m] ensures a in Ahead(rows, order, p, id) {
      var q :| 0 <= q < m && sorted[..m][q] == a;
      assert Before(rows, order, sorted[q], sorted[m]) && sorted[q] in sorted;
    }
    assert Ahead(rows, order, p, id) == Elements(sorted[..m]);
    PrefixNoRepeats(sorted, m);
    SizeOfDistinct(sorted[..m]);
  }

  // ---------------------------------------------------------------- what is overdue

  lemma {:induction false} GroupIsSameGroup(rows: Rows, order: seq<int>, p: Policy, id: int)
    requires SnapshotOf(rows, p, id) && forall x :: x in rows ==> x in order
    ensures forall a ::
              a in InGroup(rows, Query(rows, order, p.id), GroupKeyOf(rows[id]))
              <==> a in rows && SameGroupOf(rows, p, a, id)
  {
  }

  lemma {:induction false} SortedGroup(rows: Rows, order: seq<int>, p: Policy, id: int) returns (sorted: seq<int>)
    requires SnapshotOf(rows, p, id) && NoRepeats(order) && forall x :: x in rows ==> x in order
    ensures sorted == NewestFirst(rows, InGroup(rows, Query(rows, order, p.id), GroupKeyOf(rows[id])))
    ensures Ranked(rows, order, sorted) && NoRepeats(sorted)
    ensures forall a :: a in sorted <==> a in rows && SameGroupOf(rows, p, a, id)
  {
    var key := GroupKeyOf(rows[id]);
    var ids := Query(rows, order, p.id);
    var group := InGroup(rows, ids, key);
    QueryFollowsOrder(rows, order, p.id);
    InGroupFollowsOrder(rows, order, ids, key);
    NewestFirstRanked(rows, order, group);
    sorted := NewestFirst(rows, group);
    GroupIsSameGroup(rows, order, p, id);
    forall a ensures multiset(sorted)[a] <= 1 && (a in sorted <==> a in group) {
      QueryCount(rows, order, p.id, a);
      InGroupCount(rows, ids, key, a);
      assert a in sorted <==> a in multiset(sorted);
      assert a in group <==> a in multiset(group);
    }
  }

  /** The selection drops exactly what the policy does not promise to keep. */
  lemma {:induction false} OverdueIffNotKept(rows: Rows, order: seq<int>, p: Policy, now: int, id: int)
    requires SnapshotOf(rows, p, id) && NoRepeats(order) && forall x :: x in rows ==> x in order
    ensures id in OverdueOf(rows, order, p, GroupKeyOf(rows[id]), now) <==> !Kept(rows, order, p, now, id)
  {
    var group := InGroup(rows, Query(rows, order, p.id), GroupKeyOf(rows[id]));
    var sorted := SortedGroup(rows, order, p, id);
    assert id in sorted;
    assert OverdueOf(rows, order, p, GroupKeyOf(rows[id]), now) == Overdue(rows, p.retention, group, now);
    match p.retention {
      case Count(n) =>
        OverdueByCount(rows, n, group, now);
        if 0 < n {
          var m :| 0 <= m < |sorted| && sorted[m] == id;
          RankIsPlace(rows, order, p, sorted, m);
          InTailIffPlace(sorted, n, m);
        }
      case Days(n) =>
        OverdueByAge(rows, n, group, now, id);
    }
  }

  lemma {:induction false} OverdueByCount(rows: Rows, n: int, group: seq<int>, now: int)
    requires forall x :: x in group ==> x in rows
    ensures Overdue(rows, Count(n), group, now)
         == if 0 < n <= |NewestFirst(rows, group)| then NewestFirst(rows, group)[n..] else []
  {
  }

  lemma {:induction false} OverdueByAge(rows: Rows, n: int, group: seq<int>, now: int, id: int)
    requires forall x :: x in group ==> x in rows
    ensures id in Overdue(rows, Days(n), group, now)
       <==> id in NewestFirst(rows, group) && id in rows && rows[id].createdAt < now - n * 24 * 3600 * 1_000_000
  {
    var sorted := NewestFirst(rows, group);
    forall x | x in sorted ensures x in rows {
      assert x in multiset(sorted);
      assert x in multiset(group);
    }
  }

  lemma {:induction false} InTailIffPlace(sorted: seq<int>, n: nat, m: nat)
    requires NoRepeats(sorted) && m < |sorted|
    ensures (n <= |sorted| && sorted[m] in sorted[n..]) <==> n <= m
  {
    if n <= m {
      assert sorted[n..][m - n] == sorted[m];
    } else if n <= |sorted| && sorted[m] in sorted[n..] {
      var q :| 0 <= q < |sorted[n..]| && sorted[n..][q] == sorted[m];
      SamePlace(sorted, n + q, m);
    }
  }

  // ---------------------------------------------------------------- one run

  /** The row's storage system is registered and can be reached for the policy and the
      row's volume. */
  ghost predicate CanReach(w: World, row: Row, p: Policy) {
    && row.clusterId.Some? && (exists i :: 0 <= i < |w.inv.clusters| && w.inv.clusters[i].id == row.clusterId.value)
    && w.reachable(p.id, (row.clusterId, row.volumeUuid))
  }

  ghost predicate CanDelete(w: World, row: Row, p: Policy, id: int) {
    CanReach(w, row, p) && w.deleted(id)
  }

  /** A row is selected exactly if it is a successful snapshot of the policy which the
      policy does not keep, and its storage system can be reached. */
  lemma {:induction false} SelectedIff(rows: Rows, order: seq<int>, p: Policy, now: int, w: World, id: int)
    requires NoRepeats(order) && forall x :: x in rows ==> x in order
    ensures Selected(rows, order, p, now, w, id)
       <==> SnapshotOf(rows, p, id) && CanReach(w, rows[id], p) && !Kept(rows, order, p, now, id)
  {
    if SnapshotOf(rows, p, id) {
      OverdueIffNotKept(rows, order, p, now, id);
      if rows[id].clusterId.Some? { ByIdIsLast(w.inv.clusters, rows[id].clusterId.value); }
    }
  }

  /** Retention drops a row exactly if some policy does not keep it, its primary delete
      goes through, and no copy is seen: no known destination ends present, and no
      relationship shows the snapshot on a new one. */
  lemma {:induction false} DroppedExactly(rows: Rows, order: seq<int>, policies: seq<Policy>, now: int, w: World,
                                          id: int)
    requires NoRepeats(order) && (forall x :: x in rows ==> x in order) && id in rows
    ensures
      var row, listings, n := rows[id], w.listings(id), |MirrorsOf(w.inv, rows[id])|;
      id !in Applied(rows, SelectedUpTo(rows, order, policies, now, w, |policies|), w, now)
      <==> && (exists k :: && 0 <= k < |policies| && SnapshotOf(rows, policies[k], id)
                           && CanDelete(w, row, policies[k], id) && !Kept(rows, order, policies[k], now, id))
           && (forall i :: 0 <= i < |row.destinations| ==> !EndsPresent(w.inv, row, listings, n, i))
           && (forall k :: 0 <= k < n && NamesNew(w.inv, row, k) ==> !Shows(w.inv, row, listings, k))
  {
    forall k | 0 <= k < |policies|
      ensures Selected(rows, order, policies[k], now, w, id)
         <==> && SnapshotOf(rows, policies[k], id) && CanReach(w, rows[id], policies[k])
              && !Kept(rows, order, policies[k], now, id)
    {
      SelectedIff(rows, order, policies[k], now, w, id);
    }
    AnyPresentAfterCheck(w.inv, rows[id], w.listings(id), now);
  }

  /** Where the storage system answers and the delete succeeds, a snapshot is
      still a successful one of its policy exactly if the policy keeps it. */
  lemma {:induction false} SurvivesIffKept(rows: Rows, order: seq<int>, policies: seq<Policy>, now: int, w: World,
                                           k: nat, id: int)
    requires NoRepeats(order) && (forall x :: x in rows ==> x in order)
    requires DistinctPolicies(policies) && k < |policies| && SnapshotOf(rows, policies[k], id)
    requires CanDelete(w, rows[id], policies[k], id)
    ensures SnapshotOf(Applied(rows, SelectedUpTo(rows, order, policies, now, w, |policies|), w, now), policies[k], id)
       <==> Kept(rows, order, policies[k], now, id)
  {
    ChosenIffSelected(rows, order, policies, now, w, k, id);
    SelectedIff(rows, order, policies[k], now, w, id);
  }

  /** A row is only ever selected by its own policy. */
  lemma {:induction false} ChosenIffSelected(rows: Rows, order: seq<int>, policies: seq<Policy>, now: int, w: World,
                                             k: nat, id: int)
    requires DistinctPolicies(policies) && k < |policies| && SnapshotOf(rows, policies[k], id)
    ensures id in SelectedUpTo(rows, order, policies, now, w, |policies|)
          <==> Selected(rows, order, policies[k], now, w, id)
  {
    if j :| 0 <= j < |policies| && Selected(rows, order, policies[j], now, w, id) {
      assert policies[j].id == policies[k].id;
      assert j == k;
    }
  }

  /** The policy's overdue snapshots can all be deleted. */
  ghost predicate DeletesSucceed(rows: Rows, order: seq<int>, p: Policy, now: int, w: World) {
    forall id :: SnapshotOf(rows, p, id) && !Kept(rows, order, p, now, id) ==>
      CanDelete(w, rows[id], p, id)
  }

  lemma {:induction false} SurvivorUnchanged(rows: Rows, order: seq<int>, policies: seq<Policy>, now: int, w: World,
                                             k: nat, id: int)
    requires NoRepeats(order) && (forall x :: x in rows ==> x in order)
    requires DistinctPolicies(policies) && k < |policies|
    requires DeletesSucceed(rows, order, policies[k], now, w)
    requires SnapshotOf(Applied(rows, SelectedUpTo(rows, order, policies, now, w, |policies|), w, now), policies[k], id)
    ensures SnapshotOf(rows, policies[k], id) && Kept(rows, order, policies[k], now, id)
    ensures Applied(rows, SelectedUpTo(rows, order, policies, now, w, |policies|), w, now)[id] == rows[id]
  {
    assert SnapshotOf(rows, policies[k], id);
    ChosenIffSelected(rows, order, policies, now, w, k, id);
    SelectedIff(rows, order, policies[k], now, w, id);
  }

  /** A run whose deletes succeed leaves nothing overdue for the policy: a second
      run at the same instant selects none of its rows, whatever it meets. */
  lemma {:induction false} SecondRunSelectsNothing(rows: Rows, order: seq<int>, policies: seq<Policy>, now: int,
                                                   w: World, k: nat, again: World, id: int)
    requires NoRepeats(order) && (forall x :: x in rows ==> x in order)
    requires DistinctPolicies(policies) && k < |policies|
    requires DeletesSucceed(rows, order, policies[k], now, w)
    ensures !Selected(Applied(rows, SelectedUpTo(rows, order, policies, now, w, |policies|), w, now), order,
                      policies[k], now, again, id)
  {
    var p, after := policies[k], Applied(rows, SelectedUpTo(rows, order, policies, now, w, |policies|), w, now);
    if SnapshotOf(after, p, id) {
      SurvivorUnchanged(rows, order, policies, now, w, k, id);
      forall a | a in Ahead(after, order, p, id) ensures a in Ahead(rows, order, p, id) {
        SurvivorUnchanged(rows, order, policies, now, w, k, a);
      }
      SubsetSize(Ahead(after, order, p, id), Ahead(rows, order, p, id));
      assert Kept(after, order, p, now, id);
      OverdueIffNotKept(after, order, p, now, id);
    }
  }

  lemma {:induction false} SubsetSize(a: set<int>, b: set<int>)
    requires a <= b
    ensures |a| <= |b|
  {
    assert b == a + (b - a);
  }
}
