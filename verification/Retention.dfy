/** Which snapshots a policy's retention drops, and what dropping one does to its
    catalogue row. */
module Retention {
  import opened Wrappers
  import opened Texts
  import opened Schedules
  import opened SnapshotCatalogue

  type Rows = map<int, Row>

  type GroupKey = (Option<string>, Option<string>)

  /** Everything a run meets: the inventory, whether a storage system can be
      reached for a policy and volume, which deletions succeed, and what the
      listings of each row's destinations return. */
  datatype World = World(
    inv: Inventory,
    reachable: (string, GroupKey) -> bool,
    deleted: int -> bool,
    listings: int -> nat -> Listing)

  // ---------------------------------------------------------------- selection

  predicate InQuery(rows: Rows, policyId: string, id: int) {
    id in rows && rows[id].policyId == Some(policyId) && rows[id].success && rows[id].volumeUuid.Some?
  }

  /** The successful snapshots of a policy, in the order of the query. */
  function Query(rows: Rows, order: seq<int>, policyId: string): (ids: seq<int>)
    ensures forall id :: id in ids <==> id in order && InQuery(rows, policyId, id)
  {
    if order == [] then []
    else
      var n := |order| - 1;
      assert order == order[..n] + [order[n]] && order[n] in order;
      Query(rows, order[..n], policyId) + (if InQuery(rows, policyId, order[n]) then [order[n]] else [])
  }

  function GroupKeyOf(row: Row): GroupKey {
    (row.clusterId, row.volumeUuid)
  }

  /** The ids of one (cluster, volume), in the order given. */
  function InGroup(rows: Rows, ids: seq<int>, key: GroupKey): (r: seq<int>)
    requires forall id :: id in ids ==> id in rows
    ensures forall id :: id in r <==> id in ids && GroupKeyOf(rows[id]) == key
  {
    if ids == [] then []
    else
      var n := |ids| - 1;
      var last := ids[n];
      assert ids == ids[..n] + [last] && last in ids;
      InGroup(rows, ids[..n], key) + (if GroupKeyOf(rows[last]) == key then [last] else [])
  }

  function InsertNewest(rows: Rows, sorted: seq<int>, id: int): (r: seq<int>)
    requires id in rows && forall x :: x in sorted ==> x in rows
    ensures multiset(r) == multiset(sorted) + multiset{id}
  {
    if sorted == [] then [id]
    else
      var n := |sorted| - 1;
      var last := sorted[n];
      assert sorted == sorted[..n] + [last] && last in sorted;
      if rows[last].createdAt >= rows[id].createdAt then sorted + [id]
      else InsertNewest(rows, sorted[..n], id) + [last]
  }

  /** A stable sort, newest first. */
  function NewestFirst(rows: Rows, ids: seq<int>): (r: seq<int>)
    requires forall id :: id in ids ==> id in rows
    ensures multiset(r) == multiset(ids)
  {
    if ids == [] then []
    else
      var n := |ids| - 1;
      var last := ids[n];
      assert ids == ids[..n] + [last] && last in ids;
      var rest := NewestFirst(rows, ids[..n]);
      assert forall x :: x in rest ==> x in multiset(rest);
      InsertNewest(rows, rest, last)
  }

  function OlderThan(rows: Rows, ids: seq<int>, cutoff: int): (r: seq<int>)
    requires forall id :: id in ids ==> id in rows
    ensures forall id :: id in r <==> id in ids && rows[id].createdAt < cutoff
  {
    if ids == [] then []
    else
      var n := |ids| - 1;
      var last := ids[n];
      assert ids == ids[..n] + [last] && last in ids;
      OlderThan(rows, ids[..n], cutoff) + (if rows[last].createdAt < cutoff then [last] else [])
  }

  function Cutoff(now: int, days: int): int {
    now - days * 86_400_000_000
  }

  /** What retention drops of a group. */
  function Overdue(rows: Rows, retention: Schedules.Retention, group: seq<int>, now: int): (r: seq<int>)
    requires forall id :: id in group ==> id in rows
  {
    var sorted := NewestFirst(rows, group);
    assert forall x :: x in sorted ==> x in multiset(sorted);
    match retention
    case Count(n) =>
      if 0 < n <= |sorted| then sorted[n..] else []
    case Days(n) => OlderThan(rows, sorted, Cutoff(now, n))
  }

  function OverdueOf(rows: Rows, order: seq<int>, p: Policy, key: GroupKey, now: int): seq<int> {
    Overdue(rows, p.retention, InGroup(rows, Query(rows, order, p.id), key), now)
  }

  predicate ClusterKnown(inv: Inventory, key: GroupKey) {
    key.0.Some? && ClusterById(inv.clusters, key.0.value).Some?
  }

  /** The row is overdue and its storage system can be reached. */
  predicate Selected(rows: Rows, order: seq<int>, p: Policy, now: int, w: World, id: int) {
    && InQuery(rows, p.id, id)
    && ClusterKnown(w.inv, GroupKeyOf(rows[id])) && w.reachable(p.id, GroupKeyOf(rows[id]))
    && id in OverdueOf(rows, order, p, GroupKeyOf(rows[id]), now)
  }

  function SelectedUpTo(rows: Rows, order: seq<int>, policies: seq<Policy>, now: int, w: World, k: nat): set<int>
    requires k <= |policies|
  {
    set id | id in rows && exists j :: 0 <= j < k && Selected(rows, order, policies[j], now, w, id)
  }

  // ---------------------------------------------------------------- deletion

  /** What becomes of one selected row: kept if the primary delete fails; otherwise
      its destinations are checked, and it is kept, no longer successful, only
      while one of them has the snapshot. */
  function Outcome(w: World, now: int, id: int, row: Row): Option<Row> {
    if !w.deleted(id) then Some(row)
    else
      var checked := Checked(w.inv, row, w.listings(id), now);
      if AnyPresent(checked) then Some(checked.(success := false)) else None
  }

  function Applied(rows: Rows, ids: set<int>, w: World, now: int): Rows {
    map id | id in rows && (id !in ids || Outcome(w, now, id, rows[id]).Some?) ::
      if id in ids then Outcome(w, now, id, rows[id]).value else rows[id]
  }

  lemma {:induction false} AppliedTwice(rows: Rows, a: set<int>, b: set<int>, w: World, now: int)
    requires a !! b
    ensures Applied(Applied(rows, a, w, now), b, w, now) == Applied(rows, a + b, w, now)
  {
  }

  lemma {:induction false} AppliedNone(rows: Rows, w: World, now: int)
    ensures Applied(rows, {}, w, now) == rows
  {
  }

  function Elements(ids: seq<int>): set<int> {
    set id | id in ids
  }

  lemma {:induction false} SameMap(a: Rows, b: Rows)
    requires a.Keys == b.Keys && forall id :: id in a ==> a[id] == b[id]
    ensures a == b
  {
    forall id | id in a ensures id in b && a[id] == b[id] { assert id in b.Keys; }
  }

  ghost predicate NoRepeats(ids: seq<int>) {
    forall id :: multiset(ids)[id] <= 1
  }

  lemma {:induction false} QueryCount(rows: Rows, order: seq<int>, policyId: string, id: int)
    ensures multiset(Query(rows, order, policyId))[id] <= multiset(order)[id]
  {
    if order != [] {
      var n := |order| - 1;
      assert order == order[..n] + [order[n]];
      QueryCount(rows, order[..n], policyId, id);
    }
  }

  lemma {:induction false} InGroupCount(rows: Rows, ids: seq<int>, key: GroupKey, id: int)
    requires forall x :: x in ids ==> x in rows
    ensures multiset(InGroup(rows, ids, key))[id] <= multiset(ids)[id]
  {
    if ids != [] {
      var n := |ids| - 1;
      var last := ids[n];
      assert ids == ids[..n] + [last] && last in ids;
      InGroupCount(rows, ids[..n], key, id);
    }
  }

  lemma {:induction false} OlderThanCount(rows: Rows, ids: seq<int>, cutoff: int, id: int)
    requires forall x :: x in ids ==> x in rows
    ensures multiset(OlderThan(rows, ids, cutoff))[id] <= multiset(ids)[id]
  {
    if ids != [] {
      var n := |ids| - 1;
      var last := ids[n];
      assert ids == ids[..n] + [last] && last in ids;
      OlderThanCount(rows, ids[..n], cutoff, id);
      OneMoreOlder(rows, ids, cutoff);
      CountAppended(ids[..n], last, id);
      CountAppended(OlderThan(rows, ids[..n], cutoff), last, id);
    }
  }

  lemma {:induction false} OneMoreOlder(rows: Rows, ids: seq<int>, cutoff: int)
    requires ids != [] && forall x :: x in ids ==> x in rows
    ensures
      var front, last := ids[..|ids| - 1], ids[|ids| - 1];
      && (forall x :: x in front ==> x in rows) && last in rows
      && OlderThan(rows, ids, cutoff)
         == OlderThan(rows, front, cutoff) + if rows[last].createdAt < cutoff then [last] else []
  {
  }

  lemma {:induction false} OverdueCount(rows: Rows, retention: Schedules.Retention, group: seq<int>, now: int, id: int)
    requires forall x :: x in group ==> x in rows
    ensures multiset(Overdue(rows, retention, group, now))[id] <= multiset(group)[id]
  {
    var sorted := NewestFirst(rows, group);
    match retention
    case Count(n) => if 0 < n <= |sorted| { SuffixCount(sorted, n, id); }
    case Days(n) =>
      assert forall x :: x in sorted ==> x in multiset(sorted);
      OlderThanCount(rows, sorted, Cutoff(now, n), id);
  }

  lemma {:induction false} SuffixCount(ids: seq<int>, n: nat, id: int)
    requires n <= |ids|
    ensures multiset(ids[n..])[id] <= multiset(ids)[id]
  {
    assert ids == ids[..n] + ids[n..];
  }

  /** The selection of a group names no row twice, and only rows of the group. */
  lemma {:induction false} OverdueOfNoRepeats(rows: Rows, order: seq<int>, p: Policy, key: GroupKey, now: int)
    requires NoRepeats(order)
    ensures NoRepeats(OverdueOf(rows, order, p, key, now))
    ensures forall id :: id in OverdueOf(rows, order, p, key, now) ==>
            InQuery(rows, p.id, id) && GroupKeyOf(rows[id]) == key
  {
    var ids := Query(rows, order, p.id);
    var group := InGroup(rows, ids, key);
    var overdue := OverdueOf(rows, order, p, key, now);
    forall id ensures multiset(overdue)[id] <= multiset(group)[id] <= 1 {
      QueryCount(rows, order, p.id, id);
      InGroupCount(rows, ids, key, id);
      OverdueCount(rows, p.retention, group, now, id);
    }
    forall id | id in overdue ensures id in group {
      assert id in multiset(overdue);
      assert id in multiset(group);
    }
  }

  lemma {:induction false} NoRepeatsNext(ids: seq<int>, k: nat)
    requires NoRepeats(ids) && k < |ids|
    ensures ids[k] !in ids[..k]
  {
    var id := ids[k];
    assert ids == ids[..k] + ([id] + ids[k + 1..]);
    assert multiset(ids)[id] >= multiset(ids[..k])[id] + 1;
    assert multiset(ids[..k])[id] == 0;
  }

  lemma {:induction false} AppliedNext(rows: Rows, ids: seq<int>, w: World, now: int, k: nat)
    requires NoRepeats(ids) && k < |ids| && forall id :: id in ids ==> id in rows
    ensures ids[k] in Applied(rows, Elements(ids[..k]), w, now)
    ensures Applied(Applied(rows, Elements(ids[..k]), w, now), {ids[k]}, w, now)
          == Applied(rows, Elements(ids[..k + 1]), w, now)
  {
    var id := ids[k];
    NoRepeatsNext(ids, k);
    assert id in ids && id in rows && id !in Elements(ids[..k]);
    AppliedTwice(rows, Elements(ids[..k]), {id}, w, now);
    assert ids[..k + 1] == ids[..k] + [id];
    assert Elements(ids[..k + 1]) == Elements(ids[..k]) + {id};
  }
}
