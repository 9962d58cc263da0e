/** The catalogue and the two daily jobs that change it. */
module CatalogueJobs {
  import opened Wrappers
  import opened Texts
  import opened Schedules
  import opened SnapshotCatalogue
  import opened Retention
  import opened Reconciliation

  // ---------------------------------------------------------------- the catalogue

  class Catalogue {
    var rows: Rows
    var order: seq<int>   // the order in which queries return the rows

    ghost predicate Valid()
      reads this
    {
      NoRepeats(order) && forall id :: id in rows ==> id in order
    }

    constructor ()
      ensures Valid() && rows == map[] && order == []
    {
      rows, order := map[], [];
    }

    /** A backup run adds a row under a new id. */
    method Add(id: int, row: Row)
      requires Valid() && id !in order
      modifies this
      ensures Valid() && rows == old(rows)[id := row] && order == old(order) + [id]
    {
      rows, order := rows[id := row], order + [id];
    }

    /** Checks the destinations of one row, relationship by relationship. */
    method CheckDestinations(inv: Inventory, id: int, listings: nat -> Listing, now: int)
      requires id in rows
      modifies `rows
      ensures rows == old(rows)[id := Checked(inv, old(rows)[id], listings, now)]
    {
      var row := rows[id];
      var dests := row.destinations;
      if Locatable(row) {
        var mirrors := MirrorsOf(inv, row);
        var existing := ExistingByKey(row.destinations);
        for k := 0 to |mirrors|
          invariant dests == CheckedUpTo(inv, row, listings, now, k)
        {
          var t := TargetOf(inv, mirrors[k]);
          if !t.NoPath? {
            if KeyOf(t) in existing {
              var i := existing[KeyOf(t)];
              dests := dests[i := Updated(dests[i], mirrors[k], t, listings(k), row.snapshotName.value, now)];
            } else {
              dests := dests + [Updated(NewDestination(KeyOf(t), now), mirrors[k], t, listings(k),
                                        row.snapshotName.value, now)];
            }
          }
        }
      }
      rows := rows[id := row.(destinations := dests)];
    }

    /** Tries to delete one snapshot; its row goes unless a copy is left. */
    method DeleteOne(id: int, w: World, now: int)
      requires id in rows
      modifies `rows
      ensures rows == Applied(old(rows), {id}, w, now)
    {
      if w.deleted(id) {
        CheckDestinations(w.inv, id, w.listings(id), now);
        if AnyPresent(rows[id]) {
          rows := rows[id := rows[id].(success := false)];
        } else {
          rows := rows - {id};
        }
      }
    }

    method DeleteAll(ids: seq<int>, w: World, now: int)
      requires NoRepeats(ids) && forall id :: id in ids ==> id in rows
      modifies `rows
      ensures rows == Applied(old(rows), Elements(ids), w, now)
    {
      ghost var before := rows;
      AppliedNone(before, w, now);
      for k := 0 to |ids|
        invariant rows == Applied(before, Elements(ids[..k]), w, now)
      {
        AppliedNext(before, ids, w, now, k);
        DeleteOne(ids[k], w, now);
      }
      assert ids[..|ids|] == ids;
    }

    /** Collects ids by (cluster, volume), keys in the order first seen. */
    method GroupRows(ids: seq<int>) returns (keys: seq<GroupKey>, groups: map<GroupKey, seq<int>>)
      requires forall id :: id in ids ==> id in rows
      ensures IsGrouping(rows, ids, keys, groups)
    {
      keys, groups := [], map[];
      for k := 0 to |ids|
        invariant forall id :: id in ids[..k] ==> id in rows
        invariant IsGrouping(rows, ids[..k], keys, groups)
      {
        var id := ids[k];
        assert id in ids && ids[..k + 1] == ids[..k] + [id];
        assert ids[..k + 1][..k] == ids[..k];
        var key := GroupKeyOf(rows[id]);
        GroupingNext(rows, ids[..k], keys, groups, id);
        if key in groups {
          groups := groups[key := groups[key] + [id]];
        } else {
          keys := keys + [key];
          groups := groups[key := [id]];
        }
      }
      assert ids[..|ids|] == ids;
    }

    /** Deletes what is overdue in one (cluster, volume), if the system can be reached. */
    method RetainGroup(p: Policy, key: GroupKey, overdue: seq<int>, now: int, w: World)
      requires NoRepeats(overdue) && forall id :: id in overdue ==> id in rows
      modifies `rows
      ensures rows == Applied(old(rows), if ClusterKnown(w.inv, key) && w.reachable(p.id, key) then Elements(overdue)
                                         else {}, w, now)
    {
      AppliedNone(rows, w, now);
      if ClusterKnown(w.inv, key) && overdue != [] {
        if w.reachable(p.id, key) {
          DeleteAll(overdue, w, now);
        }
      }
    }

    /** Applies the retention of one policy, group by group. */
    method RetainPolicy(p: Policy, now: int, w: World)
      requires Valid()
      modifies `rows
      ensures Valid()
      ensures rows == Applied(old(rows), SelectedFor(old(rows), order, p, now, w), w, now)
    {
      ghost var before := rows;
      var loaded := rows;   // the row objects this policy works on
      var ids := Query(loaded, order, p.id);
      var keys, groups := GroupRows(ids);
      RetainGroups(p, loaded, ids, keys, groups, now, w);
      SelectedInAll(before, order, p, now, w, ids, keys, groups);
    }

    method RetainGroups(p: Policy, loaded: Rows, ghost ids: seq<int>, keys: seq<GroupKey>,
                        groups: map<GroupKey, seq<int>>, now: int, w: World)
      requires Valid() && loaded == rows && ids == Query(loaded, order, p.id)
      requires IsGrouping(loaded, ids, keys, groups)
      modifies `rows
      ensures rows == Applied(loaded, SelectedIn(loaded, order, p, now, w, keys), w, now)
    {
      AppliedNone(loaded, w, now);
      for k := 0 to |keys|
        invariant rows == Applied(loaded, SelectedIn(loaded, order, p, now, w, keys[..k]), w, now)
      {
        var overdue := OverdueIn(loaded, p, groups, keys[k], ids, now);
        RetainNext(loaded, order, p, now, w, keys, k);
        RetainGroup(p, keys[k], overdue, now, w);
      }
      assert keys[..|keys|] == keys;
    }

    method OverdueIn(loaded: Rows, p: Policy, groups: map<GroupKey, seq<int>>, key: GroupKey, ghost ids: seq<int>,
                     now: int)
      returns (overdue: seq<int>)
      requires (forall id :: id in ids ==> id in loaded) && key in groups && groups[key] == InGroup(loaded, ids, key)
      ensures overdue == Overdue(loaded, p.retention, InGroup(loaded, ids, key), now)
    {
      overdue := Overdue(loaded, p.retention, groups[key], now);
    }

    /** The daily retention job. */
    method RunRetention(policies: seq<Policy>, now: int, w: World)
      requires Valid() && DistinctPolicies(policies)
      modifies `rows
      ensures Valid()
      ensures rows == Applied(old(rows), SelectedUpTo(old(rows), order, policies, now, w, |policies|), w, now)
    {
      ghost var before := rows;
      AppliedNone(before, w, now);
      for k := 0 to |policies|
        invariant Valid()
        invariant rows == Applied(before, SelectedUpTo(before, order, policies, now, w, k), w, now)
      {
        RetainPolicy(policies[k], now, w);
        PolicyNext(before, order, policies, now, w, k);
      }
    }

    /** The daily reconciliation job. */
    method RunReconciliation(inv: Inventory, primary: GroupKey -> Listing, listings: nat -> nat -> Listing, now: int)
      requires Valid()
      modifies `rows
      ensures Valid()
      ensures rows == Reconciled(old(rows), order, inv, primary, listings, now)
    {
      var watched := WatchedIds(rows, order);
      WatchedCoverPrimary(rows, order, inv, primary);
      if watched != [] {
        CheckPrimary(watched, inv, primary);
      }
      assert rows == AfterPrimary(old(rows), inv, primary);
      CheckAll(watched + LingeringIds(rows, order), inv, listings, now);
    }

    method CheckAll(ids: seq<int>, inv: Inventory, listings: nat -> nat -> Listing, now: int)
      requires forall id :: id in ids ==> id in rows
      modifies `rows
      ensures rows == CheckedRows(old(rows), inv, ids, listings, now)
    {
      ghost var before := rows;
      for k := 0 to |ids|
        invariant forall id :: id in ids ==> id in before
        invariant forall id :: id in ids[..k] ==> id in before
        invariant rows == CheckedRows(before, inv, ids[..k], listings, now)
      {
        CheckedNext(before, inv, ids, listings, now, k);
        CheckDestinations(inv, ids[k], listings(k), now);
      }
      assert ids[..|ids|] == ids;
    }

    /** Ends the success of the rows whose snapshot a volume does not list. */
    method EndUnlisted(ids: seq<int>, names: set<string>)
      requires forall id :: id in ids ==> id in rows
      modifies `rows
      ensures rows == UnlistedEnded(old(rows), ids, names)
    {
      ghost var before := rows;
      for k := 0 to |ids|
        invariant rows.Keys == before.Keys
        invariant forall id :: id in before ==>
                  rows[id] == if id in ids[..k] then Unlisted(before[id], names) else before[id]
      {
        var id := ids[k];
        assert id in ids && ids[..k + 1] == ids[..k] + [id];
        if Filled(rows[id].snapshotName) && rows[id].snapshotName.value !in names {
          rows := rows[id := rows[id].(success := false)];
        }
      }
      assert ids[..|ids|] == ids;
      SameMap(rows, UnlistedEnded(before, ids, names));
    }

    /** Compares watched rows with what their primary volumes list, volume by volume. */
    method CheckPrimary(watched: seq<int>, inv: Inventory, primary: GroupKey -> Listing)
      requires forall id :: id in watched ==> id in rows && Watched(rows[id])
      modifies `rows
      ensures rows == WatchedChecked(old(rows), inv, primary, watched)
    {
      ghost var before := rows;
      var keys, groups := GroupRows(watched);
      NoVolumeChecked(before, inv, primary, watched);
      assert keys[..0] == [];
      for g := 0 to |keys|
        invariant rows == VolumesChecked(before, inv, primary, watched, keys[..g])
      {
        var key := keys[g];
        assert key in keys && key in groups && key !in keys[..g];
        VolumeNext(before, inv, primary, watched, keys, g);
        CompareVolume(key, groups[key], inv, primary);
      }
      assert keys[..|keys|] == keys;
      AllVolumesChecked(before, inv, primary, watched, keys);
    }

    /** One volume, if its system is known and lists it. */
    method CompareVolume(key: GroupKey, ids: seq<int>, inv: Inventory, primary: GroupKey -> Listing)
      requires forall id :: id in ids ==> id in rows
      modifies `rows
      ensures rows == if ClusterKnown(inv, key) && primary(key).Some?
                      then UnlistedEnded(old(rows), ids, primary(key).value) else old(rows)
    {
      if ClusterKnown(inv, key) && primary(key).Some? {
        EndUnlisted(ids, primary(key).value);
      }
    }
  }

  lemma {:induction false} CheckedNext(rows: Rows, inv: Inventory, ids: seq<int>, listings: nat -> nat -> Listing,
                                       now: int, k: nat)
    requires (forall id :: id in ids ==> id in rows) && k < |ids|
    ensures (forall id :: id in ids[..k] ==> id in rows) && (forall id :: id in ids[..k + 1] ==> id in rows)
    ensures
      var before := CheckedRows(rows, inv, ids[..k], listings, now);
      && ids[k] in before
      && CheckedRows(rows, inv, ids[..k + 1], listings, now)
          == before[ids[k] := Checked(inv, before[ids[k]], listings(k), now)]
  {
    assert ids[k] in ids && ids[..k + 1][..k] == ids[..k];
  }

  function UnlistedEnded(rows: Rows, ids: seq<int>, names: set<string>): Rows {
    map id | id in rows :: if id in ids then Unlisted(rows[id], names) else rows[id]
  }

  function WatchedChecked(rows: Rows, inv: Inventory, primary: GroupKey -> Listing, watched: seq<int>): Rows {
    map id | id in rows :: if id in watched then PrimaryChecked(inv, primary, rows[id]) else rows[id]
  }

  function Unlisted(row: Row, names: set<string>): Row {
    if Filled(row.snapshotName) && row.snapshotName.value !in names then row.(success := false) else row
  }

  /** The rows after the volumes of the given keys were compared. */
  function VolumesChecked(rows: Rows, inv: Inventory, primary: GroupKey -> Listing, watched: seq<int>,
                          keys: seq<GroupKey>): Rows
  {
    map id | id in rows ::
      if id in watched && GroupKeyOf(rows[id]) in keys then PrimaryChecked(inv, primary, rows[id]) else rows[id]
  }

  lemma {:induction false} NoVolumeChecked(rows: Rows, inv: Inventory, primary: GroupKey -> Listing, watched: seq<int>)
    requires forall id :: id in watched ==> id in rows && Watched(rows[id])
    ensures VolumesChecked(rows, inv, primary, watched, []) == rows
  {
    SameMap(rows, VolumesChecked(rows, inv, primary, watched, []));
  }

  lemma {:induction false} AllVolumesChecked(rows: Rows, inv: Inventory, primary: GroupKey -> Listing,
                                             watched: seq<int>, keys: seq<GroupKey>)
    requires forall id :: id in watched ==> id in rows && Watched(rows[id]) && GroupKeyOf(rows[id]) in keys
    ensures VolumesChecked(rows, inv, primary, watched, keys) == WatchedChecked(rows, inv, primary, watched)
  {
    SameMap(VolumesChecked(rows, inv, primary, watched, keys), WatchedChecked(rows, inv, primary, watched));
  }

  lemma {:induction false} VolumeNext(rows: Rows, inv: Inventory, primary: GroupKey -> Listing, watched: seq<int>,
                                      keys: seq<GroupKey>, g: nat)
    requires forall id :: id in watched ==> id in rows && Watched(rows[id])
    requires g < |keys| && keys[g] !in keys[..g]
    ensures var before, after := VolumesChecked(rows, inv, primary, watched, keys[..g]),
        VolumesChecked(rows, inv, primary, watched, keys[..g + 1]);
            if ClusterKnown(inv, keys[g]) && primary(keys[g]).Some? then
              after == UnlistedEnded(before, InGroup(rows, watched, keys[g]), primary(keys[g]).value)
            else after == before
  {
    var before, after := VolumesChecked(rows, inv, primary, watched, keys[..g]),
        VolumesChecked(rows, inv, primary, watched, keys[..g + 1]);
    var key := keys[g];
    assert keys[..g + 1] == keys[..g] + [key];
    if ClusterKnown(inv, key) && primary(key).Some? {
      SameMap(after, UnlistedEnded(before, InGroup(rows, watched, key), primary(key).value));
    } else {
      SameMap(after, before);
    }
  }

  // ---------------------------------------------------------------- grouping

  ghost predicate KeysFit(rows: Rows, ids: seq<int>, keys: seq<GroupKey>) {
    && (forall id :: id in ids ==> id in rows && GroupKeyOf(rows[id]) in keys)
    && (forall a, b :: 0 <= a < b < |keys| ==> keys[a] != keys[b])
  }

  ghost predicate GroupsFit(rows: Rows, ids: seq<int>, groups: map<GroupKey, seq<int>>) {
    && (forall id :: id in ids ==> id in rows)
    && (forall key :: key in groups ==> groups[key] == InGroup(rows, ids, key))
  }

  ghost predicate IsGrouping(rows: Rows, ids: seq<int>, keys: seq<GroupKey>, groups: map<GroupKey, seq<int>>) {
    && KeysFit(rows, ids, keys) && GroupsFit(rows, ids, groups)
    && (forall key :: key in keys <==> key in groups)
  }

  lemma {:induction false} InGroupNext(rows: Rows, ids: seq<int>, id: int, key: GroupKey)
    requires (forall x :: x in ids ==> x in rows) && id in rows
    ensures forall x :: x in ids + [id] ==> x in rows
    ensures InGroup(rows, ids + [id], key)
          == InGroup(rows, ids, key) + (if GroupKeyOf(rows[id]) == key then [id] else [])
  {
    var longer := ids + [id];
    assert longer[..|longer| - 1] == ids && longer[|longer| - 1] == id;
  }

  lemma {:induction false} NoneInGroup(rows: Rows, ids: seq<int>, key: GroupKey)
    requires forall x :: x in ids ==> x in rows && GroupKeyOf(rows[x]) != key
    ensures InGroup(rows, ids, key) == []
  {
    if ids != [] {
      var n := |ids| - 1;
      var last := ids[n];
      assert ids == ids[..n] + [last] && last in ids;
      NoneInGroup(rows, ids[..n], key);
    }
  }

  lemma {:induction false} GroupingNext(rows: Rows, ids: seq<int>, keys: seq<GroupKey>, groups: map<GroupKey, seq<int>>,
                                        id: int)
    requires IsGrouping(rows, ids, keys, groups) && id in rows
    ensures
      var key := GroupKeyOf(rows[id]);
      if key in groups then IsGrouping(rows, ids + [id], keys, groups[key := groups[key] + [id]])
      else IsGrouping(rows, ids + [id], keys + [key], groups[key := [id]])
  {
    var key := GroupKeyOf(rows[id]);
    KeysNext(rows, ids, keys, id);
    if key in groups {
      GroupExtended(rows, ids, groups, id);
    } else {
      GroupOpened(rows, ids, keys, groups, id);
    }
  }

  lemma {:induction false} KeysNext(rows: Rows, ids: seq<int>, keys: seq<GroupKey>, id: int)
    requires KeysFit(rows, ids, keys) && id in rows
    ensures
      var key := GroupKeyOf(rows[id]);
      KeysFit(rows, ids + [id], if key in keys then keys else keys + [key])
  {
  }

  lemma {:induction false} GroupExtended(rows: Rows, ids: seq<int>, groups: map<GroupKey, seq<int>>, id: int)
    requires GroupsFit(rows, ids, groups) && id in rows && GroupKeyOf(rows[id]) in groups
    ensures
      var key := GroupKeyOf(rows[id]);
      GroupsFit(rows, ids + [id], groups[key := groups[key] + [id]])
  {
    var key := GroupKeyOf(rows[id]);
    forall other | other in groups
      ensures InGroup(rows, ids + [id], other) == groups[key := groups[key] + [id]][other]
    {
      InGroupNext(rows, ids, id, other);
    }
  }

  lemma {:induction false} GroupOpened(rows: Rows, ids: seq<int>, keys: seq<GroupKey>, groups: map<GroupKey, seq<int>>,
                                       id: int)
    requires IsGrouping(rows, ids, keys, groups) && id in rows && GroupKeyOf(rows[id]) !in groups
    ensures GroupsFit(rows, ids + [id], groups[GroupKeyOf(rows[id]) := [id]])
  {
    var key := GroupKeyOf(rows[id]);
    NoneInGroup(rows, ids, key);
    forall other | other in groups || other == key
      ensures InGroup(rows, ids + [id], other) == groups[key := [id]][other]
    {
      InGroupNext(rows, ids, id, other);
    }
  }

  // ---------------------------------------------------------------- selection, piece by piece

  function SelectedFor(rows: Rows, order: seq<int>, p: Policy, now: int, w: World): set<int> {
    set id | id in rows && Selected(rows, order, p, now, w, id)
  }

  function SelectedIn(rows: Rows, order: seq<int>, p: Policy, now: int, w: World, keys: seq<GroupKey>): set<int> {
    set id | id in rows && Selected(rows, order, p, now, w, id) && GroupKeyOf(rows[id]) in keys
  }

  lemma {:induction false} SelectedInNext(rows: Rows, order: seq<int>, p: Policy, now: int, w: World,
                                          keys: seq<GroupKey>, k: nat)
    requires k < |keys| && forall a, b :: 0 <= a < b < |keys| ==> keys[a] != keys[b]
    ensures SelectedIn(rows, order, p, now, w, keys[..k + 1])
         == SelectedIn(rows, order, p, now, w, keys[..k]) + SelectedIn(rows, order, p, now, w, [keys[k]])
    ensures SelectedIn(rows, order, p, now, w, keys[..k]) !! SelectedIn(rows, order, p, now, w, [keys[k]])
  {
    assert keys[..k + 1] == keys[..k] + [keys[k]];
    assert keys[k] !in keys[..k];
  }

  lemma {:induction false} SelectedOfGroup(rows: Rows, order: seq<int>, p: Policy, now: int, w: World, key: GroupKey)
    requires NoRepeats(order)
    ensures SelectedIn(rows, order, p, now, w, [key])
         == if ClusterKnown(w.inv, key) && w.reachable(p.id, key) then Elements(OverdueOf(rows, order, p, key, now))
            else {}
  {
    var overdue := OverdueOf(rows, order, p, key, now);
    OverdueOfNoRepeats(rows, order, p, key, now);
    var chosen := SelectedIn(rows, order, p, now, w, [key]);
    forall id | id in chosen ensures id in overdue && ClusterKnown(w.inv, key) && w.reachable(p.id, key) {
      assert GroupKeyOf(rows[id]) == key;
    }
    if ClusterKnown(w.inv, key) && w.reachable(p.id, key) {
      forall id | id in overdue ensures id in chosen { assert Selected(rows, order, p, now, w, id); }
    }
  }

  /** One step of the group loop, seen from the rows the policy started with. */
  lemma {:induction false} RetainNext(rows: Rows, order: seq<int>, p: Policy, now: int, w: World, keys: seq<GroupKey>,
                                      k: nat)
    requires k < |keys| && forall a, b :: 0 <= a < b < |keys| ==> keys[a] != keys[b]
    requires NoRepeats(order)
    ensures var overdue, done := OverdueOf(rows, order, p, keys[k], now), SelectedIn(rows, order, p, now, w, keys[..k]);
            && NoRepeats(overdue)
            && (forall id :: id in overdue ==> id in Applied(rows, done, w, now))
            && Applied(Applied(rows, done, w, now),
                       if ClusterKnown(w.inv, keys[k]) && w.reachable(p.id, keys[k]) then Elements(overdue)
                       else {}, w, now)
            == Applied(rows, SelectedIn(rows, order, p, now, w, keys[..k + 1]), w, now)
  {
    var key := keys[k];
    var overdue, done := OverdueOf(rows, order, p, key, now), SelectedIn(rows, order, p, now, w, keys[..k]);
    SelectedInNext(rows, order, p, now, w, keys, k);
    SelectedOfGroup(rows, order, p, now, w, key);
    AppliedTwice(rows, done, SelectedIn(rows, order, p, now, w, [key]), w, now);
    OverdueOfNoRepeats(rows, order, p, key, now);
    assert key !in keys[..k];
  }

  lemma {:induction false} SelectedInAll(rows: Rows, order: seq<int>, p: Policy, now: int, w: World, ids: seq<int>,
                                         keys: seq<GroupKey>, groups: map<GroupKey, seq<int>>)
    requires ids == Query(rows, order, p.id) && IsGrouping(rows, ids, keys, groups)
    requires forall id :: id in rows ==> id in order
    ensures SelectedIn(rows, order, p, now, w, keys) == SelectedFor(rows, order, p, now, w)
  {
  }

  // ---------------------------------------------------------------- policies do not interfere

  ghost predicate DistinctPolicies(policies: seq<Policy>) {
    forall a, b :: 0 <= a < b < |policies| ==> policies[a].id != policies[b].id
  }

  /** Rows of this policy are the same in both catalogues. */
  ghost predicate SameForPolicy(a: Rows, b: Rows, policyId: string) {
    forall id :: InQuery(a, policyId, id) || InQuery(b, policyId, id) ==> id in a && id in b && a[id] == b[id]
  }

  lemma {:induction false} SameQuery(a: Rows, b: Rows, order: seq<int>, policyId: string)
    requires SameForPolicy(a, b, policyId)
    ensures Query(a, order, policyId) == Query(b, order, policyId)
  {
    if order != [] { SameQuery(a, b, order[..|order| - 1], policyId); }
  }

  lemma {:induction false} SameGroup(a: Rows, b: Rows, ids: seq<int>, key: GroupKey)
    requires forall id :: id in ids ==> id in a && id in b && a[id] == b[id]
    ensures InGroup(a, ids, key) == InGroup(b, ids, key)
  {
    if ids != [] {
      var n := |ids| - 1;
      var last := ids[n];
      assert ids == ids[..n] + [last] && last in ids;
      SameGroup(a, b, ids[..n], key);
    }
  }

  lemma {:induction false} SameInsert(a: Rows, b: Rows, sorted: seq<int>, id: int)
    requires id in a && id in b && a[id] == b[id]
    requires forall x :: x in sorted ==> x in a && x in b && a[x] == b[x]
    ensures InsertNewest(a, sorted, id) == InsertNewest(b, sorted, id)
  {
    if sorted != [] {
      var n := |sorted| - 1;
      var last := sorted[n];
      assert sorted == sorted[..n] + [last] && last in sorted;
      SameInsert(a, b, sorted[..n], id);
    }
  }

  lemma {:induction false} SameOrder(a: Rows, b: Rows, ids: seq<int>)
    requires forall id :: id in ids ==> id in a && id in b && a[id] == b[id]
    ensures NewestFirst(a, ids) == NewestFirst(b, ids)
  {
    if ids != [] {
      var n := |ids| - 1;
      var last := ids[n];
      assert ids == ids[..n] + [last] && last in ids;
      SameOrder(a, b, ids[..n]);
      assert forall x :: x in NewestFirst(a, ids[..n]) ==> x in multiset(NewestFirst(a, ids[..n]));
      SameInsert(a, b, NewestFirst(a, ids[..n]), last);
    }
  }

  lemma {:induction false} SameOlder(a: Rows, b: Rows, ids: seq<int>, cutoff: int)
    requires forall id :: id in ids ==> id in a && id in b && a[id] == b[id]
    ensures OlderThan(a, ids, cutoff) == OlderThan(b, ids, cutoff)
  {
    if ids != [] {
      var n := |ids| - 1;
      var last := ids[n];
      assert ids == ids[..n] + [last] && last in ids;
      SameOlder(a, b, ids[..n], cutoff);
    }
  }

  lemma {:induction false} SameOverdue(a: Rows, b: Rows, order: seq<int>, p: Policy, key: GroupKey, now: int)
    requires SameForPolicy(a, b, p.id)
    ensures OverdueOf(a, order, p, key, now) == OverdueOf(b, order, p, key, now)
  {
    SameQuery(a, b, order, p.id);
    SameGroup(a, b, Query(a, order, p.id), key);
    SameOverdueInGroup(a, b, p.retention, InGroup(a, Query(a, order, p.id), key), now);
  }

  lemma {:induction false} SameOverdueInGroup(a: Rows, b: Rows, retention: Schedules.Retention, group: seq<int>,
                                              now: int)
    requires forall id :: id in group ==> id in a && id in b && a[id] == b[id]
    ensures Overdue(a, retention, group, now) == Overdue(b, retention, group, now)
  {
    SameOrder(a, b, group);
    var sorted := NewestFirst(a, group);
    assert forall x :: x in sorted ==> x in multiset(sorted);
    if retention.Days? {
      SameOlder(a, b, sorted, Cutoff(now, retention.n));
    }
  }

  lemma {:induction false} SameSelected(a: Rows, b: Rows, order: seq<int>, p: Policy, now: int, w: World)
    requires SameForPolicy(a, b, p.id)
    ensures SelectedFor(a, order, p, now, w) == SelectedFor(b, order, p, now, w)
  {
    forall id | InQuery(a, p.id, id) && InQuery(b, p.id, id)
      ensures OverdueOf(a, order, p, GroupKeyOf(a[id]), now) == OverdueOf(b, order, p, GroupKeyOf(b[id]), now)
    {
      SameOverdue(a, b, order, p, GroupKeyOf(a[id]), now);
    }
  }

  /** What earlier policies did leaves the selection of the next one as it was. */
  lemma {:induction false} OtherPoliciesUntouched(rows: Rows, order: seq<int>, policies: seq<Policy>, now: int,
                                                  w: World, k: nat)
    requires k < |policies| && DistinctPolicies(policies)
    ensures var done := SelectedUpTo(rows, order, policies, now, w, k);
            && SelectedFor(Applied(rows, done, w, now), order, policies[k], now, w)
                == SelectedFor(rows, order, policies[k], now, w)
            && done !! SelectedFor(rows, order, policies[k], now, w)
  {
    var done := SelectedUpTo(rows, order, policies, now, w, k);
    forall id | id in done ensures rows[id].policyId != Some(policies[k].id) {
      var j :| 0 <= j < k && Selected(rows, order, policies[j], now, w, id);
    }
    SameSelected(Applied(rows, done, w, now), rows, order, policies[k], now, w);
  }

  lemma {:induction false} PolicyNext(rows: Rows, order: seq<int>, policies: seq<Policy>, now: int, w: World, k: nat)
    requires k < |policies| && DistinctPolicies(policies)
    ensures var before := Applied(rows, SelectedUpTo(rows, order, policies, now, w, k), w, now);
            && Applied(before, SelectedFor(before, order, policies[k], now, w), w, now)
            == Applied(rows, SelectedUpTo(rows, order, policies, now, w, k + 1), w, now)
  {
    var done, next := SelectedUpTo(rows, order, policies, now, w, k), SelectedFor(rows, order, policies[k], now, w);
    OtherPoliciesUntouched(rows, order, policies, now, w, k);
    AppliedTwice(rows, done, next, w, now);
    assert SelectedUpTo(rows, order, policies, now, w, k + 1) == done + next;
  }

  // ---------------------------------------------------------------- reconciliation

  lemma {:induction false} WatchedCoverPrimary(rows: Rows, order: seq<int>, inv: Inventory,
                                               primary: GroupKey -> Listing)
    requires forall id :: id in rows ==> id in order
    ensures AfterPrimary(rows, inv, primary)
         == WatchedChecked(rows, inv, primary, WatchedIds(rows, order))
  {
    SameMap(AfterPrimary(rows, inv, primary), WatchedChecked(rows, inv, primary, WatchedIds(rows, order)));
  }
}
