/** What whole runs of backups, retention and reconciliation keep, whatever the
    storage interfaces answer or fail to answer. */
module CatalogueSafety {
  import opened Wrappers
  import opened Schedules
  import opened SnapshotCatalogue
  import opened Retention
  import opened Reconciliation
  import opened CatalogueJobs
  import opened MirrorTargets

  datatype State = State(rows: Rows, order: seq<int>)

  datatype Event =
    | Backup(id: int, row: Row)
    | Retain(policies: seq<Policy>, at: int, world: World)
    | Reconcile(inv: Inventory, primary: GroupKey -> Listing, listings: nat -> nat -> Listing, at: int)

  ghost function Step(s: State, e: Event): State {
    match e
    case Backup(id, row) => if id in s.order then s else State(s.rows[id := row], s.order + [id])
    case Retain(policies, now, w) =>
      State(Applied(s.rows, SelectedUpTo(s.rows, s.order, policies, now, w, |policies|), w, now), s.order)
    case Reconcile(inv, primary, listings, now) => State(Reconciled(s.rows, s.order, inv, primary, listings, now),
                                                         s.order)
  }

  function StateOf(c: Catalogue): State
    reads c
  {
    State(c.rows, c.order)
  }

  /** Policies are rows of a table, so their identifiers differ. */
  ghost predicate ValidEvent(e: Event) {
    e.Retain? ==> DistinctPolicies(e.policies)
  }

  /** The jobs and the backup, carried out on the catalogue, are the steps. */
  method Perform(c: Catalogue, e: Event)
    requires c.Valid() && ValidEvent(e)
    modifies c
    ensures c.Valid() && StateOf(c) == Step(old(StateOf(c)), e)
  {
    match e {
      case Backup(id, row) =>
        if id !in c.order {
          c.Add(id, row);
        }
      case Retain(policies, now, w) =>
        c.RunRetention(policies, now, w);
      case Reconcile(inv, primary, listings, now) =>
        c.RunReconciliation(inv, primary, listings, now);
    }
  }

  method PerformAll(c: Catalogue, events: seq<Event>)
    requires c.Valid() && forall k :: 0 <= k < |events| ==> ValidEvent(events[k])
    modifies c
    ensures c.Valid() && StateOf(c) == Run(old(StateOf(c)), events)
  {
    for k := 0 to |events|
      invariant c.Valid() && StateOf(c) == Run(old(StateOf(c)), events[..k])
    {
      assert events[..k + 1][..k] == events[..k];
      Perform(c, events[k]);
    }
    assert events[..|events|] == events;
  }

  ghost function Run(s: State, events: seq<Event>): State {
    if events == [] then s else Step(Run(s, events[..|events| - 1]), events[|events| - 1])
  }

  ghost predicate Ordered(s: State) {
    forall id :: id in s.rows ==> id in s.order
  }

  // ---------------------------------------------------------------- one event

  /** The event removes the row after its primary snapshot was deleted and the
      check that followed marked no destination as present. */
  ghost predicate Drops(s: State, e: Event, id: int) {
    && e.Retain? && id in s.rows
    && (exists k :: 0 <= k < |e.policies| && Selected(s.rows, s.order, e.policies[k], e.at, e.world, id))
    && e.world.deleted(id)
    && !AnyPresent(Checked(e.world.inv, s.rows[id], e.world.listings(id), e.at))
  }

  /** A row leaves the catalogue exactly when the event drops it. */
  lemma {:induction false} LeavesIffDropped(s: State, e: Event, id: int)
    requires id in s.rows
    ensures id !in Step(s, e).rows <==> Drops(s, e, id)
  {
  }

  lemma {:induction false} CheckedRowsKeepSuccess(rows: Rows, inv: Inventory, ids: seq<int>,
                                                  listings: nat -> nat -> Listing, now: int, id: int)
    requires (forall x :: x in ids ==> x in rows) && id in rows
    ensures CheckedRows(rows, inv, ids, listings, now)[id].(destinations := []) == rows[id].(destinations := [])
  {
    if ids != [] {
      var n := |ids| - 1;
      var last := ids[n];
      assert ids == ids[..n] + [last] && last in ids;
      CheckedRowsKeepSuccess(rows, inv, ids[..n], listings, now, id);
      var before := CheckedRows(rows, inv, ids[..n], listings, now);
      CheckKeepsTheRest(inv, before[last], listings(n), now);
    }
  }

  lemma {:induction false} CheckKeepsTheRest(inv: Inventory, row: Row, listings: nat -> Listing, now: int)
    ensures Checked(inv, row, listings, now).(destinations := []) == row.(destinations := [])
  {
  }

  /** No event changes what a row says about its snapshot, except that success may end. */
  lemma {:induction false} StepKeepsSnapshot(s: State, e: Event, id: int)
    requires Ordered(s) && id in s.rows && id in Step(s, e).rows
    ensures Step(s, e).rows[id].(destinations := [], success := false)
          == s.rows[id].(destinations := [], success := false)
    ensures Step(s, e).rows[id].success ==> s.rows[id].success
  {
    if e.Reconcile? {
      var after := AfterPrimary(s.rows, e.inv, e.primary);
      CheckedRowsKeepSuccess(after, e.inv, WatchedIds(s.rows, s.order) + LingeringIds(after, s.order), e.listings, e.at,
                             id);
    }
  }

  /** Reconciliation ends a row's success only for a snapshot its readable primary
      volume does not list. */
  lemma {:induction false} SuccessEndsIffUnlisted(s: State, e: Event, id: int)
    requires e.Reconcile? && Ordered(s) && id in s.rows && s.rows[id].success
    ensures !Step(s, e).rows[id].success
       <==> var row, key := s.rows[id], (s.rows[id].clusterId, s.rows[id].volumeUuid);
            && row.volumeUuid.Some? && row.clusterId.Some?
            && (exists i :: 0 <= i < |e.inv.clusters| && e.inv.clusters[i].id == row.clusterId.value)
            && e.primary(key).Some?
            && row.snapshotName.Some? && row.snapshotName.value != "" && row.snapshotName.value !in e.primary(key).value
  {
    var after := AfterPrimary(s.rows, e.inv, e.primary);
    CheckedRowsKeepSuccess(after, e.inv, WatchedIds(s.rows, s.order) + LingeringIds(after, s.order), e.listings, e.at,
                           id);
    if s.rows[id].clusterId.Some? { ByIdIsLast(e.inv.clusters, s.rows[id].clusterId.value); }
  }

  // ---------------------------------------------------------------- whole runs

  lemma {:induction false} RunOrdered(s: State, events: seq<Event>)
    requires Ordered(s)
    ensures Ordered(Run(s, events))
    ensures forall id :: id in s.order ==> id in Run(s, events).order
  {
    if events != [] { RunOrdered(s, events[..|events| - 1]); }
  }

  /** A row that was in the catalogue and is gone was dropped by one of the
      retention runs in between: its primary delete had succeeded and its last
      check marked no destination as present. */
  lemma {:induction false} GoneOnlyIfDropped(s: State, events: seq<Event>, id: int) returns (k: nat)
    requires Ordered(s) && id in s.rows && id !in Run(s, events).rows
    ensures k < |events| && Drops(Run(s, events[..k]), events[k], id)
  {
    var n := |events| - 1;
    if id in Run(s, events[..n]).rows {
      LeavesIffDropped(Run(s, events[..n]), events[n], id);
      k := n;
    } else {
      k := GoneOnlyIfDropped(s, events[..n], id);
      assert events[..n][..k] == events[..k];
    }
  }

  /** A dropped row never comes back, and a row that stays keeps its snapshot. */
  lemma {:induction false} SnapshotNeverRewritten(s: State, events: seq<Event>, id: int)
    requires Ordered(s) && id in s.order
    ensures id in Run(s, events).rows ==>
              && id in s.rows
              && Run(s, events).rows[id].(destinations := [], success := false)
                  == s.rows[id].(destinations := [], success := false)
              && (Run(s, events).rows[id].success ==> s.rows[id].success)
  {
    if events != [] {
      var n := |events| - 1;
      SnapshotNeverRewritten(s, events[..n], id);
      RunOrdered(s, events[..n]);
      if id in Run(s, events).rows {
        StepKeepsSnapshot(Run(s, events[..n]), events[n], id);
      }
    }
  }

  // ---------------------------------------------------------------- copies on destinations

  /** A row whose snapshot the listing of some relationship shows survives retention. */
  lemma {:induction false} ListedCopyKeepsRow(s: State, e: Event, id: int, k: nat)
    requires e.Retain? && id in s.rows
    requires DistinctTargets(e.world.inv, s.rows[id]) && k < |MirrorsOf(e.world.inv, s.rows[id])|
    requires TargetOf(e.world.inv, MirrorsOf(e.world.inv, s.rows[id])[k]).Listable? && e.world.listings(id)(k).Some?
    requires s.rows[id].snapshotName.value in e.world.listings(id)(k).value
    ensures id in Step(s, e).rows
  {
    ListedCopyIsPresent(e.world.inv, s.rows[id], e.world.listings(id), e.at, k);
  }

  lemma {:induction false} SomeLastWord(inv: Inventory, row: Row, listings: nat -> Listing, n: nat, k: nat, i: nat)
    requires k < n <= |MirrorsOf(inv, row)| && Speaks(inv, row, listings, k, i)
    ensures exists l :: LastWord(inv, row, listings, n, l, i)
  {
    if Speaks(inv, row, listings, n - 1, i) {
      assert LastWord(inv, row, listings, n, n - 1, i);
    } else {
      SomeLastWord(inv, row, listings, n - 1, k, i);
      var l :| LastWord(inv, row, listings, n - 1, l, i);
      assert LastWord(inv, row, listings, n, l, i);
    }
  }

  /** A known copy keeps its row as long as no listing taken for it lacks the snapshot,
      whatever fails. */
  lemma {:induction false} UndeniedCopyKeepsRow(s: State, e: Event, id: int, i: nat)
    requires e.Retain? && id in s.rows && i < |s.rows[id].destinations| && s.rows[id].destinations[i].present
    requires forall k :: 0 <= k < |MirrorsOf(e.world.inv, s.rows[id])| && LeadsTo(e.world.inv, s.rows[id], k, i)
                     ==> !Lacks(e.world.inv, s.rows[id], e.world.listings(id), k)
    ensures id in Step(s, e).rows
  {
    var inv, row, listings := e.world.inv, s.rows[id], e.world.listings(id);
    var n := |MirrorsOf(inv, row)|;
    AnyPresentAfterCheck(inv, row, listings, e.at);
    if k :| 0 <= k < n && Speaks(inv, row, listings, k, i) {
      SomeLastWord(inv, row, listings, n, k, i);
    }
    assert EndsPresent(inv, row, listings, n, i);
  }

  /** A selected row whose delete succeeds is dropped exactly when no known destination
      ends present and no relationship shows the copy on a new one. */
  lemma {:induction false} DroppedIffNoCopySeen(s: State, e: Event, id: int)
    requires e.Retain? && id in s.rows && e.world.deleted(id)
    requires exists k :: 0 <= k < |e.policies| && Selected(s.rows, s.order, e.policies[k], e.at, e.world, id)
    ensures
      var inv, row, listings := e.world.inv, s.rows[id], e.world.listings(id);
      var n := |MirrorsOf(inv, row)|;
      id !in Step(s, e).rows
      <==> && (forall i :: 0 <= i < |row.destinations| ==> !EndsPresent(inv, row, listings, n, i))
           && (forall k :: 0 <= k < n && NamesNew(inv, row, k) ==> !Shows(inv, row, listings, k))
  {
    AnyPresentAfterCheck(e.world.inv, s.rows[id], e.world.listings(id), e.at);
  }

  /** The gap in that rule: a copy no listing could confirm and no earlier check
      saw does not hold the row. If every listing fails, a row without a known
      copy is dropped, whatever the destinations really hold. */
  lemma {:induction false} UnseenCopyIsForgotten(s: State, e: Event, id: int)
    requires e.Retain? && id in s.rows && e.world.deleted(id)
    requires exists k :: 0 <= k < |e.policies| && Selected(s.rows, s.order, e.policies[k], e.at, e.world, id)
    requires !AnyPresent(s.rows[id]) && forall k :: e.world.listings(id)(k) == None
    ensures id !in Step(s, e).rows
  {
    UnseenIsAbsent(e.world.inv, s.rows[id], e.world.listings(id), e.at);
    LeavesIffDropped(s, e, id);
  }

  lemma {:induction false} UnseenIsAbsent(inv: Inventory, row: Row, listings: nat -> Listing, now: int)
    requires !AnyPresent(row) && forall k :: listings(k) == None
    ensures !AnyPresent(Checked(inv, row, listings, now))
  {
    var n := |MirrorsOf(inv, row)|;
    AnyPresentAfterCheck(inv, row, listings, now);
    assert forall k :: 0 <= k < n ==> !Shows(inv, row, listings, k);
    forall i | 0 <= i < |row.destinations| ensures !EndsPresent(inv, row, listings, n, i) {
      assert row.destinations[i] in row.destinations;
    }
  }

  /** The last check of a row in the list decides what its destinations say. */
  lemma {:induction false} LastCheckOf(rows: Rows, inv: Inventory, ids: seq<int>, listings: nat -> nat -> Listing,
                                       now: int, id: int) returns (k: nat, before: Row)
    requires (forall x :: x in ids ==> x in rows) && id in ids
    ensures k < |ids| && ids[k] == id && before.(destinations := []) == rows[id].(destinations := [])
    ensures CheckedRows(rows, inv, ids, listings, now)[id] == Checked(inv, before, listings(k), now)
  {
    var n := |ids| - 1;
    assert ids == ids[..n] + [ids[n]] && ids[n] in ids;
    if ids[n] == id {
      k, before := n, CheckedRows(rows, inv, ids[..n], listings, now)[id];
      CheckedRowsKeepSuccess(rows, inv, ids[..n], listings, now, id);
    } else {
      k, before := LastCheckOf(rows, inv, ids[..n], listings, now, id);
    }
  }

  lemma {:induction false} UncheckedStays(rows: Rows, inv: Inventory, ids: seq<int>, listings: nat -> nat -> Listing,
                                          now: int, id: int)
    requires (forall x :: x in ids ==> x in rows) && id in rows && id !in ids
    ensures CheckedRows(rows, inv, ids, listings, now)[id] == rows[id]
  {
    if ids != [] {
      var n := |ids| - 1;
      assert ids == ids[..n] + [ids[n]] && ids[n] in ids;
      UncheckedStays(rows, inv, ids[..n], listings, now, id);
    }
  }

  /** Reconciliation checks the destinations of a row again exactly if it succeeds on
      a known volume or was last seen on a destination; any other row stays as it is. */
  lemma {:induction false} NothingLingersUnwatched(s: State, e: Event, id: int) returns (k: nat, before: Row)
    requires e.Reconcile? && Ordered(s) && id in s.rows
    ensures
      var row := s.rows[id];
      if (if row.success then row.volumeUuid.Some? else exists d :: d in row.destinations && d.present) then
        && before.(destinations := [], success := false) == row.(destinations := [], success := false)
        && Step(s, e).rows[id] == Checked(e.inv, before, e.listings(k), e.at)
      else Step(s, e).rows[id] == row
  {
    var after := AfterPrimary(s.rows, e.inv, e.primary);
    var ids := WatchedIds(s.rows, s.order) + LingeringIds(after, s.order);
    k, before := 0, s.rows[id];
    if id in ids {
      k, before := LastCheckOf(after, e.inv, ids, e.listings, e.at, id);
    } else {
      UncheckedStays(after, e.inv, ids, e.listings, e.at, id);
    }
  }
}
