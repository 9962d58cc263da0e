/** What the daily reconciliation makes of the catalogue: rows whose snapshot is
    gone from the primary system stop counting as successful, and the copies on
    SnapMirror destinations are checked. */
module Reconciliation {
  import opened Texts
  import opened SnapshotCatalogue
  import opened Retention

  predicate Watched(row: Row) {
    row.success && row.volumeUuid.Some?
  }

  /** A readable primary volume that lacks the snapshot ends the row's success. */
  function PrimaryChecked(inv: Inventory, primary: GroupKey -> Listing, row: Row): Row {
    var key := GroupKeyOf(row);
    if Watched(row) && ClusterKnown(inv, key) && primary(key).Some?
       && Filled(row.snapshotName) && row.snapshotName.value !in primary(key).value
    then row.(success := false) else row
  }

  function AfterPrimary(rows: Rows, inv: Inventory, primary: GroupKey -> Listing): Rows {
    map id | id in rows :: PrimaryChecked(inv, primary, rows[id])
  }

  function WatchedIds(rows: Rows, order: seq<int>): (ids: seq<int>)
    ensures forall id :: id in ids <==> id in order && id in rows && Watched(rows[id])
  {
    if order == [] then []
    else
      var n := |order| - 1;
      var last := order[n];
      assert order == order[..n] + [last] && last in order;
      WatchedIds(rows, order[..n]) + (if last in rows && Watched(rows[last]) then [last] else [])
  }

  /** Rows that no longer succeed but whose copy was last seen on a destination. */
  function LingeringIds(rows: Rows, order: seq<int>): (ids: seq<int>)
    ensures forall id :: id in ids <==> id in order && id in rows && !rows[id].success && AnyPresent(rows[id])
  {
    if order == [] then []
    else
      var n := |order| - 1;
      var last := order[n];
      assert order == order[..n] + [last] && last in order;
      LingeringIds(rows, order[..n])
      + (if last in rows && !rows[last].success && AnyPresent(rows[last]) then [last] else [])
  }

  /** The destination checks of a list of rows, in order; listings(k) answers its k-th entry. */
  function CheckedRows(rows: Rows, inv: Inventory, ids: seq<int>, listings: nat -> nat -> Listing, now: int): (r: Rows)
    requires forall id :: id in ids ==> id in rows
    ensures r.Keys == rows.Keys
  {
    if ids == [] then rows
    else
      var n := |ids| - 1;
      var last := ids[n];
      assert ids == ids[..n] + [last] && last in ids;
      var before := CheckedRows(rows, inv, ids[..n], listings, now);
      before[last := Checked(inv, before[last], listings(n), now)]
  }

  function Reconciled(rows: Rows, order: seq<int>, inv: Inventory, primary: GroupKey -> Listing,
                      listings: nat -> nat -> Listing, now: int): Rows
  {
    var after := AfterPrimary(rows, inv, primary);
    CheckedRows(after, inv, WatchedIds(rows, order) + LingeringIds(after, order), listings, now)
  }
}
