/** The backup catalogue: snapshot rows with what is known of their copies on
    SnapMirror destinations, and the check of those copies. */
module SnapshotCatalogue {
  import opened Wrappers
  import opened Texts

  /** A destination row of a snapshot; `present` is the last verified state. */
  datatype Destination = Destination(
    svm: string,
    volume: string,
    relationship: Option<string>,
    clusterName: Option<string>,
    clusterId: Option<string>,
    volumeUuid: Option<string>,
    present: bool,
    checkedAt: int)

  datatype Row = Row(
    policyId: Option<string>,
    clusterId: Option<string>,
    volumeUuid: Option<string>,
    svm: Option<string>,
    volume: Option<string>,
    snapshotName: Option<string>,
    createdAt: int,
    success: bool,
    destinations: seq<Destination>)

  datatype Storage = Storage(id: string, name: string, ontapName: Option<string>)

  datatype StorageVolume = StorageVolume(clusterId: string, svm: Option<string>, name: string, uuid: Option<string>)

  datatype Mirror = Mirror(
    uuid: Option<string>,
    sourcePath: Option<string>,
    destinationPath: Option<string>,
    destinationCluster: Option<string>,
    clusterId: string)

  /** What discovery knows: registered systems, volumes and mirror relationships. */
  datatype Inventory = Inventory(clusters: seq<Storage>, volumes: seq<StorageVolume>, mirrors: seq<Mirror>)

  /** The snapshot names a listing returns; `None` when the call fails. */
  type Listing = Option<set<string>>

  // ---------------------------------------------------------------- finding the destination

  function ClusterById(clusters: seq<Storage>, id: string): Option<Storage> {
    if clusters == [] then None
    else if clusters[|clusters| - 1].id == id then Some(clusters[|clusters| - 1])
    else ClusterById(clusters[..|clusters| - 1], id)
  }

  predicate CarriesName(c: Storage, lowered: string) {
    (Filled(c.ontapName) && Lower(c.ontapName.value) == lowered) || (c.name != "" && Lower(c.name) == lowered)
  }

  /** The last registered system that carries the name, as ONTAP or display name. */
  function ClusterByName(clusters: seq<Storage>, lowered: string): Option<Storage> {
    if clusters == [] then None
    else if CarriesName(clusters[|clusters| - 1], lowered) then Some(clusters[|clusters| - 1])
    else ClusterByName(clusters[..|clusters| - 1], lowered)
  }

  function DestinationCluster(inv: Inventory, m: Mirror): Option<Storage> {
    var byName := if Filled(m.destinationCluster) then ClusterByName(inv.clusters, Lower(m.destinationCluster.value))
                  else None;
    if byName.Some? then byName else ClusterById(inv.clusters, m.clusterId)
  }

  function FindVolume(volumes: seq<StorageVolume>, clusterId: string, svm: string, name: string): Option<StorageVolume>
  {
    if volumes == [] then None
    else if volumes[0].clusterId == clusterId && volumes[0].svm == Some(svm) && volumes[0].name == name
         then Some(volumes[0])
    else FindVolume(volumes[1..], clusterId, svm, name)
  }

  /** How far a mirror relationship leads: no usable path, no registered system,
      no discovered volume, or a volume that can be listed. */
  datatype Target =
    | NoPath
    | Unregistered(svm: string, volume: string)
    | Undiscovered(svm: string, volume: string, clusterId: string)
    | Listable(svm: string, volume: string, clusterId: string, volumeUuid: string)

  function TargetOf(inv: Inventory, m: Mirror): Target {
    if !Filled(m.destinationPath) || IndexOf(m.destinationPath.value, ':') == |m.destinationPath.value| then NoPath
    else
      var path := m.destinationPath.value;
      var colon := IndexOf(path, ':');
      var svm, volume := path[..colon], path[colon + 1..];
      match DestinationCluster(inv, m)
      case None => Unregistered(svm, volume)
      case Some(c) =>
        var found := FindVolume(inv.volumes, c.id, svm, volume);
        if found.Some? && Filled(found.value.uuid) then Listable(svm, volume, c.id, found.value.uuid.value)
        else Undiscovered(svm, volume, c.id)
  }

  // ---------------------------------------------------------------- one relationship of one row

  type DestinationKey = (string, string)

  function KeyOf(t: Target): DestinationKey
    requires !t.NoPath?
  {
    (t.svm, t.volume)
  }

  function NewDestination(key: DestinationKey, now: int): Destination {
    Destination(key.0, key.1, None, None, None, None, false, now)
  }

  /** What a relationship says about the copy: `Some` only if the destination was listed. */
  function Verdict(t: Target, listing: Listing, name: string): Option<bool> {
    if t.Listable? && listing.Some? then Some(name in listing.value) else None
  }

  function Updated(d: Destination, m: Mirror, t: Target, listing: Listing, name: string, now: int): Destination {
    var d := d.(relationship := m.uuid, clusterName := m.destinationCluster);
    var d := if t.Undiscovered? || t.Listable? then d.(clusterId := Some(t.clusterId)) else d;
    var d := if t.Listable? then d.(volumeUuid := Some(t.volumeUuid)) else d;
    match Verdict(t, listing, name)
    case None => d
    case Some(present) => d.(present := present, checkedAt := now)
  }

  function CheckedOne(dests: seq<Destination>, existing: map<DestinationKey, nat>, m: Mirror, t: Target,
                      listing: Listing, name: string, now: int): (r: seq<Destination>)
    requires forall key :: key in existing ==> existing[key] < |dests|
    ensures |r| >= |dests|
  {
    if t.NoPath? then dests
    else if KeyOf(t) in existing then
      dests[existing[KeyOf(t)] := Updated(dests[existing[KeyOf(t)]], m, t, listing, name, now)]
    else dests + [Updated(NewDestination(KeyOf(t), now), m, t, listing, name, now)]
  }

  /** The lookup built from the rows before the loop; a later row wins. */
  function ExistingByKey(dests: seq<Destination>): (r: map<DestinationKey, nat>)
    ensures forall key :: key in r ==> r[key] < |dests| && (dests[r[key]].svm, dests[r[key]].volume) == key
  {
    if dests == [] then map[]
    else
      var last := |dests| - 1;
      ExistingByKey(dests[..last])[(dests[last].svm, dests[last].volume) := last]
  }

  // ---------------------------------------------------------------- all relationships of one row

  predicate Locatable(row: Row) {
    Filled(row.snapshotName) && Filled(row.svm) && Filled(row.volume)
  }

  function SourcePath(row: Row): string
    requires Locatable(row)
  {
    row.svm.value + ":" + row.volume.value
  }

  function MirrorsFrom(mirrors: seq<Mirror>, source: string): seq<Mirror> {
    if mirrors == [] then []
    else
      MirrorsFrom(mirrors[..|mirrors| - 1], source)
      + (if mirrors[|mirrors| - 1].sourcePath == Some(source) then [mirrors[|mirrors| - 1]] else [])
  }

  function MirrorsOf(inv: Inventory, row: Row): seq<Mirror> {
    if Locatable(row) then MirrorsFrom(inv.mirrors, SourcePath(row)) else []
  }

  /** The destinations after the first n relationships; listing k answers relationship k. */
  function CheckedUpTo(inv: Inventory, row: Row, listings: nat -> Listing, now: int, n: nat): (r: seq<Destination>)
    requires n <= |MirrorsOf(inv, row)|
    ensures |r| >= |row.destinations|
  {
    if n == 0 then row.destinations
    else
      var m := MirrorsOf(inv, row)[n - 1];
      CheckedOne(CheckedUpTo(inv, row, listings, now, n - 1), ExistingByKey(row.destinations), m, TargetOf(inv, m),
                 listings(n - 1),
                 row.snapshotName.value, now)
  }

  function Checked(inv: Inventory, row: Row, listings: nat -> Listing, now: int): Row {
    row.(destinations := CheckedUpTo(inv, row, listings, now, |MirrorsOf(inv, row)|))
  }

  predicate AnyPresent(row: Row) {
    exists d :: d in row.destinations && d.present
  }

  // ---------------------------------------------------------------- what the check leaves behind

  // Below, relationship k is the k-th relationship of the row's source volume.

  /** It leads to a volume that can be listed, and the listing was read and holds the snapshot. */
  ghost predicate Shows(inv: Inventory, row: Row, listings: nat -> Listing, k: nat)
    requires k < |MirrorsOf(inv, row)|
  {
    && TargetOf(inv, MirrorsOf(inv, row)[k]).Listable? && listings(k).Some?
    && row.snapshotName.value in listings(k).value
  }

  /** The same, but the listing lacks the snapshot. */
  ghost predicate Lacks(inv: Inventory, row: Row, listings: nat -> Listing, k: nat)
    requires k < |MirrorsOf(inv, row)|
  {
    && TargetOf(inv, MirrorsOf(inv, row)[k]).Listable? && listings(k).Some?
    && row.snapshotName.value !in listings(k).value
  }

  /** The destination row is for the target's SVM and volume. */
  ghost predicate IsFor(d: Destination, t: Target) {
    !t.NoPath? && d.svm == t.svm && d.volume == t.volume
  }

  /** Destination i is the last known row for the relationship's SVM and volume. */
  ghost predicate LeadsTo(inv: Inventory, row: Row, k: nat, i: nat)
    requires k < |MirrorsOf(inv, row)|
  {
    && i < |row.destinations| && IsFor(row.destinations[i], TargetOf(inv, MirrorsOf(inv, row)[k]))
    && forall j :: i < j < |row.destinations| ==> !IsFor(row.destinations[j], TargetOf(inv, MirrorsOf(inv, row)[k]))
  }

  /** Relationship k leads to a destination that was not known before the check. */
  ghost predicate NamesNew(inv: Inventory, row: Row, k: nat)
    requires k < |MirrorsOf(inv, row)|
  {
    && !TargetOf(inv, MirrorsOf(inv, row)[k]).NoPath?
    && forall i :: 0 <= i < |row.destinations| ==> !IsFor(row.destinations[i], TargetOf(inv, MirrorsOf(inv, row)[k]))
  }

  lemma {:induction false} ExistingIsLast(dests: seq<Destination>, key: DestinationKey, i: nat)
    ensures key in ExistingByKey(dests) && ExistingByKey(dests)[key] == i
       <==> && i < |dests| && (dests[i].svm, dests[i].volume) == key
            && forall j :: i < j < |dests| ==> (dests[j].svm, dests[j].volume) != key
  {
    if dests != [] {
      var last := |dests| - 1;
      var front, lastKey := dests[..last], (dests[last].svm, dests[last].volume);
      ExistingIsLast(front, key, i);
      assert ExistingByKey(dests) == ExistingByKey(front)[lastKey := last];
      if lastKey != key {
        assert forall j :: 0 <= j < last ==> front[j] == dests[j];
      }
    }
  }

  lemma {:induction false} ExistingComplete(dests: seq<Destination>, i: nat)
    requires i < |dests|
    ensures (dests[i].svm, dests[i].volume) in ExistingByKey(dests)
  {
    var last := |dests| - 1;
    if i < last { ExistingComplete(dests[..last], i); }
  }

  lemma {:induction false} KnownOrNew(inv: Inventory, row: Row, k: nat)
    requires k < |MirrorsOf(inv, row)| && !TargetOf(inv, MirrorsOf(inv, row)[k]).NoPath?
    ensures var key, existing := KeyOf(TargetOf(inv, MirrorsOf(inv, row)[k])), ExistingByKey(row.destinations);
            && (NamesNew(inv, row, k) <==> key !in existing)
            && forall i: nat :: LeadsTo(inv, row, k, i) <==> key in existing && existing[key] == i
  {
    var t, existing := TargetOf(inv, MirrorsOf(inv, row)[k]), ExistingByKey(row.destinations);
    forall i: nat ensures LeadsTo(inv, row, k, i) <==> KeyOf(t) in existing && existing[KeyOf(t)] == i {
      ExistingIsLast(row.destinations, KeyOf(t), i);
    }
    if !NamesNew(inv, row, k) {
      var i :| 0 <= i < |row.destinations| && IsFor(row.destinations[i], t);
      ExistingComplete(row.destinations, i);
    }
  }

  /** The check of relationship k says whether destination i has the snapshot. */
  ghost predicate Speaks(inv: Inventory, row: Row, listings: nat -> Listing, k: nat, i: nat)
    requires k < |MirrorsOf(inv, row)|
  {
    LeadsTo(inv, row, k, i) && (Shows(inv, row, listings, k) || Lacks(inv, row, listings, k))
  }

  /** Of the first n relationships, k is the last to say something about destination i. */
  ghost predicate LastWord(inv: Inventory, row: Row, listings: nat -> Listing, n: nat, k: nat, i: nat)
    requires n <= |MirrorsOf(inv, row)|
  {
    k < n && Speaks(inv, row, listings, k, i) && forall j :: k < j < n ==> !Speaks(inv, row, listings, j, i)
  }

  /** The last listing read for destination i has the snapshot; or none was read, and
      it was present before. */
  ghost predicate EndsPresent(inv: Inventory, row: Row, listings: nat -> Listing, n: nat, i: nat)
    requires n <= |MirrorsOf(inv, row)| && i < |row.destinations|
  {
    || (exists k :: LastWord(inv, row, listings, n, k, i) && Shows(inv, row, listings, k))
    || (row.destinations[i].present && forall k :: 0 <= k < n ==> !Speaks(inv, row, listings, k, i))
  }

  lemma {:induction false} EndsPresentNext(inv: Inventory, row: Row, listings: nat -> Listing, n: nat, i: nat)
    requires 0 < n <= |MirrorsOf(inv, row)| && i < |row.destinations|
    ensures EndsPresent(inv, row, listings, n, i)
       <==> if Speaks(inv, row, listings, n - 1, i) then Shows(inv, row, listings, n - 1)
            else EndsPresent(inv, row, listings, n - 1, i)
  {
    if Speaks(inv, row, listings, n - 1, i) {
      assert LastWord(inv, row, listings, n, n - 1, i);
    } else {
      assert forall k :: LastWord(inv, row, listings, n, k, i) <==> LastWord(inv, row, listings, n - 1, k, i);
    }
  }

  lemma {:induction false} KnownAfterOne(dests: seq<Destination>, existing: map<DestinationKey, nat>, m: Mirror,
                                         t: Target, listing: Listing, name: string, now: int, i: nat)
    requires (forall key :: key in existing ==> existing[key] < |dests|) && i < |dests|
    ensures CheckedOne(dests, existing, m, t, listing, name, now)[i].present
         == if t.Listable? && listing.Some? && KeyOf(t) in existing && existing[KeyOf(t)] == i
            then name in listing.value
            else dests[i].present
  {
  }

  lemma {:induction false} KnownAfterNext(inv: Inventory, row: Row, listings: nat -> Listing, now: int, k: nat, i: nat)
    requires k < |MirrorsOf(inv, row)| && i < |row.destinations|
    ensures CheckedUpTo(inv, row, listings, now, k + 1)[i].present
         == if Speaks(inv, row, listings, k, i) then Shows(inv, row, listings, k)
            else CheckedUpTo(inv, row, listings, now, k)[i].present
  {
    var m := MirrorsOf(inv, row)[k];
    if !TargetOf(inv, m).NoPath? { KnownOrNew(inv, row, k); }
    KnownAfterOne(CheckedUpTo(inv, row, listings, now, k), ExistingByKey(row.destinations), m, TargetOf(inv, m),
                  listings(k), row.snapshotName.value, now, i);
  }

  /** A known destination ends as the last listing read for it says, and as it was if
      none was read. */
  lemma {:induction false} KnownDestinationsAfter(inv: Inventory, row: Row, listings: nat -> Listing, now: int, n: nat,
                                                  i: nat)
    requires n <= |MirrorsOf(inv, row)| && i < |row.destinations|
    ensures CheckedUpTo(inv, row, listings, now, n)[i].present <==> EndsPresent(inv, row, listings, n, i)
  {
    if n > 0 {
      var k := n - 1;
      KnownDestinationsAfter(inv, row, listings, now, k, i);
      KnownAfterNext(inv, row, listings, now, k, i);
      EndsPresentNext(inv, row, listings, n, i);
    }
  }

  /** Some destination from `known` on is present. */
  ghost predicate PresentFrom(dests: seq<Destination>, known: nat) {
    exists i :: known <= i < |dests| && dests[i].present
  }

  lemma {:induction false} PresentFromOne(dests: seq<Destination>, known: nat, existing: map<DestinationKey, nat>,
                                          m: Mirror, t: Target, listing: Listing, name: string, now: int)
    requires known <= |dests| && forall key :: key in existing ==> existing[key] < known
    ensures PresentFrom(CheckedOne(dests, existing, m, t, listing, name, now), known)
       <==> || PresentFrom(dests, known)
            || (t.Listable? && KeyOf(t) !in existing && listing.Some? && name in listing.value)
  {
    var after := CheckedOne(dests, existing, m, t, listing, name, now);
    assert forall i :: known <= i < |dests| ==> after[i] == dests[i];
    if i :| known <= i < |dests| && dests[i].present { assert after[i].present; }
    if t.Listable? && KeyOf(t) !in existing && listing.Some? && name in listing.value { assert after[|dests|].present; }
  }

  lemma {:induction false} NextFindsNew(inv: Inventory, row: Row, listings: nat -> Listing, now: int, k: nat)
    requires k < |MirrorsOf(inv, row)|
    ensures PresentFrom(CheckedUpTo(inv, row, listings, now, k + 1), |row.destinations|)
       <==> || PresentFrom(CheckedUpTo(inv, row, listings, now, k), |row.destinations|)
            || (NamesNew(inv, row, k) && Shows(inv, row, listings, k))
  {
    var m := MirrorsOf(inv, row)[k];
    if !TargetOf(inv, m).NoPath? { KnownOrNew(inv, row, k); }
    PresentFromOne(CheckedUpTo(inv, row, listings, now, k), |row.destinations|, ExistingByKey(row.destinations), m,
                   TargetOf(inv, m), listings(k), row.snapshotName.value, now);
  }

  /** One of the first n relationships shows the snapshot on a new destination. */
  ghost predicate SomeFoundNew(inv: Inventory, row: Row, listings: nat -> Listing, n: nat)
    requires n <= |MirrorsOf(inv, row)|
  {
    exists k :: 0 <= k < n && NamesNew(inv, row, k) && Shows(inv, row, listings, k)
  }

  /** A present destination beyond the known ones was found by some relationship. */
  lemma {:induction false} NewDestinationsAfter(inv: Inventory, row: Row, listings: nat -> Listing, now: int, n: nat)
    requires n <= |MirrorsOf(inv, row)|
    ensures PresentFrom(CheckedUpTo(inv, row, listings, now, n), |row.destinations|)
          <==> SomeFoundNew(inv, row, listings, n)
  {
    if n > 0 {
      NewDestinationsAfter(inv, row, listings, now, n - 1);
      NextFindsNew(inv, row, listings, now, n - 1);
    }
  }

  /** Exactly when a copy counts as present after the check: on a known destination
      the last listing read has it, or none was read and it was present before; or a
      relationship shows it on a new destination. */
  lemma {:induction false} AnyPresentAfterCheck(inv: Inventory, row: Row, listings: nat -> Listing, now: int)
    ensures AnyPresent(Checked(inv, row, listings, now))
       <==> || (exists i :: 0 <= i < |row.destinations| && EndsPresent(inv, row, listings, |MirrorsOf(inv, row)|, i))
            || SomeFoundNew(inv, row, listings, |MirrorsOf(inv, row)|)
  {
    var n := |MirrorsOf(inv, row)|;
    var after := CheckedUpTo(inv, row, listings, now, n);
    NewDestinationsAfter(inv, row, listings, now, n);
    forall i | 0 <= i < |row.destinations| ensures after[i].present <==> EndsPresent(inv, row, listings, n, i) {
      KnownDestinationsAfter(inv, row, listings, now, n, i);
    }
    if AnyPresent(Checked(inv, row, listings, now)) {
      var d :| d in after && d.present;
      var i :| 0 <= i < |after| && after[i] == d;
    }
    if i :| 0 <= i < |row.destinations| && EndsPresent(inv, row, listings, n, i) {
      assert after[i] in after && after[i].present;
    }
    if i :| |row.destinations| <= i < |after| && after[i].present {
      assert after[i] in after;
    }
  }

  // ---------------------------------------------------------------- one row per destination

  function DestinationKeyOf(d: Destination): DestinationKey {
    (d.svm, d.volume)
  }

  ghost predicate DistinctDestinations(dests: seq<Destination>) {
    forall i, j :: 0 <= i < j < |dests| ==> DestinationKeyOf(dests[i]) != DestinationKeyOf(dests[j])
  }

  /** No two relationships of the row's source lead to the same destination path. */
  ghost predicate DistinctTargets(inv: Inventory, row: Row) {
    forall j, k :: 0 <= j < k < |MirrorsOf(inv, row)| ==>
      var s, t := TargetOf(inv, MirrorsOf(inv, row)[j]), TargetOf(inv, MirrorsOf(inv, row)[k]);
      !s.NoPath? && !t.NoPath? ==> KeyOf(s) != KeyOf(t)
  }

  lemma {:induction false} OneLeadsToEach(inv: Inventory, row: Row, j: nat, k: nat, i: nat)
    requires DistinctTargets(inv, row) && j < |MirrorsOf(inv, row)| && k < |MirrorsOf(inv, row)| && j != k
    requires LeadsTo(inv, row, k, i)
    ensures !LeadsTo(inv, row, j, i)
  {
  }

  /** With distinct targets, a known destination whose listing was read ends present
      exactly if the listing has the snapshot. */
  lemma {:induction false} VerdictStands(inv: Inventory, row: Row, listings: nat -> Listing, now: int, k: nat, i: nat)
    requires DistinctTargets(inv, row) && k < |MirrorsOf(inv, row)| && LeadsTo(inv, row, k, i)
    requires TargetOf(inv, MirrorsOf(inv, row)[k]).Listable? && listings(k).Some?
    ensures Checked(inv, row, listings, now).destinations[i].present <==> row.snapshotName.value in listings(k).value
  {
    var n := |MirrorsOf(inv, row)|;
    KnownDestinationsAfter(inv, row, listings, now, n, i);
    forall j | 0 <= j < n && j != k ensures !LeadsTo(inv, row, j, i) { OneLeadsToEach(inv, row, j, k, i); }
    assert Speaks(inv, row, listings, k, i);
    assert LastWord(inv, row, listings, n, k, i);
  }

  /** A copy that the listing of some relationship shows is never overlooked. */
  lemma {:induction false} ListedCopyIsPresent(inv: Inventory, row: Row, listings: nat -> Listing, now: int, k: nat)
    requires DistinctTargets(inv, row) && k < |MirrorsOf(inv, row)|
    requires TargetOf(inv, MirrorsOf(inv, row)[k]).Listable? && listings(k).Some?
    requires row.snapshotName.value in listings(k).value
    ensures AnyPresent(Checked(inv, row, listings, now))
  {
    KnownOrNew(inv, row, k);
    if NamesNew(inv, row, k) {
      AnyPresentAfterCheck(inv, row, listings, now);
      assert Shows(inv, row, listings, k);
    } else {
      var i := ExistingByKey(row.destinations)[KeyOf(TargetOf(inv, MirrorsOf(inv, row)[k]))];
      VerdictStands(inv, row, listings, now, k, i);
      var after := Checked(inv, row, listings, now).destinations;
      assert after[i] in after;
    }
  }

  // ---------------------------------------------------------------- what a destination row records

  /** The row of the relationship: which it is and where it leads; the system and the
      volume as far as they were found; presence and time only if a listing was read. */
  ghost predicate Records(d: Destination, was: Destination, m: Mirror, t: Target, listing: Listing, name: string,
                          now: int)
  {
    && IsFor(d, t) && d.relationship == m.uuid && d.clusterName == m.destinationCluster
    && d.clusterId == (if t.Listable? || t.Undiscovered? then Some(t.clusterId) else was.clusterId)
    && d.volumeUuid == (if t.Listable? then Some(t.volumeUuid) else was.volumeUuid)
    && (t.Listable? && listing.Some? ==> d.present == (name in listing.value) && d.checkedAt == now)
    && (!t.Listable? || listing.None? ==> d.present == was.present && d.checkedAt == was.checkedAt)
  }

  lemma {:induction false} NextLeavesRow(inv: Inventory, row: Row, listings: nat -> Listing, now: int, n: nat, i: nat)
    requires n < |MirrorsOf(inv, row)| && i < |CheckedUpTo(inv, row, listings, now, n)| && !LeadsTo(inv, row, n, i)
    ensures CheckedUpTo(inv, row, listings, now, n + 1)[i] == CheckedUpTo(inv, row, listings, now, n)[i]
  {
    if !TargetOf(inv, MirrorsOf(inv, row)[n]).NoPath? { KnownOrNew(inv, row, n); }
  }

  lemma {:induction false} RowStays(inv: Inventory, row: Row, listings: nat -> Listing, now: int, m: nat, n: nat,
                                    i: nat)
    requires m <= n <= |MirrorsOf(inv, row)| && i < |CheckedUpTo(inv, row, listings, now, m)|
    requires forall j :: m <= j < n ==> !LeadsTo(inv, row, j, i)
    ensures i < |CheckedUpTo(inv, row, listings, now, n)|
    ensures CheckedUpTo(inv, row, listings, now, n)[i] == CheckedUpTo(inv, row, listings, now, m)[i]
  {
    if m < n {
      var last := n - 1;
      RowStays(inv, row, listings, now, m, last, i);
      NextLeavesRow(inv, row, listings, now, last, i);
    }
  }

  lemma {:induction false} NewlyRecorded(inv: Inventory, row: Row, listings: nat -> Listing, now: int, k: nat)
    returns (i: nat, was: Destination)
    requires DistinctTargets(inv, row) && k < |MirrorsOf(inv, row)| && !TargetOf(inv, MirrorsOf(inv, row)[k]).NoPath?
    ensures i < |CheckedUpTo(inv, row, listings, now, k + 1)|
    ensures if NamesNew(inv, row, k) then |row.destinations| <= i && !was.present
            else LeadsTo(inv, row, k, i) && was == row.destinations[i]
    ensures Records(CheckedUpTo(inv, row, listings, now, k + 1)[i], was, MirrorsOf(inv, row)[k],
                    TargetOf(inv, MirrorsOf(inv, row)[k]), listings(k), row.snapshotName.value, now)
  {
    var m, before := MirrorsOf(inv, row)[k], CheckedUpTo(inv, row, listings, now, k);
    var t, existing := TargetOf(inv, m), ExistingByKey(row.destinations);
    KnownOrNew(inv, row, k);
    if NamesNew(inv, row, k) {
      i, was := |before|, NewDestination(KeyOf(t), now);
    } else {
      i := existing[KeyOf(t)];
      was := row.destinations[i];
      forall j | 0 <= j < k ensures !LeadsTo(inv, row, j, i) { OneLeadsToEach(inv, row, j, k, i); }
      RowStays(inv, row, listings, now, 0, k, i);
    }
    OneRecorded(before, existing, m, t, listings(k), row.snapshotName.value, now, i, was);
  }

  lemma {:induction false} OneRecorded(before: seq<Destination>, existing: map<DestinationKey, nat>, m: Mirror,
                                       t: Target, listing: Listing, name: string, now: int, i: nat, was: Destination)
    requires (forall key :: key in existing ==> existing[key] < |before|) && !t.NoPath?
    requires if KeyOf(t) in existing then i == existing[KeyOf(t)] && before[i] == was && IsFor(was, t)
             else i == |before| && was == NewDestination(KeyOf(t), now)
    ensures i < |CheckedOne(before, existing, m, t, listing, name, now)|
    ensures Records(CheckedOne(before, existing, m, t, listing, name, now)[i], was, m, t, listing, name, now)
  {
  }

  /** With distinct targets, every relationship with a usable path leaves a row that
      records it: the known one of its destination, or a new one that starts absent. */
  lemma {:induction false} EveryRelationshipIsRecorded(inv: Inventory, row: Row, listings: nat -> Listing, now: int,
                                                       k: nat) returns (i: nat, was: Destination)
    requires DistinctTargets(inv, row) && k < |MirrorsOf(inv, row)| && !TargetOf(inv, MirrorsOf(inv, row)[k]).NoPath?
    ensures i < |Checked(inv, row, listings, now).destinations|
    ensures if NamesNew(inv, row, k) then |row.destinations| <= i && !was.present
            else LeadsTo(inv, row, k, i) && was == row.destinations[i]
    ensures Records(Checked(inv, row, listings, now).destinations[i], was, MirrorsOf(inv, row)[k],
                    TargetOf(inv, MirrorsOf(inv, row)[k]), listings(k), row.snapshotName.value, now)
  {
    var n := |MirrorsOf(inv, row)|;
    i, was := NewlyRecorded(inv, row, listings, now, k);
    forall j | k + 1 <= j < n ensures !LeadsTo(inv, row, j, i) {
      if !NamesNew(inv, row, k) { OneLeadsToEach(inv, row, j, k, i); }
    }
    RowStays(inv, row, listings, now, k + 1, n, i);
  }

  ghost function NewKey(inv: Inventory, row: Row, k: nat): DestinationKey
    requires k < |MirrorsOf(inv, row)| && NamesNew(inv, row, k)
  {
    (TargetOf(inv, MirrorsOf(inv, row)[k]).svm, TargetOf(inv, MirrorsOf(inv, row)[k]).volume)
  }

  /** No two of the first n relationships lead to the same unknown destination. */
  ghost predicate NewNamedOnce(inv: Inventory, row: Row, n: nat)
    requires n <= |MirrorsOf(inv, row)|
  {
    forall j, k :: 0 <= j < k < n && NamesNew(inv, row, j) && NamesNew(inv, row, k) ==>
        NewKey(inv, row, j) != NewKey(inv, row, k)
  }

  /** Relationship k leaves the keys of the rows as they are, and appends one for an
      unknown destination only. */
  lemma {:induction false} KeysAfterNext(inv: Inventory, row: Row, listings: nat -> Listing, now: int, k: nat, i: nat)
    requires k < |MirrorsOf(inv, row)|
    ensures
      var before, after := CheckedUpTo(inv, row, listings, now, k), CheckedUpTo(inv, row, listings, now, k + 1);
      && |after| == |before| + (if NamesNew(inv, row, k) then 1 else 0)
      && (i < |before| ==> DestinationKeyOf(after[i]) == DestinationKeyOf(before[i]))
      && (NamesNew(inv, row, k) ==> DestinationKeyOf(after[|before|]) == NewKey(inv, row, k))
  {
    if !TargetOf(inv, MirrorsOf(inv, row)[k]).NoPath? { KnownOrNew(inv, row, k); }
  }

  lemma {:induction false} KnownKeepTheirKeys(inv: Inventory, row: Row, listings: nat -> Listing, now: int, n: nat,
                                              i: nat)
    requires n <= |MirrorsOf(inv, row)| && i < |row.destinations|
    ensures DestinationKeyOf(CheckedUpTo(inv, row, listings, now, n)[i]) == DestinationKeyOf(row.destinations[i])
  {
    if n > 0 {
      var last := n - 1;
      KnownKeepTheirKeys(inv, row, listings, now, last, i);
      KeysAfterNext(inv, row, listings, now, last, i);
    }
  }

  /** Every row beyond the known ones was appended by one of the relationships. */
  lemma {:induction false} AdderOf(inv: Inventory, row: Row, listings: nat -> Listing, now: int, n: nat, i: nat)
      returns (k: nat)
    requires n <= |MirrorsOf(inv, row)| && |row.destinations| <= i < |CheckedUpTo(inv, row, listings, now, n)|
    ensures k < n && NamesNew(inv, row, k)
    ensures DestinationKeyOf(CheckedUpTo(inv, row, listings, now, n)[i]) == NewKey(inv, row, k)
  {
    var last := n - 1;
    KeysAfterNext(inv, row, listings, now, last, i);
    if i < |CheckedUpTo(inv, row, listings, now, last)| {
      k := AdderOf(inv, row, listings, now, last, i);
    } else {
      k := last;
    }
  }

  /** Every relationship to an unknown destination leaves a row for it. */
  lemma {:induction false} AddedRowOf(inv: Inventory, row: Row, listings: nat -> Listing, now: int, n: nat, k: nat)
      returns (i: nat)
    requires k < n <= |MirrorsOf(inv, row)| && NamesNew(inv, row, k)
    ensures |row.destinations| <= i < |CheckedUpTo(inv, row, listings, now, n)|
    ensures DestinationKeyOf(CheckedUpTo(inv, row, listings, now, n)[i]) == NewKey(inv, row, k)
  {
    var last := n - 1;
    if k < last {
      i := AddedRowOf(inv, row, listings, now, last, k);
    } else {
      i := |CheckedUpTo(inv, row, listings, now, last)|;
    }
    KeysAfterNext(inv, row, listings, now, last, i);
  }

  /** One relationship keeps the rows distinct exactly if it names a known
      destination, none at all, or one that has no row yet. */
  lemma {:induction false} CheckedOneDistinct(dests: seq<Destination>, existing: map<DestinationKey, nat>, m: Mirror,
                                              t: Target, listing: Listing, name: string, now: int)
    requires forall key :: key in existing ==> existing[key] < |dests|
    ensures DistinctDestinations(CheckedOne(dests, existing, m, t, listing, name, now))
       <==> && DistinctDestinations(dests)
            && (!t.NoPath? && KeyOf(t) !in existing ==>
                  forall i :: 0 <= i < |dests| ==> DestinationKeyOf(dests[i]) != KeyOf(t))
  {
    var after := CheckedOne(dests, existing, m, t, listing, name, now);
    assert forall i :: 0 <= i < |dests| ==> DestinationKeyOf(after[i]) == DestinationKeyOf(dests[i]);
    if DistinctDestinations(after) {
      forall i, j | 0 <= i < j < |dests| ensures DestinationKeyOf(dests[i]) != DestinationKeyOf(dests[j]) {
        assert DestinationKeyOf(after[i]) != DestinationKeyOf(after[j]);
      }
      if !t.NoPath? && KeyOf(t) !in existing {
        forall i | 0 <= i < |dests| ensures DestinationKeyOf(dests[i]) != KeyOf(t) {
          assert DestinationKeyOf(after[i]) != DestinationKeyOf(after[|dests|]);
        }
      }
    }
  }

  /** The rows before relationship n hold its unknown destination exactly if an
      earlier relationship leads there too. */
  lemma {:induction false} NewRowIffNamedBefore(inv: Inventory, row: Row, listings: nat -> Listing, now: int, n: nat)
    requires n < |MirrorsOf(inv, row)| && NamesNew(inv, row, n)
    ensures (forall i :: 0 <= i < |CheckedUpTo(inv, row, listings, now, n)|
                   ==> DestinationKeyOf(CheckedUpTo(inv, row, listings, now, n)[i]) != NewKey(inv, row, n))
       <==> (forall j :: 0 <= j < n && NamesNew(inv, row, j) ==> NewKey(inv, row, j) != NewKey(inv, row, n))
  {
    var before := CheckedUpTo(inv, row, listings, now, n);
    if i :| 0 <= i < |before| && DestinationKeyOf(before[i]) == NewKey(inv, row, n) {
      if i < |row.destinations| {
        KnownKeepTheirKeys(inv, row, listings, now, n, i);
        assert false;
      } else {
        var j := AdderOf(inv, row, listings, now, n, i);
      }
    }
    if j :| 0 <= j < n && NamesNew(inv, row, j) && NewKey(inv, row, j) == NewKey(inv, row, n) {
      var i := AddedRowOf(inv, row, listings, now, n, j);
    }
  }

  lemma {:induction false} DistinctAfterNext(inv: Inventory, row: Row, listings: nat -> Listing, now: int, k: nat)
    requires k < |MirrorsOf(inv, row)|
    ensures DistinctDestinations(CheckedUpTo(inv, row, listings, now, k + 1))
       <==> && DistinctDestinations(CheckedUpTo(inv, row, listings, now, k))
            && (NamesNew(inv, row, k) ==>
                  forall i :: 0 <= i < |CheckedUpTo(inv, row, listings, now, k)| ==>
                      DestinationKeyOf(CheckedUpTo(inv, row, listings, now, k)[i]) != NewKey(inv, row, k))
  {
    var before, m := CheckedUpTo(inv, row, listings, now, k), MirrorsOf(inv, row)[k];
    CheckedOneDistinct(
      before, ExistingByKey(row.destinations), m, TargetOf(inv, m), listings(k), row.snapshotName.value, now);
    if !TargetOf(inv, m).NoPath? { KnownOrNew(inv, row, k); }
  }

  lemma {:induction false} RowsStayDistinctUpTo(inv: Inventory, row: Row, listings: nat -> Listing, now: int, n: nat)
    requires n <= |MirrorsOf(inv, row)|
    ensures DistinctDestinations(CheckedUpTo(inv, row, listings, now, n))
       <==> DistinctDestinations(row.destinations) && NewNamedOnce(inv, row, n)
  {
    if n > 0 {
      var k := n - 1;
      RowsStayDistinctUpTo(inv, row, listings, now, k);
      DistinctAfterNext(inv, row, listings, now, k);
      if NamesNew(inv, row, k) { NewRowIffNamedBefore(inv, row, listings, now, k); }
      NewNamedOnceStep(inv, row, n);
    }
  }

  lemma {:induction false} NewNamedOnceStep(inv: Inventory, row: Row, n: nat)
    requires 0 < n <= |MirrorsOf(inv, row)|
    ensures NewNamedOnce(inv, row, n)
       <==> && NewNamedOnce(inv, row, n - 1)
            && (NamesNew(inv, row, n - 1) ==>
                  forall j :: 0 <= j < n - 1 && NamesNew(inv, row, j) ==>
                      NewKey(inv, row, j) != NewKey(inv, row, n - 1))
  {
  }

  /** A check leaves one row per destination exactly if there was one before and
      no two relationships of the source lead to the same unknown destination:
      the lookup is built before the loop and not extended inside it. */
  lemma {:induction false} RowsStayDistinctIff(inv: Inventory, row: Row, listings: nat -> Listing, now: int)
    ensures DistinctDestinations(Checked(inv, row, listings, now).destinations)
       <==> && DistinctDestinations(row.destinations)
            && forall j, k :: 0 <= j < k < |MirrorsOf(inv, row)| && NamesNew(inv, row, j) && NamesNew(inv, row, k)
                           ==> NewKey(inv, row, j) != NewKey(inv, row, k)
  {
    RowsStayDistinctUpTo(inv, row, listings, now, |MirrorsOf(inv, row)|);
  }

  /** A row without destinations whose source has two relationships with one
      destination path: the first check already writes two rows for it. */
  lemma {:induction false} SharedTargetDoublesRow(inv: Inventory, row: Row, listings: nat -> Listing, now: int, j: nat,
                                                  k: nat)
    requires row.destinations == [] && j < k < |MirrorsOf(inv, row)|
    requires
      var s, t := TargetOf(inv, MirrorsOf(inv, row)[j]), TargetOf(inv, MirrorsOf(inv, row)[k]);
      !s.NoPath? && !t.NoPath? && KeyOf(s) == KeyOf(t)
    ensures !DistinctDestinations(Checked(inv, row, listings, now).destinations)
  {
    RowsStayDistinctIff(inv, row, listings, now);
    assert NamesNew(inv, row, j) && NamesNew(inv, row, k);
  }
}
