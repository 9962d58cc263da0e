/** Where a mirror relationship leads: its path, the storage system that carries the
    name of the destination, and the discovered volume there. */
module MirrorTargets {
  import opened Wrappers
  import opened Texts
  import opened SnapshotCatalogue

  // ---------------------------------------------------------------- the storage system

  /** ONTAP calls the system so, or the application does, in any case. */
  ghost predicate CalledLike(c: Storage, name: string) {
    || (c.ontapName.Some? && c.ontapName.value != "" && Lower(c.ontapName.value) == Lower(name))
    || (c.name != "" && Lower(c.name) == Lower(name))
  }

  /** System i is the last one registered with the name. */
  ghost predicate IsNamed(clusters: seq<Storage>, name: string, i: nat) {
    && i < |clusters| && CalledLike(clusters[i], name)
    && forall j :: i < j < |clusters| ==> !CalledLike(clusters[j], name)
  }

  ghost predicate HasId(clusters: seq<Storage>, id: string, i: nat) {
    i < |clusters| && clusters[i].id == id && forall j :: i < j < |clusters| ==> clusters[j].id != id
  }

  /** The relationship names its destination's system. */
  ghost predicate NamesSystem(inv: Inventory, m: Mirror) {
    && m.destinationCluster.Some? && m.destinationCluster.value != ""
    && exists i :: 0 <= i < |inv.clusters| && CalledLike(inv.clusters[i], m.destinationCluster.value)
  }

  /** The system with the name of the destination, or else the one that reported the
      relationship. */
  ghost predicate IsSystemOf(inv: Inventory, m: Mirror, i: nat) {
    if NamesSystem(inv, m) then IsNamed(inv.clusters, m.destinationCluster.value, i)
    else HasId(inv.clusters, m.clusterId, i)
  }

  lemma {:induction false} ByNameIsLast(clusters: seq<Storage>, name: string)
    ensures ClusterByName(clusters, Lower(name)).Some?
       <==> exists i :: 0 <= i < |clusters| && CalledLike(clusters[i], name)
    ensures ClusterByName(clusters, Lower(name)).Some? ==>
              exists i: nat :: IsNamed(clusters, name, i) && ClusterByName(clusters, Lower(name)).value == clusters[i]
  {
    if clusters != [] {
      var n := |clusters| - 1;
      var front := clusters[..n];
      ByNameIsLast(front, name);
      if CalledLike(clusters[n], name) {
        assert IsNamed(clusters, name, n);
      } else if ClusterByName(front, Lower(name)).Some? {
        var i: nat :| IsNamed(front, name, i) && ClusterByName(front, Lower(name)).value == front[i];
        assert IsNamed(clusters, name, i);
      }
    }
  }

  lemma {:induction false} ByIdIsLast(clusters: seq<Storage>, id: string)
    ensures ClusterById(clusters, id).Some? <==> exists i :: 0 <= i < |clusters| && clusters[i].id == id
    ensures ClusterById(clusters, id).Some? ==>
              exists i: nat :: HasId(clusters, id, i) && ClusterById(clusters, id).value == clusters[i]
  {
    if clusters != [] {
      var n := |clusters| - 1;
      var front := clusters[..n];
      ByIdIsLast(front, id);
      if clusters[n].id == id {
        assert HasId(clusters, id, n);
      } else if ClusterById(front, id).Some? {
        var i: nat :| HasId(front, id, i) && ClusterById(front, id).value == front[i];
        assert HasId(clusters, id, i);
      }
    }
  }

  lemma {:induction false} OneNamed(clusters: seq<Storage>, name: string, i: nat, j: nat)
    requires IsNamed(clusters, name, i) && IsNamed(clusters, name, j)
    ensures i == j
  {
  }

  lemma {:induction false} OneWithId(clusters: seq<Storage>, id: string, i: nat, j: nat)
    requires HasId(clusters, id, i) && HasId(clusters, id, j)
    ensures i == j
  {
  }

  /** The system the code looks up is the one the names say. */
  lemma {:induction false} SystemIsLookedUp(inv: Inventory, m: Mirror, c: Storage)
    ensures DestinationCluster(inv, m) == Some(c) <==> exists i: nat :: IsSystemOf(inv, m, i) && inv.clusters[i] == c
  {
    if NamesSystem(inv, m) {
      NamedSystemIsLookedUp(inv, m, c);
    } else {
      if m.destinationCluster.Some? { ByNameIsLast(inv.clusters, m.destinationCluster.value); }
      assert DestinationCluster(inv, m) == ClusterById(inv.clusters, m.clusterId);
      ByIdIsLast(inv.clusters, m.clusterId);
      if i: nat :| HasId(inv.clusters, m.clusterId, i) && inv.clusters[i] == c {
        var j: nat :| HasId(inv.clusters, m.clusterId, j)
                      && ClusterById(inv.clusters, m.clusterId).value == inv.clusters[j];
        OneWithId(inv.clusters, m.clusterId, i, j);
        assert IsSystemOf(inv, m, i);
      }
      if DestinationCluster(inv, m) == Some(c) {
        var j: nat :| HasId(inv.clusters, m.clusterId, j) && c == inv.clusters[j];
        assert IsSystemOf(inv, m, j);
      }
    }
  }

  lemma {:induction false} NamedSystemIsLookedUp(inv: Inventory, m: Mirror, c: Storage)
    requires NamesSystem(inv, m)
    ensures DestinationCluster(inv, m) == Some(c) <==> exists i: nat :: IsSystemOf(inv, m, i) && inv.clusters[i] == c
  {
    var name := m.destinationCluster.value;
    ByNameIsLast(inv.clusters, name);
    var i: nat :| IsNamed(inv.clusters, name, i) && ClusterByName(inv.clusters, Lower(name)).value == inv.clusters[i];
    assert IsSystemOf(inv, m, i);
    forall j: nat | IsSystemOf(inv, m, j) ensures j == i { OneNamed(inv.clusters, name, i, j); }
  }

  // ---------------------------------------------------------------- the volume

  ghost predicate IsVolume(v: StorageVolume, clusterId: string, svm: string, name: string) {
    v.clusterId == clusterId && v.svm == Some(svm) && v.name == name
  }

  /** Volume i is the first one discovered under system, SVM and name. */
  ghost predicate IsFirstVolume(volumes: seq<StorageVolume>, clusterId: string, svm: string, name: string, i: nat) {
    && i < |volumes| && IsVolume(volumes[i], clusterId, svm, name)
    && forall j :: 0 <= j < i ==> !IsVolume(volumes[j], clusterId, svm, name)
  }

  lemma {:induction false} VolumeIsFirst(volumes: seq<StorageVolume>, clusterId: string, svm: string, name: string,
                                         v: StorageVolume)
    ensures FindVolume(volumes, clusterId, svm, name) == Some(v)
       <==> exists i: nat :: IsFirstVolume(volumes, clusterId, svm, name, i) && volumes[i] == v
  {
    if volumes != [] {
      var rest := volumes[1..];
      VolumeIsFirst(rest, clusterId, svm, name, v);
      if IsVolume(volumes[0], clusterId, svm, name) {
        assert IsFirstVolume(volumes, clusterId, svm, name, 0);
      } else {
        if i: nat :| IsFirstVolume(rest, clusterId, svm, name, i) && rest[i] == v {
          assert IsFirstVolume(volumes, clusterId, svm, name, i + 1);
        }
        if i: nat :| IsFirstVolume(volumes, clusterId, svm, name, i) && volumes[i] == v {
          assert forall j :: 0 <= j < i - 1 ==> rest[j] == volumes[j + 1];
          assert IsFirstVolume(rest, clusterId, svm, name, i - 1);
        }
      }
    }
  }

  // ---------------------------------------------------------------- the target

  lemma {:induction false} PathSplits(path: string, svm: string, volume: string)
    ensures path == svm + ":" + volume && ':' !in svm
       <==> && IndexOf(path, ':') < |path| && path[..IndexOf(path, ':')] == svm
            && path[IndexOf(path, ':') + 1..] == volume
  {
    var i := IndexOf(path, ':');
    if path == svm + ":" + volume && ':' !in svm {
      assert path[|svm|] == ':' && forall k :: 0 <= k < |svm| ==> path[k] == svm[k];
      assert i == |svm|;
    }
  }

  /** A relationship has a target exactly if its path has a colon, and the target's SVM
      and volume are what stands before and behind the first one. */
  lemma {:induction false} TargetIsNamedByPath(inv: Inventory, m: Mirror, svm: string, volume: string)
    ensures !TargetOf(inv, m).NoPath? && TargetOf(inv, m).svm == svm && TargetOf(inv, m).volume == volume
       <==> m.destinationPath == Some(svm + ":" + volume) && ':' !in svm
  {
    if m.destinationPath.Some? { PathSplits(m.destinationPath.value, svm, volume); }
  }

  ghost predicate IsListable(inv: Inventory, m: Mirror, svm: string, volume: string, clusterId: string,
                             volumeUuid: string)
  {
    exists i: nat, j: nat :: && IsSystemOf(inv, m, i) && inv.clusters[i].id == clusterId
                   && IsFirstVolume(inv.volumes, clusterId, svm, volume, j)
                   && inv.volumes[j].uuid == Some(volumeUuid) && volumeUuid != ""
  }

  /** The listing is taken from a volume exactly if the path names its SVM and name, the
      destination's system is registered, and the first volume discovered under these
      there has this identifier. */
  lemma {:induction false} ListableIffDiscovered(inv: Inventory, m: Mirror, svm: string, volume: string,
                                                 clusterId: string, volumeUuid: string)
    ensures TargetOf(inv, m) == Listable(svm, volume, clusterId, volumeUuid)
       <==> && m.destinationPath == Some(svm + ":" + volume) && ':' !in svm
            && IsListable(inv, m, svm, volume, clusterId, volumeUuid)
  {
    TargetIsNamedByPath(inv, m, svm, volume);
    if m.destinationPath == Some(svm + ":" + volume) && ':' !in svm {
      ListableByLookup(inv, m, svm, volume, clusterId, volumeUuid);
      PathSplits(m.destinationPath.value, svm, volume);
    }
  }

  lemma {:induction false} ListableByLookup(inv: Inventory, m: Mirror, svm: string, volume: string, clusterId: string,
                                            volumeUuid: string)
    ensures IsListable(inv, m, svm, volume, clusterId, volumeUuid)
       <==> && DestinationCluster(inv, m).Some? && DestinationCluster(inv, m).value.id == clusterId
            && var v := FindVolume(inv.volumes, clusterId, svm, volume);
               v.Some? && v.value.uuid == Some(volumeUuid) && volumeUuid != ""
  {
    if IsListable(inv, m, svm, volume, clusterId, volumeUuid) {
      var i: nat, j: nat :| && IsSystemOf(inv, m, i) && inv.clusters[i].id == clusterId
                            && IsFirstVolume(inv.volumes, clusterId, svm, volume, j)
                            && inv.volumes[j].uuid == Some(volumeUuid) && volumeUuid != "";
      SystemIsLookedUp(inv, m, inv.clusters[i]);
      VolumeIsFirst(inv.volumes, clusterId, svm, volume, inv.volumes[j]);
    }
    var c, v := DestinationCluster(inv, m), FindVolume(inv.volumes, clusterId, svm, volume);
    if c.Some? && c.value.id == clusterId && v.Some? && v.value.uuid == Some(volumeUuid) && volumeUuid != "" {
      SystemIsLookedUp(inv, m, c.value);
      VolumeIsFirst(inv.volumes, clusterId, svm, volume, v.value);
    }
  }

  // ---------------------------------------------------------------- the relationships of a row

  lemma {:induction false} MirrorsFromSource(mirrors: seq<Mirror>, source: string, m: Mirror)
    ensures multiset(MirrorsFrom(mirrors, source))[m]
         == if m.sourcePath == Some(source) then multiset(mirrors)[m] else 0
  {
    if mirrors != [] {
      var front, last := mirrors[..|mirrors| - 1], mirrors[|mirrors| - 1];
      MirrorsFromSource(front, source, m);
      assert mirrors == front + [last];
      CountAppended(front, last, m);
      CountAppended(MirrorsFrom(front, source), last, m);
    }
  }

  /** A row is checked against exactly the relationships whose source is its SVM and
      volume, each once; against none without these or without a snapshot name. */
  lemma {:induction false} MirrorsLeaveTheVolume(inv: Inventory, row: Row, m: Mirror)
    ensures multiset(MirrorsOf(inv, row))[m]
         == if && row.snapshotName.Some? && row.snapshotName.value != "" && row.svm.Some? && row.svm.value != ""
               && row.volume.Some? && row.volume.value != "" &&
                   m.sourcePath == Some(row.svm.value + ":" + row.volume.value)
            then multiset(inv.mirrors)[m] else 0
  {
    if Locatable(row) { MirrorsFromSource(inv.mirrors, SourcePath(row), m); }
  }
}
