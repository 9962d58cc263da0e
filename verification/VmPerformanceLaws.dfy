/** What aggregation conserves, and what the table of samples holds after any
    sequence of collection runs. */
module VmPerformanceLaws {
  import opened Wrappers
  import opened Texts
  import opened Grouping
  import opened VmPerformance

  // ---------- Filtering ----------

  lemma {:induction false} WhereOfTwo<T>(a: seq<T>, b: seq<T>, p: T -> bool)
    ensures Where(a + b, p) == Where(a, p) + Where(b, p)
  {
    if b == [] {
      assert a + b == a;
    } else {
      var n := |b| - 1;
      assert (a + b)[..|a + b| - 1] == a + b[..n];
      WhereOfTwo(a, b[..n], p);
    }
  }

  lemma {:induction false} InWhere<T>(s: seq<T>, p: T -> bool, x: T)
    ensures x in Where(s, p) <==> x in s && p(x)
  {
    if s != [] {
      assert s == s[..|s| - 1] + [s[|s| - 1]];
      InWhere(s[..|s| - 1], p, x);
    }
  }

  lemma {:induction false} WhereAll<T>(s: seq<T>, p: T -> bool)
    requires forall i :: 0 <= i < |s| ==> p(s[i])
    ensures Where(s, p) == s
  {
    if s != [] {
      assert s == s[..|s| - 1] + [s[|s| - 1]];
      WhereAll(s[..|s| - 1], p);
    }
  }

  lemma {:induction false} WhereNone<T>(s: seq<T>, p: T -> bool)
    requires forall i :: 0 <= i < |s| ==> !p(s[i])
    ensures Where(s, p) == []
  {
    if s != [] { WhereNone(s[..|s| - 1], p); }
  }

  /** Filtering twice is filtering by both. */
  lemma {:induction false} WhereBoth<T>(s: seq<T>, p: T -> bool, q: T -> bool, r: T -> bool)
    requires forall i :: 0 <= i < |s| ==> r(s[i]) == (p(s[i]) && q(s[i]))
    ensures Where(Where(s, p), q) == Where(s, r)
  {
    if s != [] {
      var n := |s| - 1;
      WhereBoth(s[..n], p, q, r);
      assert s == s[..n] + [s[n]];
      WhereOfAppended(s[..n], s[n], p);
      WhereOfAppended(s[..n], s[n], r);
      WhereOfAppended(Where(s[..n], p), s[n], q);
    }
  }

  lemma {:induction false} WhereSplits<T>(s: seq<T>, p: T -> bool, q: T -> bool)
    requires forall i :: 0 <= i < |s| ==> q(s[i]) == !p(s[i])
    ensures multiset(Where(s, p)) + multiset(Where(s, q)) == multiset(s)
  {
    if s != [] {
      var n := |s| - 1;
      WhereSplits(s[..n], p, q);
      assert s == s[..n] + [s[n]];
      assert multiset(s) == multiset(s[..n]) + multiset{s[n]};
      assert p(s[n]) ==> multiset(Where(s, p)) == multiset(Where(s[..n], p)) + multiset{s[n]} &&
                         Where(s, q) == Where(s[..n], q);
      assert !p(s[n]) ==> multiset(Where(s, q)) == multiset(Where(s[..n], q)) + multiset{s[n]} &&
                          Where(s, p) == Where(s[..n], p);
    }
  }

  lemma {:induction false} PickedOfTwo<T, K(!new)>(a: seq<T>, b: seq<T>, key: T -> Option<K>, k: K)
    ensures Picked(a + b, key, k) == Picked(a, key, k) + Picked(b, key, k)
  {
    if b == [] {
      assert a + b == a;
    } else {
      var n := |b| - 1;
      assert (a + b)[..|a + b| - 1] == a + b[..n];
      PickedOfTwo(a, b[..n], key, k);
    }
  }

  /** A filter that passes a whole group leaves the group as it is. */
  lemma {:induction false} PickedOfWhere<T, K(!new)>(s: seq<T>, p: T -> bool, key: T -> Option<K>, k: K, passes: bool)
    requires forall i :: 0 <= i < |s| && key(s[i]) == Some(k) ==> p(s[i]) == passes
    ensures Picked(Where(s, p), key, k) == if passes then Picked(s, key, k) else []
  {
    if s != [] {
      var n := |s| - 1;
      PickedOfWhere(s[..n], p, key, k, passes);
      assert s == s[..n] + [s[n]];
      WhereOfAppended(s[..n], s[n], p);
      PickedOfAppended(s[..n], s[n], key, k);
      PickedOfAppended(Where(s[..n], p), s[n], key, k);
    }
  }

  lemma {:induction false} PickedNone<T, K(!new)>(s: seq<T>, key: T -> Option<K>, k: K)
    requires forall i :: 0 <= i < |s| ==> key(s[i]) != Some(k)
    ensures Picked(s, key, k) == []
  {
    if s != [] { PickedNone(s[..|s| - 1], key, k); }
  }

  // ---------- Aggregation ----------

  function RowIops(r: VmRow): real { r.iops }

  function RowBandwidth(r: VmRow): real { r.bandwidth }

  function RowDisks(r: VmRow): real { r.disks as real }

  function RowWeighted(r: VmRow): real { r.iops * r.latency }

  function One(f: Flow): real { 1.0 }

  /** Every machine and volume with a flow has exactly one row, made of all its
      flows and of no others. */
  lemma {:induction false} OneRowPerOwner(flows: seq<Flow>, folders: map<string, string>, o: Owner)
    ensures
      var rows := Aggregated(flows, folders);
      var items := Picked(flows, OwnerBy(folders), o);
      && (items != [] ==> RowOf(o, items) in rows)
      && (forall i :: 0 <= i < |rows| && Owner(rows[i].vmId, rows[i].csv) == o ==>
          items != [] && rows[i] == RowOf(o, items))
      && (forall i, j | 0 <= i < j < |rows| ::
          Owner(rows[i].vmId, rows[i].csv) == o ==> Owner(rows[j].vmId, rows[j].csv) != o)
  {
    var owners := KeysOf(flows, OwnerBy(folders));
    var rows := Aggregated(flows, folders);
    GroupsAreFilled(flows, OwnerBy(folders));
    KeysAreDistinct(flows, OwnerBy(folders));
    GroupsAreNotEmpty(flows, OwnerBy(folders), o);
    forall i | 0 <= i < |rows|
      ensures Owner(rows[i].vmId, rows[i].csv) == owners[i]
      ensures rows[i] == RowOf(owners[i], Picked(flows, OwnerBy(folders), owners[i]))
    {
      assert owners[i] in owners;
    }
    if o in owners {
      var i :| 0 <= i < |owners| && owners[i] == o;
      assert rows[i] == RowOf(o, Picked(flows, OwnerBy(folders), o));
    }
  }

  /** A quantity of the rows that is the sum of a quantity of their flows. */
  lemma {:induction false} RowTotal(owners: seq<Owner>, rows: seq<VmRow>, flows: seq<Flow>, key: Flow -> Option<Owner>,
                                    ofRow: VmRow -> real, ofFlow: Flow -> real)
    requires |rows| == |owners|
    requires forall i :: 0 <= i < |rows| ==> ofRow(rows[i]) == Total(Picked(flows, key, owners[i]), ofFlow)
    ensures Total(rows, ofRow) == GroupTotal(owners, flows, key, ofFlow)
  {
    if owners != [] {
      var n := |owners| - 1;
      RowTotal(owners[..n], rows[..n], flows, key, ofRow, ofFlow);
    }
  }

  lemma {:induction false} CountOf(items: seq<Flow>)
    ensures Total(items, One) == |items| as real
  {
    if items != [] { CountOf(items[..|items| - 1]); }
  }

  /** What a quantity adds up to over the rows is what it adds up to over the
      flows that belong to somebody. */
  lemma {:induction false} AggregationConserves(flows: seq<Flow>, folders: map<string, string>, ofRow: VmRow -> real,
                                                ofFlow: Flow -> real)
    requires forall o, items: seq<Flow> ::
             items != [] && OfFlows(items, flows) ==> ofRow(RowOf(o, items)) == Total(items, ofFlow)
    ensures Total(Aggregated(flows, folders), ofRow) == Total(Keyed(flows, OwnerBy(folders)), ofFlow)
  {
    var key := OwnerBy(folders);
    var owners, rows := KeysOf(flows, key), Aggregated(flows, folders);
    GroupsAreFilled(flows, key);
    forall i | 0 <= i < |rows| ensures ofRow(rows[i]) == Total(Picked(flows, key, owners[i]), ofFlow) {
      var items := Picked(flows, key, owners[i]);
      assert owners[i] in owners;
      PickedAreOfFlows(flows, key, owners[i]);
      assert rows[i] == RowOf(owners[i], items);
    }
    RowTotal(owners, rows, flows, key, ofRow, ofFlow);
    GroupingConserves(flows, key, ofFlow);
  }

  ghost predicate OfFlows(items: seq<Flow>, flows: seq<Flow>) { forall i :: 0 <= i < |items| ==> items[i] in flows }

  lemma {:induction false} PickedAreOfFlows(flows: seq<Flow>, key: Flow -> Option<Owner>, o: Owner)
    ensures OfFlows(Picked(flows, key, o), flows)
  {
    forall i: nat | i < |Picked(flows, key, o)|
      ensures Picked(flows, key, o)[i] in flows
    {
      PickedHaveKey(flows, key, o, i);
    }
  }

  lemma {:induction false} RatioTimes(a: real, b: real)
    requires b != 0.0
    ensures a / b * b == a && b * (a / b) == a
  {}

  ghost predicate NoNegativeIops(items: seq<Flow>) {
    forall i :: 0 <= i < |items| ==> Iops(items[i]) >= 0.0
  }

  lemma {:induction false} NoNegativeItems(items: seq<Flow>, flows: seq<Flow>)
    requires OfFlows(items, flows) && NoNegativeIops(flows)
    ensures NoNegativeIops(items)
  {
    forall i | 0 <= i < |items| ensures Iops(items[i]) >= 0.0 {
      var j :| 0 <= j < |flows| && flows[j] == items[i];
    }
  }

  lemma {:induction false} ProductSign(a: real, b: real)
    requires a >= 0.0 && b >= 0.0
    ensures a * b >= 0.0
  {}

  lemma {:induction false} IdleFlows(items: seq<Flow>)
    requires NoNegativeIops(items)
    ensures Total(items, Iops) >= 0.0
    ensures Total(items, Iops) == 0.0 ==> Total(items, Weighted) == 0.0
  {
    if items != [] {
      var n := |items| - 1;
      IdleFlows(items[..n]);
      if Total(items, Iops) == 0.0 {
        assert Iops(items[n]) == 0.0;
        assert Weighted(items[n]) == 0.0;
      }
    }
  }

  /** Input and output per second times latency adds up as well, as long as no
      disk reports a negative rate. */
  lemma {:induction false} WeightOfRow(o: Owner, items: seq<Flow>)
    requires items != [] && NoNegativeIops(items)
    ensures RowWeighted(RowOf(o, items)) == Total(items, Weighted)
  {
    IdleFlows(items);
    if Total(items, Iops) > 0.0 {
      RatioTimes(Total(items, Weighted), Total(items, Iops));
    } else {
      assert 0.0 * MaxLatency(items) == 0.0;
    }
  }

  /** IOPS, bandwidth, disks and weighted latency over the rows are those of the
      flows that have an owner; the others are the only ones left out. */
  lemma {:induction false} AggregateConserves(flows: seq<Flow>, folders: map<string, string>)
    ensures
      var rows, used := Aggregated(flows, folders), Keyed(flows, OwnerBy(folders));
      && Total(rows, RowIops) == Total(used, Iops)
      && Total(rows, RowBandwidth) == Total(used, Bandwidth)
      && Total(rows, RowDisks) == |used| as real
      && (NoNegativeIops(flows) ==> Total(rows, RowWeighted) == Total(used, Weighted))
  {
    AggregationConserves(flows, folders, RowIops, Iops);
    AggregationConserves(flows, folders, RowBandwidth, Bandwidth);
    forall o, items: seq<Flow> | items != [] ensures RowDisks(RowOf(o, items)) == Total(items, One) { CountOf(items); }
    AggregationConserves(flows, folders, RowDisks, One);
    CountOf(Keyed(flows, OwnerBy(folders)));
    if NoNegativeIops(flows) {
      forall o, items: seq<Flow> | items != [] && OfFlows(items, flows)
        ensures RowWeighted(RowOf(o, items)) == Total(items, Weighted)
      {
        NoNegativeItems(items, flows);
        WeightOfRow(o, items);
      }
      AggregationConserves(flows, folders, RowWeighted, Weighted);
    }
  }

  ghost predicate LatencyWithin(items: seq<Flow>, lo: real, hi: real) {
    forall i :: 0 <= i < |items| ==> lo <= Latency(items[i]) <= hi
  }

  lemma {:induction false} WeightedFrom(items: seq<Flow>, lo: real)
    requires NoNegativeIops(items) && forall i :: 0 <= i < |items| ==> lo <= Latency(items[i])
    ensures lo * Total(items, Iops) <= Total(items, Weighted)
  {
    if items != [] {
      var n := |items| - 1;
      WeightedFrom(items[..n], lo);
      AddedFrom(lo, Total(items[..n], Iops), Total(items[..n], Weighted), Iops(items[n]), Latency(items[n]));
    }
  }

  lemma {:induction false} AddedFrom(lo: real, t: real, sum: real, w: real, l: real)
    requires lo * t <= sum && w >= 0.0 && lo <= l
    ensures lo * (t + w) <= sum + w * l
  {
    ProductSign(w, l - lo);
  }

  lemma {:induction false} WeightedUpTo(items: seq<Flow>, hi: real)
    requires NoNegativeIops(items) && forall i :: 0 <= i < |items| ==> Latency(items[i]) <= hi
    ensures Total(items, Weighted) <= hi * Total(items, Iops)
  {
    if items != [] {
      var n := |items| - 1;
      WeightedUpTo(items[..n], hi);
      AddedUpTo(hi, Total(items[..n], Iops), Total(items[..n], Weighted), Iops(items[n]), Latency(items[n]));
    }
  }

  lemma {:induction false} AddedUpTo(hi: real, t: real, sum: real, w: real, l: real)
    requires sum <= hi * t && w >= 0.0 && l <= hi
    ensures sum + w * l <= hi * (t + w)
  {
    ProductSign(w, hi - l);
  }

  lemma {:induction false} QuotientBounds(a: real, b: real, lo: real, hi: real)
    requires b > 0.0 && lo * b <= a <= hi * b
    ensures lo <= a / b <= hi
  {
    RatioTimes(a, b);
    var q := a / b;
    if q < lo { LessTimes(q, lo, b); }
    if hi < q { LessTimes(hi, q, b); }
  }

  lemma {:induction false} LessTimes(a: real, b: real, m: real)
    requires a < b && m > 0.0
    ensures a * m < b * m
  {}

  lemma {:induction false} MaxIsAttained(items: seq<Flow>, lo: real, hi: real)
    requires items != [] && LatencyWithin(items, lo, hi)
    ensures lo <= MaxLatency(items) <= hi
  {
    if |items| > 1 { MaxIsAttained(items[..|items| - 1], lo, hi); }
  }

  /** A row's latency lies between the latencies of its disks. */
  lemma {:induction false} LatencyStaysInRange(items: seq<Flow>, lo: real, hi: real)
    requires items != [] && NoNegativeIops(items) && LatencyWithin(items, lo, hi)
    ensures lo <= LatencyOf(items) <= hi
  {
    WeightedFrom(items, lo);
    WeightedUpTo(items, hi);
    MaxIsAttained(items, lo, hi);
    if Total(items, Iops) > 0.0 { QuotientBounds(Total(items, Weighted), Total(items, Iops), lo, hi); }
  }

  // ---------- Whose flow it is ----------

  predicate IsSeparator(c: char) { c == '\\' || c == '/' }

  predicate IsName(s: string) { forall i :: 0 <= i < |s| ==> !IsSeparator(s[i]) }

  lemma {:induction false} NameIsOnePart(name: string, rest: string)
    requires IsName(name) && (rest != "" ==> IsSeparator(rest[0]))
    ensures Parts(name + rest) == [name] + if rest == "" then [] else Parts(rest[1..])
  {
    if name == "" {
      assert name + rest == rest;
    } else {
      var more := if rest == "" then [] else Parts(rest[1..]);
      NameIsOnePart(name[1..], rest);
      FirstPartGrows(name[0], name[1..], rest, more);
      assert [name[0]] + name[1..] == name;
    }
  }

  lemma {:induction false} FirstPartGrows(c: char, name: string, rest: string, more: seq<string>)
    requires !IsSeparator(c) && Parts(name + rest) == [name] + more
    ensures Parts(([c] + name) + rest) == [[c] + name] + more
  {
    var s := ([c] + name) + rest;
    assert s[0] == c && s[1..] == name + rest;
    assert ([name] + more)[0] == name && ([name] + more)[1..] == more;
  }

  /** A path below `ClusterStorage`, in any case and with either slash, belongs to
      the volume registered for its folder, or to one named like the folder. */
  lemma {:induction false} CsvOfPath(drive: string, storage: string, folder: string, rest: string,
                                     folders: map<string, string>, first: char, second: char)
    requires IsName(drive) && Lower(drive) != "clusterstorage" && IsName(storage) && Lower(storage) == "clusterstorage"
    requires IsName(folder) && (rest != "" ==> IsSeparator(rest[0])) && IsSeparator(first) && IsSeparator(second)
    ensures CsvName(drive + ([first] + (storage + ([second] + (folder + rest)))), folders)
         == Some(if Lower(folder) in folders then folders[Lower(folder)] else folder)
  {
    var tail := [second] + (folder + rest);
    var path := [first] + (storage + tail);
    NameIsOnePart(folder, rest);
    NameIsOnePart(storage, tail);
    NameIsOnePart(drive, path);
    assert tail[1..] == folder + rest && path[1..] == storage + tail;
    var parts := Parts(drive + path);
    assert parts[0] == drive && parts[1] == storage && parts[2] == folder;
    assert StorageIndex(parts) == 1 by {
      assert parts[1..][0] == storage;
    }
  }

  // ---------- Statuses and log ----------

  ghost predicate DistinctIds(clusters: seq<Cluster>) {
    forall i, j :: 0 <= i < j < |clusters| ==> clusters[i].id != clusters[j].id
  }

  lemma {:induction false} OneMoreStatus(s: State, clusters: seq<Cluster>, now: int, id: string)
    requires clusters != []
    ensures
      var last := clusters[|clusters| - 1];
      Previous(AfterClusters(s, clusters, now).status, id)
      == if last.id == id then Some(StatusAfter(last, now))
         else Previous(AfterClusters(s, clusters[..|clusters| - 1], now).status, id)
  {}

  lemma {:induction false} OtherStatusesStay(s: State, clusters: seq<Cluster>, now: int, m: nat, id: string)
    requires m <= |clusters| && forall i :: m <= i < |clusters| ==> clusters[i].id != id
    ensures Previous(AfterClusters(s, clusters, now).status, id)
          == Previous(AfterClusters(s, clusters[..m], now).status, id)
    decreases |clusters|
  {
    if m == |clusters| {
      assert clusters[..m] == clusters;
    } else {
      var front := clusters[..|clusters| - 1];
      OneMoreStatus(s, clusters, now, id);
      OtherStatusesStay(s, front, now, m, id);
      assert front[..m] == clusters[..m];
    }
  }

  lemma {:induction false} LastStatus(s: State, clusters: seq<Cluster>, now: int)
    requires clusters != []
    ensures
      var last := clusters[|clusters| - 1];
      Previous(AfterClusters(s, clusters, now).status, last.id) == Some(StatusAfter(last, now))
  {
    OneMoreStatus(s, clusters, now, clusters[|clusters| - 1].id);
  }

  /** After a run every cluster's status says how this run went for it, and the run
      compared each with its status before the run. */
  lemma {:induction false} StatusSaysHowItWent(s: State, clusters: seq<Cluster>, now: int, k: nat)
    requires DistinctIds(clusters) && k < |clusters|
    ensures Previous(AfterClusters(s, clusters, now).status, clusters[k].id) == Some(StatusAfter(clusters[k], now))
    ensures Previous(AfterClusters(s, clusters[..k], now).status, clusters[k].id) == Previous(s.status, clusters[k].id)
  {
    var c := clusters[k];
    OtherStatusesStay(s, clusters, now, k + 1, c.id);
    LastStatus(s, clusters[..k + 1], now);
    OtherStatusesStay(s, clusters[..k], now, 0, c.id);
    assert clusters[..k][..0] == [];
  }
}
