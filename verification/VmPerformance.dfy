/** Collecting and condensing the performance of the virtual machines, after
    backend/app/core/vm_performance.py. Instants are seconds on one clock. */
module VmPerformance {
  import opened Wrappers
  import opened Texts
  import opened Grouping

  // ---------- One row per virtual machine and volume ----------

  /** What storage QoS reports for one disk; every field may be missing. */
  datatype Flow = Flow(path: Option<string>, vmId: Option<string>, vmName: Option<string>, node: Option<string>,
                       iops: Option<real>, latency: Option<real>, bandwidth: Option<real>)

  datatype VmRow = VmRow(vmId: string, vmName: string, csv: string, host: Option<string>,
                         iops: real, latency: real, bandwidth: real, disks: nat)

  datatype Owner = Owner(vmId: string, csv: string)

  function OrZero(x: Option<real>): real { if x.Some? then x.value else 0.0 }

  function OrEmpty(s: Option<string>): string { if s.Some? then s.value else "" }

  /** A path's parts, either slash separating them. */
  function Parts(path: string): (r: seq<string>)
    ensures r != []
  {
    if path == "" then [""]
    else
      var rest := Parts(path[1..]);
      if path[0] == '\\' || path[0] == '/' then [""] + rest else [[path[0]] + rest[0]] + rest[1..]
  }

  /** The first part spelled `clusterstorage` in any case, or the number of parts. */
  function StorageIndex(parts: seq<string>): (i: nat)
    ensures i <= |parts|
    ensures i < |parts| ==> Lower(parts[i]) == "clusterstorage"
    ensures forall k :: 0 <= k < i ==> Lower(parts[k]) != "clusterstorage"
  {
    if parts == [] || Lower(parts[0]) == "clusterstorage" then 0 else 1 + StorageIndex(parts[1..])
  }

  function CsvName(path: string, folders: map<string, string>): Option<string> {
    var parts := Parts(path);
    var i := StorageIndex(parts);
    if i + 1 >= |parts| then None
    else if Lower(parts[i + 1]) in folders then Some(folders[Lower(parts[i + 1])])
    else Some(parts[i + 1])
  }

  /** Whom a flow belongs to; flows without a volume or a machine are skipped. */
  function OwnerOf(f: Flow, folders: map<string, string>): Option<Owner> {
    var csv := CsvName(OrEmpty(f.path), folders);
    var vmId := Lower(OrEmpty(f.vmId));
    if !Filled(csv) || vmId == "" then None else Some(Owner(vmId, csv.value))
  }

  function OwnerBy(folders: map<string, string>): Flow -> Option<Owner> {
    (f: Flow) => OwnerOf(f, folders)
  }

  function Iops(f: Flow): real { OrZero(f.iops) }

  function Latency(f: Flow): real { OrZero(f.latency) }

  function Bandwidth(f: Flow): real { OrZero(f.bandwidth) }

  function Weighted(f: Flow): real { Iops(f) * Latency(f) }

  function MaxLatency(items: seq<Flow>): real
    requires items != []
  {
    var n := |items| - 1;
    if n == 0 || Latency(items[n]) > MaxLatency(items[..n]) then Latency(items[n]) else MaxLatency(items[..n])
  }

  /** Weighted by IOPS; without any, the highest of the disks. */
  function LatencyOf(items: seq<Flow>): real
    requires items != []
  {
    if Total(items, Iops) > 0.0 then Total(items, Weighted) / Total(items, Iops) else MaxLatency(items)
  }

  function RowOf(o: Owner, items: seq<Flow>): VmRow
    requires items != []
  {
    var first := items[0];
    VmRow(o.vmId, if Filled(first.vmName) then first.vmName.value else o.vmId, o.csv,
          if Filled(first.node) then Some(first.node.value[..IndexOf(first.node.value, '.')]) else None,
          Total(items, Iops), LatencyOf(items), Total(items, Bandwidth), |items|)
  }

  /** The row of every group, in the order of the groups. */
  function RowsOf(owners: seq<Owner>, groups: map<Owner, seq<Flow>>): (r: seq<VmRow>)
    requires NoEmptyGroup(owners, groups)
    ensures |r| == |owners| && forall i :: 0 <= i < |r| ==> r[i] == RowOf(owners[i], groups[owners[i]])
  {
    seq(|owners|, i requires 0 <= i < |owners| => RowOf(owners[i], groups[owners[i]]))
  }

  function Aggregated(flows: seq<Flow>, folders: map<string, string>): seq<VmRow> {
    var key := OwnerBy(folders);
    GroupsAreFilled(flows, key);
    RowsOf(KeysOf(flows, key), GroupsOf(flows, key))
  }

  method RowsOfGroups(owners: seq<Owner>, groups: map<Owner, seq<Flow>>) returns (rows: seq<VmRow>)
    requires NoEmptyGroup(owners, groups)
    ensures rows == RowsOf(owners, groups)
  {
    ghost var all := RowsOf(owners, groups);
    rows := [];
    var i := 0;
    while i < |owners|
      invariant 0 <= i <= |owners|
      invariant rows == all[..i]
    {
      rows := rows + [RowOf(owners[i], groups[owners[i]])];
      i := i + 1;
    }
    assert all[..i] == all;
  }

  method Aggregate(flows: seq<Flow>, folders: map<string, string>) returns (rows: seq<VmRow>)
    ensures rows == Aggregated(flows, folders)
  {
    var owners, groups := Group(flows, OwnerBy(folders));
    GroupsAreFilled(flows, OwnerBy(folders));
    rows := RowsOfGroups(owners, groups);
  }

  // ---------- The table of samples ----------

  datatype Sample = Sample(cluster: string, hourly: bool, at: int, row: VmRow)

  /** One hour of one machine on one volume. */
  datatype Bucket = Bucket(cluster: string, vmId: string, csv: string, hour: int)

  function HourOf(t: int): int { t - t % 3600 }

  function BucketOf(s: Sample): Option<Bucket> {
    Some(Bucket(s.cluster, s.row.vmId, s.row.csv, HourOf(s.at)))
  }

  /** Before this whole hour, samples are condensed. */
  function Cutoff(now: int): int { HourOf(now - 604800) }

  function Where<T>(s: seq<T>, p: T -> bool): seq<T> {
    if s == [] then []
    else Where(s[..|s| - 1], p) + if p(s[|s| - 1]) then [s[|s| - 1]] else []
  }

  function IsRaw(s: Sample): bool { !s.hourly }

  function Due(cutoff: int): Sample -> bool { (s: Sample) => !s.hourly && s.at < cutoff }

  function NotDue(cutoff: int): Sample -> bool { (s: Sample) => s.hourly || s.at >= cutoff }

  function NotBefore(t: int): Sample -> bool { (s: Sample) => s.at >= t }

  function SampleIops(s: Sample): real { s.row.iops }

  function SampleLatency(s: Sample): real { s.row.latency }

  function SampleBandwidth(s: Sample): real { s.row.bandwidth }

  function SampleWeighted(s: Sample): real { s.row.iops * s.row.latency }

  function MaxDisks(items: seq<Sample>): nat
    requires items != []
  {
    var n := |items| - 1;
    if n == 0 || items[n].row.disks > MaxDisks(items[..n]) then items[n].row.disks else MaxDisks(items[..n])
  }

  function MeanLatency(items: seq<Sample>): real
    requires items != []
  {
    var weight := Total(items, SampleIops);
    if weight != 0.0 then Total(items, SampleWeighted) / weight
    else Total(items, SampleLatency) / (|items| as real)
  }

  function HourlySample(b: Bucket, items: seq<Sample>): Sample
    requires items != []
  {
    var n := |items| as real;
    var last := items[|items| - 1].row;
    Sample(b.cluster, true, b.hour,
           VmRow(b.vmId, last.vmName, b.csv, last.host, Total(items, SampleIops) / n, MeanLatency(items),
                 Total(items, SampleBandwidth) / n, MaxDisks(items)))
  }

  function HourlySamples(buckets: seq<Bucket>, groups: map<Bucket, seq<Sample>>): (r: seq<Sample>)
    requires NoEmptyGroup(buckets, groups)
    ensures |r| == |buckets| && forall i :: 0 <= i < |r| ==> r[i] == HourlySample(buckets[i], groups[buckets[i]])
  {
    seq(|buckets|, i requires 0 <= i < |buckets| => HourlySample(buckets[i], groups[buckets[i]]))
  }

  function Condense(due: seq<Sample>): seq<Sample> {
    GroupsAreFilled(due, BucketOf);
    HourlySamples(KeysOf(due, BucketOf), GroupsOf(due, BucketOf))
  }

  method MeansOfGroups(buckets: seq<Bucket>, groups: map<Bucket, seq<Sample>>) returns (means: seq<Sample>)
    requires NoEmptyGroup(buckets, groups)
    ensures means == HourlySamples(buckets, groups)
  {
    ghost var all := HourlySamples(buckets, groups);
    means := [];
    var i := 0;
    while i < |buckets|
      invariant 0 <= i <= |buckets|
      invariant means == all[..i]
    {
      means := means + [HourlySample(buckets[i], groups[buckets[i]])];
      i := i + 1;
    }
    assert all[..i] == all;
  }

  /** The table after condensing and purging at `now`. */
  function Condensed(table: seq<Sample>, now: int): seq<Sample> {
    Where(Where(table, NotDue(Cutoff(now))) + Condense(Where(table, Due(Cutoff(now)))), NotBefore(now - 7776000))
  }

  // ---------- A collection run ----------

  datatype Reading = Flows(flows: seq<Flow>, folders: map<string, string>) | Failed(message: string)

  datatype Cluster = Cluster(id: string, reading: Reading)

  datatype Status = Status(at: int, error: Option<string>, vmRows: nat)

  datatype Entry = Recovered(id: string, count: nat) | Unreachable(id: string, message: string)

  function Stamped(id: string, now: int, rows: seq<VmRow>): (r: seq<Sample>)
    ensures |r| == |rows|
    ensures forall i :: 0 <= i < |r| ==> r[i] == Sample(id, false, now, rows[i])
  {
    seq(|rows|, i requires 0 <= i < |rows| => Sample(id, false, now, rows[i]))
  }

  /** What one cluster adds to the table. */
  function AddedBy(c: Cluster, now: int): seq<Sample> {
    if c.reading.Failed? then [] else Stamped(c.id, now, Aggregated(c.reading.flows, c.reading.folders))
  }

  function Added(clusters: seq<Cluster>, now: int): seq<Sample> {
    if clusters == [] then []
    else Added(clusters[..|clusters| - 1], now) + AddedBy(clusters[|clusters| - 1], now)
  }

  function Cut(message: string): string { if |message| <= 500 then message else message[..500] }

  function StatusAfter(c: Cluster, now: int): Status {
    if c.reading.Failed? then Status(now, Some(Cut(c.reading.message)), 0)
    else Status(now, None, |Aggregated(c.reading.flows, c.reading.folders)|)
  }

  /** The line written about a cluster: only when its state changes. */
  function Noted(before: Option<Status>, c: Cluster, now: int): Option<Entry> {
    var error := if before.Some? then before.value.error else None;
    if c.reading.Failed? then
      if error == Some(Cut(c.reading.message)) then None else Some(Unreachable(c.id, Cut(c.reading.message)))
    else if Filled(error) then Some(Recovered(c.id, StatusAfter(c, now).vmRows))
    else None
  }

  function Previous(status: map<string, Status>, id: string): Option<Status> {
    if id in status then Some(status[id]) else None
  }

  function Listed(e: Option<Entry>): seq<Entry> { if e.Some? then [e.value] else [] }

  datatype State = State(table: seq<Sample>, status: map<string, Status>, log: seq<Entry>)

  /** One cluster's turn: its rows, its status, and a line if its state changed. */
  function AfterCluster(s: State, c: Cluster, now: int): State {
    State(s.table + AddedBy(c, now), s.status[c.id := StatusAfter(c, now)],
          s.log + Listed(Noted(Previous(s.status, c.id), c, now)))
  }

  function AfterClusters(s: State, clusters: seq<Cluster>, now: int): State {
    if clusters == [] then s
    else AfterCluster(AfterClusters(s, clusters[..|clusters| - 1], now), clusters[|clusters| - 1], now)
  }

  lemma {:induction false} OneMoreCluster(table: seq<Sample>, clusters: seq<Cluster>, now: int)
    requires clusters != []
    ensures table + Added(clusters, now)
         == (table + Added(clusters[..|clusters| - 1], now)) + AddedBy(clusters[|clusters| - 1], now)
  {
    var a, b := Added(clusters[..|clusters| - 1], now), AddedBy(clusters[|clusters| - 1], now);
    assert Added(clusters, now) == a + b;
    Regrouped(table, a, b);
  }

  /** A run adds what its clusters add, one after the other. */
  lemma {:induction false} TableAfterClusters(s: State, clusters: seq<Cluster>, now: int)
    ensures AfterClusters(s, clusters, now).table == s.table + Added(clusters, now)
  {
    if clusters != [] {
      TableAfterClusters(s, clusters[..|clusters| - 1], now);
      OneMoreCluster(s.table, clusters, now);
    }
  }

  class Collector {
    var table: seq<Sample>
    var status: map<string, Status>
    var log: seq<Entry>

    constructor ()
      ensures table == [] && status == map[] && log == []
    {
      table, status, log := [], map[], [];
    }

    /** Old samples become hourly means, hourly means older than 90 days go. */
    method Downsample(now: int)
      modifies this`table
      ensures table == Condensed(old(table), now)
    {
      var cutoff := Cutoff(now);
      var due := Where(table, Due(cutoff));
      if due != [] {
        var buckets, groups := Group(due, BucketOf);
        GroupsAreFilled(due, BucketOf);
        var means := MeansOfGroups(buckets, groups);
        table := Where(table, NotDue(cutoff)) + means;
      } else {
        NothingDue(table, cutoff);
        assert Condense(due) == [];
        assert Where(table, NotDue(cutoff)) + [] == table;
      }
      table := Where(table, NotBefore(now - 7776000));
    }

    function Current(): State
      reads this
    {
      State(table, status, log)
    }

    method CollectCluster(c: Cluster, now: int)
      modifies this
      ensures Current() == AfterCluster(old(Current()), c, now)
    {
      var error := if c.id in status then status[c.id].error else None;
      match c.reading {
        case Flows(flows, folders) =>
          var rows := Aggregate(flows, folders);
          table := table + Stamped(c.id, now, rows);
          status := status[c.id := Status(now, None, |rows|)];
          if Filled(error) { log := log + [Recovered(c.id, |rows|)]; }
        case Failed(text) =>
          var message := Cut(text);
          status := status[c.id := Status(now, Some(message), 0)];
          if error != Some(message) { log := log + [Unreachable(c.id, message)]; }
      }
    }

    /** A run over all clusters, and the table condensed at its end. */
    method RunCollection(clusters: seq<Cluster>, now: int)
      modifies this
      ensures table == Condensed(old(table) + Added(clusters, now), now)
      ensures status == AfterClusters(old(Current()), clusters, now).status
      ensures log == AfterClusters(old(Current()), clusters, now).log
    {
      var i := 0;
      while i < |clusters|
        invariant 0 <= i <= |clusters|
        invariant Current() == AfterClusters(old(Current()), clusters[..i], now)
      {
        assert clusters[..i + 1][..i] == clusters[..i];
        CollectCluster(clusters[i], now);
        i := i + 1;
      }
      assert clusters[..i] == clusters;
      TableAfterClusters(old(Current()), clusters, now);
      Downsample(now);
    }
  }

  lemma {:induction false} WhereOfAppended<T>(s: seq<T>, x: T, p: T -> bool)
    ensures Where(s + [x], p) == if p(x) then Where(s, p) + [x] else Where(s, p)
  {
    assert (s + [x])[..|s|] == s;
  }

  lemma {:induction false} NothingDue(table: seq<Sample>, cutoff: int)
    requires Where(table, Due(cutoff)) == []
    ensures Where(table, NotDue(cutoff)) == table
  {
    if table != [] {
      var n := |table| - 1;
      var front, x := table[..n], table[n];
      assert table == front + [x];
      WhereOfAppended(front, x, Due(cutoff));
      WhereOfAppended(front, x, NotDue(cutoff));
      assert !Due(cutoff)(x);
      NothingDue(front, cutoff);
    }
  }
}
