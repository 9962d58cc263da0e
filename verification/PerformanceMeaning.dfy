/** What the performance samples mean, value by value: the row of a machine, the table
    after any runs, and what statuses and log say. */
module PerformanceMeaning {
  import opened Wrappers
  import opened Texts
  import opened Grouping
  import opened VmPerformance
  import opened VmPerformanceLaws
  import opened VmPerformanceRuns

  // ---------- One row ----------

  /** A missing value counts as zero. */
  ghost predicate IsValue(x: real, field: Option<real>) {
    (field.Some? ==> x == field.value) && (field.None? ==> x == 0.0)
  }

  lemma {:induction false} ValuesOf(f: Flow)
    ensures IsValue(Iops(f), f.iops) && IsValue(Latency(f), f.latency) && IsValue(Bandwidth(f), f.bandwidth)
    ensures Weighted(f) == Iops(f) * Latency(f)
  {
  }

  ghost predicate PathIn(f: Flow, csv: string, folders: map<string, string>) {
    csv != "" && CsvName(if f.path.Some? then f.path.value else "", folders) == Some(csv)
  }

  /** A flow belongs to the machine of its identifier in small letters, on the volume
      its path lies on; to nobody without either. */
  lemma {:induction false} OwnerIs(f: Flow, folders: map<string, string>, o: Owner)
    ensures OwnerOf(f, folders) == Some(o)
       <==> && f.vmId.Some? && f.vmId.value != "" && o.vmId == Lower(f.vmId.value)
            && PathIn(f, o.csv, folders)
  {
  }

  /** What stands before the first dot. */
  ghost predicate IsHost(host: string, node: string) {
    '.' !in host && exists rest :: node == host + rest && (rest == "" || rest[0] == '.')
  }

  ghost predicate IsHighestLatency(x: real, items: seq<Flow>) {
    (forall f :: f in items ==> Latency(f) <= x) && exists f :: f in items && Latency(f) == x
  }

  lemma {:induction false} MaxLatencyIsHighest(items: seq<Flow>)
    requires items != []
    ensures IsHighestLatency(MaxLatency(items), items)
  {
    var n := |items| - 1;
    assert items == items[..n] + [items[n]];
    if n > 0 {
      MaxLatencyIsHighest(items[..n]);
    } else {
      assert items[0] in items;
    }
  }

  /** The row of a machine: named like its first flow, on that flow's host without the
      domain; its latency weighted by IOPS, or the highest when there are none. */
  ghost predicate IsRow(r: VmRow, o: Owner, items: seq<Flow>)
    requires items != []
  {
    && r.vmId == o.vmId && r.csv == o.csv && r.disks == |items|
    && r.vmName == (if items[0].vmName.Some? && items[0].vmName != Some("") then items[0].vmName.value else o.vmId)
    && (if items[0].node.Some? && items[0].node != Some("") then r.host.Some? &&
        IsHost(r.host.value, items[0].node.value)
        else r.host == None)
    && r.iops == Total(items, Iops) && r.bandwidth == Total(items, Bandwidth)
    && (Total(items, Iops) > 0.0 ==> r.latency * Total(items, Iops) == Total(items, Weighted))
    && (Total(items, Iops) <= 0.0 ==> IsHighestLatency(r.latency, items))
  }

  lemma {:induction false} HostIs(node: string)
    ensures IsHost(node[..IndexOf(node, '.')], node)
  {
    var i := IndexOf(node, '.');
    assert node == node[..i] + node[i..];
  }

  lemma {:induction false} RowSays(o: Owner, items: seq<Flow>)
    requires items != []
    ensures IsRow(RowOf(o, items), o, items)
  {
    if Filled(items[0].node) { HostIs(items[0].node.value); }
    if Total(items, Iops) > 0.0 {
      RatioTimes(Total(items, Weighted), Total(items, Iops));
    } else {
      MaxLatencyIsHighest(items);
    }
  }

  // ---------- What is collected ----------

  /** The cluster answered, and the sample is one of its rows. */
  ghost predicate IsSampleOf(s: Sample, c: Cluster, now: int) {
    && c.reading.Flows? && s.cluster == c.id && s.at == now && !s.hourly
    && s.row in Aggregated(c.reading.flows, c.reading.folders)
  }

  ghost predicate IsReading(s: Sample, r: CollectionRun) {
    exists c :: c in r.clusters && IsSampleOf(s, c, r.now)
  }

  lemma {:induction false} StampedIs(id: string, now: int, rows: seq<VmRow>, s: Sample)
    ensures s in Stamped(id, now, rows) <==> s.cluster == id && s.at == now && !s.hourly && s.row in rows
  {
    var all := Stamped(id, now, rows);
    if s in all {
      var i :| 0 <= i < |rows| && all[i] == s;
      assert rows[i] in rows;
    }
    if s.cluster == id && s.at == now && !s.hourly && s.row in rows {
      var i :| 0 <= i < |rows| && rows[i] == s.row;
      assert all[i] == s;
    }
  }

  lemma {:induction false} AddedByIs(c: Cluster, now: int, s: Sample)
    ensures s in AddedBy(c, now) <==> IsSampleOf(s, c, now)
  {
    if c.reading.Flows? { StampedIs(c.id, now, Aggregated(c.reading.flows, c.reading.folders), s); }
  }

  ghost function PartsOf(clusters: seq<Cluster>, now: int): (parts: seq<seq<Sample>>)
    ensures |parts| == |clusters| && forall k :: 0 <= k < |parts| ==> parts[k] == AddedBy(clusters[k], now)
  {
    seq(|clusters|, k requires 0 <= k < |clusters| => AddedBy(clusters[k], now))
  }

  lemma {:induction false} AddedIsJoined(clusters: seq<Cluster>, now: int)
    ensures Added(clusters, now) == Joined(PartsOf(clusters, now))
  {
    if clusters != [] {
      var n := |clusters| - 1;
      AddedIsJoined(clusters[..n], now);
      assert PartsOf(clusters, now)[..n] == PartsOf(clusters[..n], now);
    }
  }

  lemma {:induction false} RunAddsReadings(r: CollectionRun, s: Sample)
    ensures s in Added(r.clusters, r.now) <==> IsReading(s, r)
  {
    var parts := PartsOf(r.clusters, r.now);
    AddedIsJoined(r.clusters, r.now);
    MemberOfJoined(parts, s);
    if k :| 0 <= k < |parts| && s in parts[k] {
      AddedByIs(r.clusters[k], r.now, s);
      assert r.clusters[k] in r.clusters;
    }
    if c :| c in r.clusters && IsSampleOf(s, c, r.now) {
      var k :| 0 <= k < |r.clusters| && r.clusters[k] == c;
      AddedByIs(c, r.now, s);
      assert s in parts[k];
    }
  }

  ghost function PartsOfRuns(runs: seq<CollectionRun>): (parts: seq<seq<Sample>>)
    ensures |parts| == |runs| && forall k :: 0 <= k < |parts| ==> parts[k] == Added(runs[k].clusters, runs[k].now)
  {
    seq(|runs|, k requires 0 <= k < |runs| => Added(runs[k].clusters, runs[k].now))
  }

  lemma {:induction false} CollectedIsJoined(runs: seq<CollectionRun>)
    ensures Collected(runs) == Joined(PartsOfRuns(runs))
  {
    if runs != [] {
      var n := |runs| - 1;
      CollectedIsJoined(runs[..n]);
      assert PartsOfRuns(runs)[..n] == PartsOfRuns(runs[..n]);
    }
  }

  /** Collected is what the clusters that answered reported, each with its run's time. */
  lemma {:induction false} CollectedIs(runs: seq<CollectionRun>, s: Sample)
    ensures s in Collected(runs) <==> exists k :: 0 <= k < |runs| && IsReading(s, runs[k])
  {
    var parts := PartsOfRuns(runs);
    CollectedIsJoined(runs);
    MemberOfJoined(parts, s);
    if k :| 0 <= k < |parts| && s in parts[k] { RunAddsReadings(runs[k], s); }
    if k :| 0 <= k < |runs| && IsReading(s, runs[k]) {
      RunAddsReadings(runs[k], s);
      assert s in parts[k];
    }
  }

  // ---------- The table ----------

  /** The sample is of the same cluster, machine and volume, and of the hour that
      begins at the mean's instant. */
  ghost predicate SameHour(s: Sample, x: Sample) {
    && x.cluster == s.cluster && x.row.vmId == s.row.vmId && x.row.csv == s.row.csv
    && s.at <= x.at < s.at + 3600
  }

  ghost function InHourOf(s: Sample): Sample -> bool { (x: Sample) => SameHour(s, x) }

  lemma {:induction false} BucketIsHour(s: Sample, x: Sample)
    requires s.at % 3600 == 0
    ensures BucketOf(x) == Some(KeyOf(s)) <==> SameHour(s, x)
  {
  }

  lemma {:induction false} PickedOfHour(all: seq<Sample>, s: Sample)
    requires s.at % 3600 == 0
    ensures Picked(all, BucketOf, KeyOf(s)) == Where(all, InHourOf(s))
  {
    if all != [] {
      PickedOfHour(all[..|all| - 1], s);
      BucketIsHour(s, all[|all| - 1]);
    }
  }

  ghost predicate IsHighestCount(n: nat, items: seq<Sample>) {
    (forall x :: x in items ==> x.row.disks <= n) && exists x :: x in items && x.row.disks == n
  }

  lemma {:induction false} MaxDisksIsHighest(items: seq<Sample>)
    requires items != []
    ensures IsHighestCount(MaxDisks(items), items)
  {
    DisksAreHighest(items, 0);
    var j :| 0 <= j < |items| && items[j].row.disks == MaxDisks(items);
    assert items[j] in items;
    forall x | x in items ensures x.row.disks <= MaxDisks(items) {
      var i :| 0 <= i < |items| && items[i] == x;
      DisksAreHighest(items, i);
    }
  }

  function IopsOf(): Sample -> real { (x: Sample) => x.row.iops }

  function LatencyOfSample(): Sample -> real { (x: Sample) => x.row.latency }

  function BandwidthOf(): Sample -> real { (x: Sample) => x.row.bandwidth }

  function WeightedLatency(): Sample -> real { (x: Sample) => x.row.iops * x.row.latency }

  lemma {:induction false} SameTotals(items: seq<Sample>, f: Sample -> real, g: Sample -> real)
    requires forall x :: f(x) == g(x)
    ensures Total(items, f) == Total(items, g)
  {
    if items != [] { SameTotals(items[..|items| - 1], f, g); }
  }

  lemma {:induction false} TotalsOfSamples(items: seq<Sample>)
    ensures Total(items, SampleIops) == Total(items, IopsOf())
    ensures Total(items, SampleLatency) == Total(items, LatencyOfSample())
    ensures Total(items, SampleBandwidth) == Total(items, BandwidthOf())
    ensures Total(items, SampleWeighted) == Total(items, WeightedLatency())
  {
    SameTotals(items, SampleIops, IopsOf());
    SameTotals(items, SampleLatency, LatencyOfSample());
    SameTotals(items, SampleBandwidth, BandwidthOf());
    SameTotals(items, SampleWeighted, WeightedLatency());
  }

  /** So many times the mean is the sum. */
  ghost predicate IsMean(x: real, n: nat, sum: real) { x * n as real == sum }

  /** The hourly sample of the items: their means, named and placed like the last one,
      with the highest number of disks. */
  ghost predicate IsHourly(s: Sample, items: seq<Sample>) {
    && items != [] && s.hourly && s.at % 3600 == 0
    && s.row.vmName == items[|items| - 1].row.vmName && s.row.host == items[|items| - 1].row.host
    && IsHighestCount(s.row.disks, items)
    && IsMean(s.row.iops, |items|, Total(items, IopsOf()))
    && IsMean(s.row.bandwidth, |items|, Total(items, BandwidthOf()))
    && (Total(items, IopsOf()) != 0.0 ==> s.row.latency * Total(items, IopsOf()) == Total(items, WeightedLatency()))
    && (Total(items, IopsOf()) == 0.0 ==> IsMean(s.row.latency, |items|, Total(items, LatencyOfSample())))
  }

  lemma {:induction false} OneMean(x: real, y: real, n: nat, sum: real)
    requires n > 0 && IsMean(x, n, sum) && IsMean(y, n, sum)
    ensures x == y
  {
    SameFactor(x, y, n as real);
  }

  lemma {:induction false} SameFactor(x: real, y: real, m: real)
    requires m != 0.0 && x * m == y * m
    ensures x == y
  {
    assert (x - y) * m == 0.0;
  }

  lemma {:induction false} HourlyIsMean(b: Bucket, items: seq<Sample>)
    requires items != [] && b.hour % 3600 == 0
    ensures IsHourly(HourlySample(b, items), items)
  {
    MeanKeepsTotals(b, items);
    TotalsOfSamples(items);
    MaxDisksIsHighest(items);
  }

  lemma {:induction false} OneHourly(s: Sample, t: Sample, items: seq<Sample>)
    requires IsHourly(s, items) && IsHourly(t, items) && KeyOf(s) == KeyOf(t)
    ensures s == t
  {
    OneMean(s.row.iops, t.row.iops, |items|, Total(items, IopsOf()));
    OneMean(s.row.bandwidth, t.row.bandwidth, |items|, Total(items, BandwidthOf()));
    OneLatency(s, t, items);
  }

  lemma {:induction false} OneLatency(s: Sample, t: Sample, items: seq<Sample>)
    requires IsHourly(s, items) && IsHourly(t, items)
    ensures s.row.latency == t.row.latency
  {
    if Total(items, IopsOf()) == 0.0 {
      OneMean(s.row.latency, t.row.latency, |items|, Total(items, LatencyOfSample()));
    } else {
      SameFactor(s.row.latency, t.row.latency, Total(items, IopsOf()));
    }
  }

  lemma {:induction false} MeanIffHourly(s: Sample, all: seq<Sample>)
    ensures IsMeanOfHour(s, all) <==> s.hourly && s.at % 3600 == 0 && IsHourly(s, Where(all, InHourOf(s)))
  {
    var b := KeyOf(s);
    if IsMeanOfHour(s, all) { assert s.at == b.hour == HourOf(s.at); }
    if s.at % 3600 == 0 {
      PickedOfHour(all, s);
      var items := Picked(all, BucketOf, b);
      if items != [] {
        HourlyIsMean(b, items);
        if IsHourly(s, items) { OneHourly(s, HourlySample(b, items), items); }
      }
    }
  }

  /** The whole hour in which the instant seven days before `now` lies. */
  ghost predicate IsCutoff(c: int, now: int) {
    c % 3600 == 0 && c <= now - 7 * 24 * 3600 < c + 3600
  }

  lemma {:induction false} CutoffIs(cutoff: int, now: int)
    ensures IsCutoff(cutoff, now) <==> cutoff == Cutoff(now)
  {
  }

  lemma {:induction false} RawTableHolds(table: seq<Sample>, all: seq<Sample>, now: int, s: Sample)
    requires Faithful(table, all, now) && !s.hourly
    ensures s in table <==> s in all && Cutoff(now) <= s.at
  {
    InWhere(table, IsRaw, s);
    InWhere(all, NotBefore(Cutoff(now)), s);
  }

  lemma {:induction false} HourlyTableHolds(table: seq<Sample>, all: seq<Sample>, now: int, s: Sample)
    requires Faithful(table, all, now) && s.hourly
    ensures s in table
       <==> now - 90 * 24 * 3600 <= s.at < Cutoff(now) && s.at % 3600 == 0 && IsHourly(s, Where(all, InHourOf(s)))
  {
    MeanIffHourly(s, all);
    assert s in table <==> Kept(s.at, now) && IsMeanOfHour(s, all);
  }

  /** After any runs, the clock never going back: the raw samples of the table are those
      collected since the whole hour seven days before, and its hourly samples are,
      for every earlier hour of the last 90 days with a sample, its mean. */
  lemma {:induction false} TableHolds(runs: seq<CollectionRun>, s: Sample, cutoff: int)
    requires Forward(runs) && runs != [] && IsCutoff(cutoff, runs[|runs| - 1].now)
    ensures !s.hourly ==> (s in TableAfter(runs) <==> s in Collected(runs) && cutoff <= s.at)
    ensures s.hourly ==>
              (s in TableAfter(runs)
               <==> && runs[|runs| - 1].now - 90 * 24 * 3600 <= s.at < cutoff && s.at % 3600 == 0
                    && IsHourly(s, Where(Collected(runs), InHourOf(s))))
  {
    var now := runs[|runs| - 1].now;
    TableIsFunctionOfReadings(runs);
    CutoffIs(cutoff, now);
    if s.hourly {
      HourlyTableHolds(TableAfter(runs), Collected(runs), now, s);
    } else {
      RawTableHolds(TableAfter(runs), Collected(runs), now, s);
    }
  }

  // ---------- Statuses and log ----------

  /** The first 500 characters. */
  ghost predicate IsBeginning(s: string, message: string) {
    s <= message && (s == message || |s| == 500) && |s| <= 500
  }

  lemma {:induction false} CutIsBeginning(message: string, s: string)
    ensures s == Cut(message) <==> IsBeginning(s, message)
  {
  }

  /** After a run the status of a cluster is of this run: without an error and with the
      number of its rows if it answered, else with the beginning of the message. */
  lemma {:induction false} StatusSays(s: State, clusters: seq<Cluster>, now: int, k: nat)
    requires DistinctIds(clusters) && k < |clusters|
    ensures
      var c, status := clusters[k], AfterClusters(s, clusters, now).status;
      && c.id in status && status[c.id].at == now
      && (c.reading.Flows? ==>
            status[c.id].error == None && status[c.id].vmRows == |Aggregated(c.reading.flows, c.reading.folders)|)
      && (c.reading.Failed? ==>
            && status[c.id].error.Some? && IsBeginning(status[c.id].error.value, c.reading.message)
            && status[c.id].vmRows == 0)
  {
    StatusSaysHowItWent(s, clusters, now, k);
    if clusters[k].reading.Failed? { CutIsBeginning(clusters[k].reading.message, Cut(clusters[k].reading.message)); }
  }

  /** The line about a cluster that answered after an error with a message says that it
      is back, with its number of rows; the line about one that failed otherwise than
      before gives the beginning of the message. */
  ghost predicate IsLine(e: Entry, before: Option<Status>, c: Cluster) {
    match c.reading
    case Flows(flows, folders) =>
      && before.Some? && before.value.error.Some? && before.value.error.value != ""
      && e == Recovered(c.id, |Aggregated(flows, folders)|)
    case Failed(message) =>
      && e.Unreachable? && e.id == c.id && IsBeginning(e.message, message)
      && !(before.Some? && before.value.error == Some(e.message))
  }

  lemma {:induction false} NotedIsLine(before: Option<Status>, c: Cluster, now: int, e: Entry)
    ensures Noted(before, c, now) == Some(e) <==> IsLine(e, before, c)
  {
    match c.reading {
      case Flows(_, _) =>
      case Failed(message) =>
        CutIsBeginning(message, Cut(message));
        if e.Unreachable? { CutIsBeginning(message, e.message); }
    }
  }

  lemma {:induction false} AppendedLine(log: seq<Entry>, note: Option<Entry>, e: Entry)
    ensures log + Listed(note) == log + [e] <==> note == Some(e)
    ensures log + Listed(note) == log <==> note == None
  {
    assert note.Some? ==> (log + Listed(note))[|log|] == note.value;
    assert (log + [e])[|log|] == e;
    assert |log + Listed(note)| == |log| + |Listed(note)|;
  }

  /** The line a cluster's turn appends, if any. */
  lemma {:induction false} LineOfTurn(s: State, clusters: seq<Cluster>, now: int, k: nat) returns (note: Option<Entry>)
    requires DistinctIds(clusters) && k < |clusters|
    ensures AfterClusters(s, clusters[..k + 1], now).log == AfterClusters(s, clusters[..k], now).log + Listed(note)
    ensures note == Noted(Previous(s.status, clusters[k].id), clusters[k], now)
  {
    StatusSaysHowItWent(s, clusters, now, k);
    assert clusters[..k + 1][..k] == clusters[..k];
    note := Noted(Previous(s.status, clusters[k].id), clusters[k], now);
  }

  /** A run appends to the log, cluster by cluster, the line about the cluster, if any,
      in view of its status before the run. */
  lemma {:induction false} LogOfNext(s: State, clusters: seq<Cluster>, now: int, k: nat, e: Entry)
    requires DistinctIds(clusters) && k < |clusters|
    ensures
      var log, next := AfterClusters(s, clusters[..k], now).log, AfterClusters(s, clusters[..k + 1], now).log;
      var before := if clusters[k].id in s.status then Some(s.status[clusters[k].id]) else None;
      && (next == log + [e] <==> IsLine(e, before, clusters[k]))
      && (next == log <==> forall x :: !IsLine(x, before, clusters[k]))
  {
    var note := LineOfTurn(s, clusters, now, k);
    AppendedLine(AfterClusters(s, clusters[..k], now).log, note, e);
    NotedOrNot(Previous(s.status, clusters[k].id), clusters[k], now, e);
  }

  lemma {:induction false} NotedOrNot(before: Option<Status>, c: Cluster, now: int, e: Entry)
    ensures Noted(before, c, now) == Some(e) <==> IsLine(e, before, c)
    ensures Noted(before, c, now) == None <==> forall x :: !IsLine(x, before, c)
  {
    var note := Noted(before, c, now);
    NotedIsLine(before, c, now, e);
    if note.Some? { NotedIsLine(before, c, now, note.value); }
    if x :| IsLine(x, before, c) { NotedIsLine(before, c, now, x); }
  }
}
