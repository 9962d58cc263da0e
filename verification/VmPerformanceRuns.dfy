/** The table of samples over whole sequences of collection runs: what it holds is
    a function of the readings alone, whenever the runs took place. */
module VmPerformanceRuns {
  import opened Wrappers
  import opened Grouping
  import opened VmPerformance
  import opened VmPerformanceLaws

  datatype CollectionRun = CollectionRun(now: int, clusters: seq<Cluster>)

  /** The table as RunCollection leaves it, run after run. */
  ghost function TableAfter(runs: seq<CollectionRun>): seq<Sample> {
    if runs == [] then []
    else
      var r := runs[|runs| - 1];
      Condensed(TableAfter(runs[..|runs| - 1]) + Added(r.clusters, r.now), r.now)
  }

  /** The runs, carried out by a collector that starts with an empty table. */
  method RunAll(c: Collector, runs: seq<CollectionRun>)
    requires c.table == []
    modifies c
    ensures c.table == TableAfter(runs)
  {
    for k := 0 to |runs|
      invariant c.table == TableAfter(runs[..k])
    {
      assert runs[..k + 1][..k] == runs[..k];
      c.RunCollection(runs[k].clusters, runs[k].now);
    }
    assert runs[..|runs|] == runs;
  }

  /** Every raw sample any run has added. */
  ghost function Collected(runs: seq<CollectionRun>): seq<Sample> {
    if runs == [] then []
    else
      var r := runs[|runs| - 1];
      Collected(runs[..|runs| - 1]) + Added(r.clusters, r.now)
  }

  /** Every raw sample any run has condensed. */
  ghost function CondensedBy(runs: seq<CollectionRun>): seq<Sample> {
    if runs == [] then []
    else
      var r := runs[|runs| - 1];
      CondensedBy(runs[..|runs| - 1])
      + Where(TableAfter(runs[..|runs| - 1]) + Added(r.clusters, r.now), Due(Cutoff(r.now)))
  }

  ghost predicate Forward(runs: seq<CollectionRun>) {
    forall i, j :: 0 <= i < j < |runs| ==> runs[i].now <= runs[j].now
  }

  function KeyOf(s: Sample): Bucket { BucketOf(s).value }

  /** `s` is the mean over all samples ever collected in its hour. */
  ghost predicate IsMeanOfHour(s: Sample, all: seq<Sample>) {
    s.hourly && Picked(all, BucketOf, KeyOf(s)) != [] && s == HourlySample(KeyOf(s), Picked(all, BucketOf, KeyOf(s)))
  }

  ghost predicate OnePerBucket(table: seq<Sample>) {
    forall i, j | 0 <= i < j < |table| :: table[i].hourly && table[j].hourly ==> KeyOf(table[i]) != KeyOf(table[j])
  }

  /** The hours that are condensed and not yet purged at `now`. */
  ghost predicate Kept(hour: int, now: int) { now - 7776000 <= hour < Cutoff(now) }

  ghost predicate HoldsTheMeans(table: seq<Sample>, all: seq<Sample>, now: int) {
    forall s: Sample | s.hourly :: s in table <==> Kept(s.at, now) && IsMeanOfHour(s, all)
  }

  ghost predicate AllRaw(all: seq<Sample>) { forall i :: 0 <= i < |all| ==> !all[i].hourly }

  ghost predicate AllAt(all: seq<Sample>, now: int) { forall i :: 0 <= i < |all| ==> all[i].at == now }

  // ---------- One step ----------

  lemma {:induction false} HoursAreAligned(t: int, u: int)
    ensures HourOf(HourOf(t)) == HourOf(t) <= t < HourOf(t) + 3600
    ensures t < HourOf(u) <==> HourOf(t) < HourOf(u)
    ensures t <= u ==> HourOf(t) <= HourOf(u)
  {}

  lemma {:induction false} CutoffMoves(now: int, later: int)
    requires now <= later
    ensures Cutoff(now) <= Cutoff(later) <= later - 604800
    ensures later - 7776000 < Cutoff(later)
    ensures Cutoff(now) <= HourOf(later)
  {
    HoursAreAligned(now - 604800, later - 604800);
    HoursAreAligned(later - 604800, later);
    HoursAreAligned(later, later);
  }

  lemma {:induction false} AddedByIsRaw(c: Cluster, now: int)
    ensures AllRaw(AddedBy(c, now)) && AllAt(AddedBy(c, now), now)
  {}

  lemma {:induction false} AddedIsRaw(clusters: seq<Cluster>, now: int)
    ensures AllRaw(Added(clusters, now)) && AllAt(Added(clusters, now), now)
  {
    if clusters != [] {
      AddedIsRaw(clusters[..|clusters| - 1], now);
      AddedByIsRaw(clusters[|clusters| - 1], now);
    }
  }

  function Window(lo: int, hi: int): Sample -> bool { (s: Sample) => lo <= s.at < hi }

  /** The new raw samples join the recent ones. */
  lemma {:induction false} RawAfterAdding(table: seq<Sample>, all: seq<Sample>, cutoff: int, added: seq<Sample>,
                                          now: int)
    requires Where(table, IsRaw) == Where(all, NotBefore(cutoff)) && cutoff <= now
    requires AllRaw(added) && AllAt(added, now)
    ensures Where(table + added, IsRaw) == Where(all + added, NotBefore(cutoff))
  {
    WhereOfTwo(table, added, IsRaw);
    WhereOfTwo(all, added, NotBefore(cutoff));
    WhereAll(added, IsRaw);
    WhereAll(added, NotBefore(cutoff));
  }

  lemma {:induction false} DueAreInWindow(table: seq<Sample>, all: seq<Sample>, cutoff: int, next: int)
    requires Where(table, IsRaw) == Where(all, NotBefore(cutoff))
    ensures Where(table, Due(next)) == Where(all, Window(cutoff, next))
  {
    var early: Sample -> bool := (s: Sample) => s.at < next;
    WhereBoth(table, IsRaw, early, Due(next));
    WhereBoth(all, NotBefore(cutoff), early, Window(cutoff, next));
  }

  lemma {:induction false} BucketIsAligned(items: seq<Sample>, b: Bucket)
    requires Picked(items, BucketOf, b) != []
    ensures KeyOf(HourlySample(b, Picked(items, BucketOf, b))) == b
  {
    PickedHaveKey(items, BucketOf, b, 0);
    HoursAreAligned(Picked(items, BucketOf, b)[0].at, 0);
  }

  /** What condensing produces: for every bucket that occurs its mean, once. */
  lemma {:induction false} CondenseMeaning(items: seq<Sample>, s: Sample)
    ensures s in Condense(items) <==> IsMeanOfHour(s, items)
    ensures OnePerBucket(Condense(items)) && forall i :: 0 <= i < |Condense(items)| ==> Condense(items)[i].hourly
  {
    var buckets := KeysOf(items, BucketOf);
    GroupsAreFilled(items, BucketOf);
    KeysAreDistinct(items, BucketOf);
    var r := Condense(items);
    forall i | 0 <= i < |r|
      ensures r[i].hourly && KeyOf(r[i]) == buckets[i] && IsMeanOfHour(r[i], items)
    {
      assert buckets[i] in buckets;
      BucketIsAligned(items, buckets[i]);
    }
    if IsMeanOfHour(s, items) {
      GroupsAreNotEmpty(items, BucketOf, KeyOf(s));
      var i :| 0 <= i < |buckets| && buckets[i] == KeyOf(s);
      assert r[i] == s;
    }
  }

  /** An hour inside the window is condensed from everything collected in it. */
  lemma {:induction false} WindowHoldsWholeHours(all: seq<Sample>, b: Bucket, now: int, later: int)
    requires HourOf(b.hour) == b.hour
    ensures Picked(Where(all, Window(Cutoff(now), Cutoff(later))), BucketOf, b)
         == if Cutoff(now) <= b.hour < Cutoff(later) then Picked(all, BucketOf, b) else []
  {
    forall i | 0 <= i < |all| && BucketOf(all[i]) == Some(b)
      ensures Window(Cutoff(now), Cutoff(later))(all[i]) == (Cutoff(now) <= b.hour < Cutoff(later))
    {
      HoursAreAligned(all[i].at, now - 604800);
      HoursAreAligned(all[i].at, later - 604800);
    }
    PickedOfWhere(all, Window(Cutoff(now), Cutoff(later)), BucketOf, b, Cutoff(now) <= b.hour < Cutoff(later));
  }

  /** Later samples do not belong to an hour that has been condensed. */
  lemma {:induction false} CondensedHoursAreComplete(all: seq<Sample>, added: seq<Sample>, b: Bucket, now: int,
                                                     later: int)
    requires AllAt(added, later) && now <= later && b.hour < Cutoff(now)
    ensures Picked(all + added, BucketOf, b) == Picked(all, BucketOf, b)
  {
    CutoffMoves(now, later);
    PickedOfTwo(all, added, BucketOf, b);
    PickedNone(added, BucketOf, b);
  }

  /** Which hourly samples a run leaves behind. */
  lemma {:induction false} MeansAfterRun(table: seq<Sample>, all: seq<Sample>, now: int, added: seq<Sample>, later: int,
                                         s: Sample)
    requires HoldsTheMeans(table, all, now) && Where(table, IsRaw) == Where(all, NotBefore(Cutoff(now)))
    requires AllRaw(added) && AllAt(added, later) && now <= later && s.hourly
    ensures s in Condensed(table + added, later) <==> Kept(s.at, later) && IsMeanOfHour(s, all + added)
  {
    var t, a := table + added, all + added;
    var due := Where(t, Due(Cutoff(later)));
    CutoffMoves(now, later);
    RawAfterAdding(table, all, Cutoff(now), added, later);
    DueAreInWindow(t, a, Cutoff(now), Cutoff(later));
    InWhere(Where(t, NotDue(Cutoff(later))) + Condense(due), NotBefore(later - 7776000), s);
    InWhere(t, NotDue(Cutoff(later)), s);
    CondenseMeaning(due, s);
    assert s in t <==> s in table;
    assert s in Condensed(t, later) <==> s.at >= later - 7776000 && (s in table || IsMeanOfHour(s, due));
    MeanOf(s, table, all, now, a, due, later);
    if s.at < Cutoff(now) { CondensedHoursAreComplete(all, added, KeyOf(s), now, later); }
  }

  lemma {:induction false} MeanOf(s: Sample, table: seq<Sample>, all: seq<Sample>, now: int, a: seq<Sample>,
                                  due: seq<Sample>, later: int)
    requires s.hourly && HoldsTheMeans(table, all, now) && due == Where(a, Window(Cutoff(now), Cutoff(later)))
    requires now <= later
    ensures IsMeanOfHour(s, due) <==> Cutoff(now) <= s.at < Cutoff(later) && IsMeanOfHour(s, a)
    ensures IsMeanOfHour(s, a) ==> KeyOf(s).hour == s.at
    ensures IsMeanOfHour(s, all) ==> KeyOf(s).hour == s.at
  {
    HoursAreAligned(s.at, 0);
    WindowHoldsWholeHours(a, KeyOf(s), now, later);
  }

  /** Which raw samples a run leaves behind: the recent ones, all of them. */
  lemma {:induction false} RawAfterRun(table: seq<Sample>, all: seq<Sample>, now: int, added: seq<Sample>, later: int)
    requires Where(table, IsRaw) == Where(all, NotBefore(Cutoff(now)))
    requires AllRaw(added) && AllAt(added, later) && now <= later
    ensures Where(Condensed(table + added, later), IsRaw) == Where(all + added, NotBefore(Cutoff(later)))
  {
    var t, a, cutoff := table + added, all + added, Cutoff(later);
    var kept, means := Where(t, NotDue(cutoff)), Condense(Where(t, Due(cutoff)));
    var purge := NotBefore(later - 7776000);
    CutoffMoves(now, later);
    RawAfterAdding(table, all, Cutoff(now), added, later);
    WhereOfTwo(kept, means, purge);
    WhereOfTwo(Where(kept, purge), Where(means, purge), IsRaw);
    forall i | 0 <= i < |Where(means, purge)| ensures !IsRaw(Where(means, purge)[i]) {
      var s := Where(means, purge)[i];
      InWhere(means, purge, s);
      CondenseMeaning(Where(t, Due(cutoff)), s);
    }
    WhereNone(Where(means, purge), IsRaw);
    var both: Sample -> bool := (s: Sample) => s.at >= later - 7776000 && !s.hourly;
    var recent: Sample -> bool := (s: Sample) => !s.hourly && s.at >= cutoff;
    WhereBoth(kept, purge, IsRaw, both);
    WhereBoth(t, NotDue(cutoff), both, recent);
    WhereBoth(t, IsRaw, NotBefore(cutoff), recent);
    WhereBoth(a, NotBefore(Cutoff(now)), NotBefore(cutoff), NotBefore(cutoff));
  }

  lemma {:induction false} OnePerBucketFiltered(s: seq<Sample>, p: Sample -> bool)
    requires OnePerBucket(s)
    ensures OnePerBucket(Where(s, p))
  {
    if s != [] {
      var rest := s[..|s| - 1];
      OnePerBucketFiltered(rest, p);
      forall i | 0 <= i < |Where(rest, p)| ensures Where(rest, p)[i] in rest {
        var x := Where(rest, p)[i];
        InWhere(rest, p, x);
      }
    }
  }

  lemma {:induction false} OnePerBucketJoined(a: seq<Sample>, b: seq<Sample>)
    requires OnePerBucket(a) && OnePerBucket(b)
    requires forall i, j | 0 <= i < |a| && 0 <= j < |b| :: a[i].hourly && b[j].hourly ==> KeyOf(a[i]) != KeyOf(b[j])
    ensures OnePerBucket(a + b)
  {}

  /** A run never adds a second mean for an hour that has one. */
  lemma {:induction false} OnePerBucketAfterRun(table: seq<Sample>, all: seq<Sample>, now: int, added: seq<Sample>,
                                                later: int)
    requires HoldsTheMeans(table, all, now) && Where(table, IsRaw) == Where(all, NotBefore(Cutoff(now)))
    requires AllRaw(added) && AllAt(added, later) && now <= later && OnePerBucket(table)
    ensures OnePerBucket(Condensed(table + added, later))
  {
    var t, a, cutoff := table + added, all + added, Cutoff(later);
    var kept, due := Where(t, NotDue(cutoff)), Where(t, Due(cutoff));
    var means := Condense(due);
    CutoffMoves(now, later);
    RawAfterAdding(table, all, Cutoff(now), added, later);
    DueAreInWindow(t, a, Cutoff(now), cutoff);
    OnePerBucketJoined(table, added);
    OnePerBucketFiltered(t, NotDue(cutoff));
    if means != [] { CondenseMeaning(due, means[0]); } else { assert OnePerBucket(means); }
    forall i, j | 0 <= i < |kept| && 0 <= j < |means| && kept[i].hourly ensures KeyOf(kept[i]) != KeyOf(means[j]) {
      var x, y := kept[i], means[j];
      InWhere(t, NotDue(cutoff), x);
      assert x in table;
      CondenseMeaning(due, y);
      MeanOf(y, table, all, now, a, due, later);
      MeanOf(x, table, all, now, a, due, later);
    }
    OnePerBucketJoined(kept, means);
    OnePerBucketFiltered(kept + means, NotBefore(later - 7776000));
  }

  // ---------- All runs ----------

  ghost predicate Faithful(table: seq<Sample>, all: seq<Sample>, now: int) {
    && Where(table, IsRaw) == Where(all, NotBefore(Cutoff(now)))
    && HoldsTheMeans(table, all, now)
    && OnePerBucket(table)
  }

  lemma {:induction false} RunKeepsFaith(table: seq<Sample>, all: seq<Sample>, now: int, added: seq<Sample>, later: int)
    requires Faithful(table, all, now) && AllRaw(added) && AllAt(added, later) && now <= later
    ensures Faithful(Condensed(table + added, later), all + added, later)
  {
    RawAfterRun(table, all, now, added, later);
    forall s: Sample | s.hourly
      ensures s in Condensed(table + added, later) <==> Kept(s.at, later) && IsMeanOfHour(s, all + added)
    {
      MeansAfterRun(table, all, now, added, later, s);
    }
    OnePerBucketAfterRun(table, all, now, added, later);
  }

  /** The instant of the run before, or of the first run itself. */
  ghost function Before(runs: seq<CollectionRun>): int
    requires runs != []
  {
    if |runs| == 1 then runs[0].now else runs[|runs| - 2].now
  }

  /** After any number of runs, the clock never going back, the table holds: of the
      raw samples exactly those not before the cutoff; for every earlier hour of
      the last 90 days exactly one sample a machine and volume, the mean over all
      that was ever collected in that hour; and nothing else. */
  lemma {:induction false} TableIsFunctionOfReadings(runs: seq<CollectionRun>)
    requires Forward(runs) && runs != []
    ensures Faithful(TableAfter(runs), Collected(runs), runs[|runs| - 1].now)
    ensures Faithful(TableAfter(runs[..|runs| - 1]), Collected(runs[..|runs| - 1]), Before(runs))
  {
    var n := |runs| - 1;
    var r := runs[n];
    if n > 0 { TableIsFunctionOfReadings(runs[..n]); }
    AddedIsRaw(r.clusters, r.now);
    RunKeepsFaith(TableAfter(runs[..n]), Collected(runs[..n]), Before(runs), Added(r.clusters, r.now), r.now);
  }

  lemma {:induction false} RawSplits(t: seq<Sample>, cutoff: int)
    ensures multiset(Where(t, Due(cutoff))) + multiset(Where(Where(t, IsRaw), NotBefore(cutoff)))
          == multiset(Where(t, IsRaw))
  {
    var early: Sample -> bool := (s: Sample) => s.at < cutoff;
    WhereBoth(t, IsRaw, early, Due(cutoff));
    WhereSplits(Where(t, IsRaw), early, NotBefore(cutoff));
  }

  lemma {:induction false} RunCondensesOnce(table: seq<Sample>, all: seq<Sample>, now: int, added: seq<Sample>,
                                            later: int)
    requires Faithful(table, all, now) && AllRaw(added) && AllAt(added, later) && now <= later
    ensures multiset(Where(table, IsRaw)) + multiset(added)
         == multiset(Where(table + added, Due(Cutoff(later)))) + multiset(Where(Condensed(table + added, later), IsRaw))
  {
    CutoffMoves(now, later);
    RawAfterAdding(table, all, Cutoff(now), added, later);
    RawAfterRun(table, all, now, added, later);
    WhereBoth(all + added, NotBefore(Cutoff(now)), NotBefore(Cutoff(later)), NotBefore(Cutoff(later)));
    RawSplits(table + added, Cutoff(later));
    WhereOfTwo(table, added, IsRaw);
    WhereAll(added, IsRaw);
  }

  /** No sample is lost before it is condensed and none is condensed twice. */
  lemma {:induction false} EverySampleIsCondensedOnce(runs: seq<CollectionRun>)
    requires Forward(runs)
    ensures multiset(Collected(runs)) == multiset(CondensedBy(runs)) + multiset(Where(TableAfter(runs), IsRaw))
  {
    if runs != [] {
      var n := |runs| - 1;
      var r := runs[n];
      EverySampleIsCondensedOnce(runs[..n]);
      TableIsFunctionOfReadings(runs);
      AddedIsRaw(r.clusters, r.now);
      var table, all, added := TableAfter(runs[..n]), Collected(runs[..n]), Added(r.clusters, r.now);
      RunCondensesOnce(table, all, Before(runs), added, r.now);
      assert Collected(runs) == all + added && TableAfter(runs) == Condensed(table + added, r.now);
      BooksBalance(all, CondensedBy(runs[..n]), Where(table, IsRaw), added, Where(table + added, Due(Cutoff(r.now))),
                   Where(Condensed(table + added, r.now), IsRaw));
    }
  }

  lemma {:induction false} BooksBalance(all: seq<Sample>, condensed: seq<Sample>, raw: seq<Sample>, added: seq<Sample>,
                                        due: seq<Sample>, left: seq<Sample>)
    requires multiset(all) == multiset(condensed) + multiset(raw)
    requires multiset(raw) + multiset(added) == multiset(due) + multiset(left)
    ensures multiset(all + added) == multiset(condensed + due) + multiset(left)
  {
    var c := multiset(condensed);
    assert multiset(all + added) == (c + multiset(raw)) + multiset(added);
    assert (c + multiset(raw)) + multiset(added) == c + (multiset(raw) + multiset(added));
    assert c + (multiset(due) + multiset(left)) == (c + multiset(due)) + multiset(left);
  }

  // ---------- What a mean keeps ----------

  /** An hourly mean times the number of its samples is their sum; the latency is
      weighted by IOPS, or the plain mean without any. */
  lemma {:induction false} MeanKeepsTotals(b: Bucket, items: seq<Sample>)
    requires items != []
    ensures
      var n, h := |items| as real, HourlySample(b, items).row;
      && h.iops * n == Total(items, SampleIops)
      && h.bandwidth * n == Total(items, SampleBandwidth)
      && (Total(items, SampleIops) != 0.0 ==> h.latency * Total(items, SampleIops) == Total(items, SampleWeighted))
      && (Total(items, SampleIops) == 0.0 ==> h.latency * n == Total(items, SampleLatency))
  {
    var n := |items| as real;
    RatioTimes(Total(items, SampleIops), n);
    RatioTimes(Total(items, SampleBandwidth), n);
    RatioTimes(Total(items, SampleLatency), n);
    if Total(items, SampleIops) != 0.0 { RatioTimes(Total(items, SampleWeighted), Total(items, SampleIops)); }
  }

  /** The number of disks is the highest of the hour, not their mean. */
  lemma {:induction false} DisksAreHighest(items: seq<Sample>, i: nat)
    requires i < |items|
    ensures items[i].row.disks <= MaxDisks(items)
    ensures exists j :: 0 <= j < |items| && items[j].row.disks == MaxDisks(items)
  {
    var n := |items| - 1;
    if n > 0 {
      DisksAreHighest(items[..n], if i < n then i else 0);
      var j :| 0 <= j < n && items[..n][j].row.disks == MaxDisks(items[..n]);
      assert items[j].row.disks == MaxDisks(items[..n]);
    }
  }

  // ---------- The log ----------

  /** How many lines are about the cluster. */
  ghost function LinesAbout(log: seq<Entry>, id: string): nat {
    if log == [] then 0 else LinesAbout(log[..|log| - 1], id) + if log[|log| - 1].id == id then 1 else 0
  }

  lemma {:induction false} LinesOfNote(log: seq<Entry>, note: Option<Entry>, id: string)
    ensures LinesAbout(log + Listed(note), id)
         == LinesAbout(log, id) + if note.Some? && note.value.id == id then 1 else 0
  {
    if note.Some? {
      assert (log + [note.value])[..|log|] == log;
    } else {
      assert log + [] == log;
    }
  }

  lemma {:induction false} NotedAboutItself(before: Option<Status>, c: Cluster, now: int)
    requires Noted(before, c, now).Some?
    ensures Noted(before, c, now).value.id == c.id
  {
  }

  /** One more cluster adds a line about itself, if its state changed. */
  lemma {:induction false} LinesNext(t: State, clusters: seq<Cluster>, now: int, id: string)
    requires clusters != []
    ensures
      var last, before := clusters[|clusters| - 1], AfterClusters(t, clusters[..|clusters| - 1], now);
      LinesAbout(AfterClusters(t, clusters, now).log, id)
      == LinesAbout(before.log, id)
         + if last.id == id && Noted(Previous(before.status, last.id), last, now).Some? then 1 else 0
  {
    var last, before := clusters[|clusters| - 1], AfterClusters(t, clusters[..|clusters| - 1], now);
    var note := Noted(Previous(before.status, last.id), last, now);
    LinesOfNote(before.log, note, id);
    if note.Some? { NotedAboutItself(Previous(before.status, last.id), last, now); }
  }

  /** The lines about a cluster after the first n clusters of a run. */
  ghost function LinesUpTo(t: State, clusters: seq<Cluster>, now: int, id: string, n: nat): nat
    requires n <= |clusters|
  {
    LinesAbout(AfterClusters(t, clusters[..n], now).log, id)
  }

  lemma {:induction false} NoLineOfOther(t: State, clusters: seq<Cluster>, now: int, id: string, n: nat)
    requires n < |clusters| && clusters[n].id != id
    ensures LinesUpTo(t, clusters, now, id, n + 1) == LinesUpTo(t, clusters, now, id, n)
  {
    LinesNext(t, clusters[..n + 1], now, id);
    assert clusters[..n + 1][..n] == clusters[..n];
  }

  lemma {:induction false} LinesOfLaterClusters(t: State, clusters: seq<Cluster>, now: int, id: string, m: nat, n: nat)
    requires m <= n <= |clusters| && forall i :: m <= i < n ==> clusters[i].id != id
    ensures LinesUpTo(t, clusters, now, id, n) == LinesUpTo(t, clusters, now, id, m)
    decreases n - m
  {
    if m < n {
      NoLineOfOther(t, clusters, now, id, m);
      LinesOfLaterClusters(t, clusters, now, id, m + 1, n);
    }
  }

  lemma {:induction false} LinesOfLast(t: State, clusters: seq<Cluster>, now: int)
    requires DistinctIds(clusters) && clusters != []
    ensures
      var last := clusters[|clusters| - 1];
      LinesAbout(AfterClusters(t, clusters, now).log, last.id)
      == LinesAbout(t.log, last.id) + if Noted(Previous(t.status, last.id), last, now).Some? then 1 else 0
  {
    var n := |clusters| - 1;
    LinesNext(t, clusters, now, clusters[n].id);
    LinesOfLaterClusters(t, clusters, now, clusters[n].id, 0, n);
    assert clusters[..0] == [];
    StatusSaysHowItWent(t, clusters, now, n);
  }

  /** A run writes at most one line about a cluster, by comparison with its status before. */
  lemma {:induction false} LinesOfRun(t: State, clusters: seq<Cluster>, now: int, k: nat)
    requires DistinctIds(clusters) && k < |clusters|
    ensures LinesAbout(AfterClusters(t, clusters, now).log, clusters[k].id)
         == LinesAbout(t.log, clusters[k].id)
            + if Noted(Previous(t.status, clusters[k].id), clusters[k], now).Some? then 1 else 0
  {
    LinesOfLaterClusters(t, clusters, now, clusters[k].id, k + 1, |clusters|);
    assert clusters[..|clusters|] == clusters;
    LinesOfLast(t, clusters[..k + 1], now);
  }

  lemma {:induction false} NothingNotedIff(first: Cluster, second: Cluster, earlier: int, now: int)
    ensures Noted(Some(StatusAfter(first, earlier)), second, now) == None
       <==> var a, b := first.reading, second.reading;
            if b.Failed? then a.Failed? && Cut(a.message) == Cut(b.message) else a.Failed? ==> a.message == ""
  {
  }

  /** After a run, the next one writes nothing about a cluster exactly when both
      reached it, or both failed with messages alike in their first 500 characters,
      or the first failed without a message and the second reached it. */
  lemma {:induction false} SilentIffUnchanged(s: State, first: seq<Cluster>, earlier: int, t: State,
                                              second: seq<Cluster>, now: int, j: nat, k: nat)
    requires DistinctIds(first) && DistinctIds(second) && j < |first| && k < |second| && first[j].id == second[k].id
    requires t.status == AfterClusters(s, first, earlier).status
    ensures
      var a, b, id := first[j].reading, second[k].reading, second[k].id;
      LinesAbout(AfterClusters(t, second, now).log, id) == LinesAbout(t.log, id)
      <==> if b.Failed? then a.Failed? && Cut(a.message) == Cut(b.message) else a.Failed? ==> a.message == ""
  {
    StatusSaysHowItWent(s, first, earlier, j);
    LinesOfRun(t, second, now, k);
    NothingNotedIff(first[j], second[k], earlier, now);
  }
}
