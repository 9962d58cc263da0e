/** Laws of the alert lifecycle: one active alert per key, the active set follows
    what is seen, and an unchanged situation changes nothing. */
module AlertLaws {
  import opened Wrappers
  import opened Alerts
  import Schedules
  import ScheduleCollisions
  import CollisionKeys

  ghost predicate IsActive(alerts: seq<Alert>, key: Key) {
    exists k :: 0 <= k < |alerts| && alerts[k].active && alerts[k].key == key
  }

  ghost predicate OnePerKey(alerts: seq<Alert>) {
    forall i, j :: 0 <= i < j < |alerts| && alerts[i].active && alerts[j].active ==> alerts[i].key != alerts[j].key
  }

  /** No two detections of the pass would trigger the same key. */
  ghost predicate DistinctTriggers(alerts: seq<Alert>, p: Pass) {
    TriggersDiffer(p.detections, ActiveByKey(alerts), p.allowed)
  }

  ghost predicate TriggersDiffer(detections: seq<Detection>, active: map<Key, nat>, allowed: set<string>) {
    forall i, j | 0 <= i < j < |detections| ::
      Triggers(detections[i], active, allowed) && Triggers(detections[j], active, allowed) ==>
        KeyOf(detections[i]) != KeyOf(detections[j])
  }

  // ---------------------------------------------------------------- the lookup and the new alerts

  lemma {:induction false} LookupFindsActive(alerts: seq<Alert>, key: Key)
    ensures key in ActiveByKey(alerts) <==> IsActive(alerts, key)
  {
    if alerts != [] {
      var n := |alerts| - 1;
      LookupFindsActive(alerts[..n], key);
      if k :| 0 <= k < |alerts| && alerts[k].active && alerts[k].key == key {
        if k < n { assert alerts[..n][k] == alerts[k]; }
      }
      if k :| 0 <= k < n && alerts[..n][k].active && alerts[..n][k].key == key { assert alerts[k].active; }
    }
  }

  lemma {:induction false} LookupFindsTheOne(alerts: seq<Alert>, k: nat)
    requires OnePerKey(alerts) && k < |alerts| && alerts[k].active
    ensures alerts[k].key in ActiveByKey(alerts) && ActiveByKey(alerts)[alerts[k].key] == k
  {
    LookupFindsActive(alerts, alerts[k].key);
    assert IsActive(alerts, alerts[k].key);
  }

  lemma {:induction false} TriggeredOrigin(detections: seq<Detection>, active: map<Key, nat>, p: Pass, m: nat)
    returns (k: nat)
    requires m < |TriggeredBy(detections, active, p)|
    ensures k < |detections| && Triggers(detections[k], active, p.allowed)
    ensures TriggeredBy(detections, active, p)[m] == Raised(detections[k], p.now)
  {
    var n := |detections| - 1;
    if m < |TriggeredBy(detections[..n], active, p)| {
      k := TriggeredOrigin(detections[..n], active, p, m);
    } else {
      k := n;
    }
  }

  lemma {:induction false} TriggeredPlace(detections: seq<Detection>, active: map<Key, nat>, p: Pass, k: nat)
    returns (m: nat)
    requires k < |detections| && Triggers(detections[k], active, p.allowed)
    ensures m < |TriggeredBy(detections, active, p)|
    ensures TriggeredBy(detections, active, p)[m] == Raised(detections[k], p.now)
    ensures m == |TriggeredBy(detections[..k], active, p)|
  {
    var n := |detections| - 1;
    if k < n {
      m := TriggeredPlace(detections[..n], active, p, k);
      assert detections[..n][..k] == detections[..k];
    } else {
      m := |TriggeredBy(detections[..n], active, p)|;
    }
  }

  lemma {:induction false} TriggeredGrows(detections: seq<Detection>, active: map<Key, nat>, p: Pass, j: nat, k: nat)
    requires j <= k <= |detections|
    ensures |TriggeredBy(detections[..j], active, p)| <= |TriggeredBy(detections[..k], active, p)|
    ensures j < k && Triggers(detections[j], active, p.allowed) ==>
              |TriggeredBy(detections[..j], active, p)| < |TriggeredBy(detections[..k], active, p)|
  {
    if j < k {
      TriggeredGrows(detections, active, p, j, k - 1);
      assert detections[..k][..k - 1] == detections[..k - 1];
    }
  }

  lemma {:induction false} TriggeredDistinct(alerts: seq<Alert>, p: Pass, a: nat, b: nat)
    requires DistinctTriggers(alerts, p) && a < b < |TriggeredBy(p.detections, ActiveByKey(alerts), p)|
    ensures
      var started := TriggeredBy(p.detections, ActiveByKey(alerts), p);
      started[a].key != started[b].key
  {
    TriggeredDistinctIn(alerts, p, p.detections, a, b);
  }

  lemma {:induction false} TriggeredDistinctIn(alerts: seq<Alert>, p: Pass, detections: seq<Detection>, a: nat, b: nat)
    requires TriggersDiffer(detections, ActiveByKey(alerts), p.allowed)
    requires a < b < |TriggeredBy(detections, ActiveByKey(alerts), p)|
    ensures
      var started := TriggeredBy(detections, ActiveByKey(alerts), p);
      started[a].key != started[b].key
  {
    var active, n := ActiveByKey(alerts), |detections| - 1;
    if b < |TriggeredBy(detections[..n], active, p)| {
      TriggeredDistinctIn(alerts, p, detections[..n], a, b);
    } else {
      var i := TriggeredOrigin(detections[..n], active, p, a);
      assert detections[..n][i] == detections[i];
    }
  }

  // ---------------------------------------------------------------- one active alert per key

  /** What is active after a check: old alerts that were not resolved, and the
      triggered ones. */
  lemma {:induction false} ActiveAfter(alerts: seq<Alert>, p: Pass, key: Key)
    requires OnePerKey(alerts)
    ensures IsActive(After(alerts, p), key)
       <==> || (exists k :: 0 <= k < |alerts| && alerts[k].active && alerts[k].key == key && !Resolves(alerts[k], p))
            || (exists k :: 0 <= k < |p.detections| && Triggers(p.detections[k], ActiveByKey(alerts), p.allowed) &&
                            KeyOf(p.detections[k]) == key)
  {
    var active, after := ActiveByKey(alerts), After(alerts, p);
    var started := TriggeredBy(p.detections, active, p);
    if IsActive(after, key) {
      var k :| 0 <= k < |after| && after[k].active && after[k].key == key;
      if k < |alerts| {
        assert alerts[k].active;
        LookupFindsTheOne(alerts, k);
      } else {
        assert after[k] == started[k - |alerts|];
        var d := TriggeredOrigin(p.detections, active, p, k - |alerts|);
      }
    }
    if k :| 0 <= k < |alerts| && alerts[k].active && alerts[k].key == key && !Resolves(alerts[k], p) {
      assert after[k] == alerts[k];
    }
    if k :| 0 <= k < |p.detections| && Triggers(p.detections[k], active, p.allowed) && KeyOf(p.detections[k]) == key {
      var m := TriggeredPlace(p.detections, active, p, k);
      assert after[|alerts| + m] == started[m];
    }
  }

  lemma {:induction false} TriggeredNotActive(alerts: seq<Alert>, p: Pass, m: nat)
    requires m < |TriggeredBy(p.detections, ActiveByKey(alerts), p)|
    ensures !IsActive(alerts, TriggeredBy(p.detections, ActiveByKey(alerts), p)[m].key)
  {
    var d := TriggeredOrigin(p.detections, ActiveByKey(alerts), p, m);
    LookupFindsActive(alerts, KeyOf(p.detections[d]));
  }

  lemma {:induction false} DistinctTriggersKeepOne(alerts: seq<Alert>, p: Pass, i: nat, j: nat)
    requires OnePerKey(alerts) && DistinctTriggers(alerts, p)
    requires i < j < |After(alerts, p)| && After(alerts, p)[i].active && After(alerts, p)[j].active
    ensures After(alerts, p)[i].key != After(alerts, p)[j].key
  {
    var n := |alerts|;
    if j >= n {
      TriggeredNotActive(alerts, p, j - n);
      if i >= n { TriggeredDistinct(alerts, p, i - n, j - n); }
    }
  }

  lemma {:induction false} OneNeedsDistinctTriggers(alerts: seq<Alert>, p: Pass, i: nat, j: nat)
    requires OnePerKey(After(alerts, p)) && i < j < |p.detections|
    requires Triggers(p.detections[i], ActiveByKey(alerts), p.allowed) &&
             Triggers(p.detections[j], ActiveByKey(alerts), p.allowed)
    ensures KeyOf(p.detections[i]) != KeyOf(p.detections[j])
  {
    var active, after := ActiveByKey(alerts), After(alerts, p);
    var started := TriggeredBy(p.detections, active, p);
    var a := TriggeredPlace(p.detections, active, p, i);
    var b := TriggeredPlace(p.detections, active, p, j);
    TriggeredGrows(p.detections, active, p, i, j);
    assert after[|alerts| + a] == started[a] && after[|alerts| + b] == started[b];
  }

  /** A check keeps one active alert per key exactly if its detectors do not
      trigger a key twice; the lookup is not extended while they run. */
  lemma {:induction false} OnePerKeyIffDistinctTriggers(alerts: seq<Alert>, p: Pass)
    requires OnePerKey(alerts)
    ensures OnePerKey(After(alerts, p)) <==> DistinctTriggers(alerts, p)
  {
    var after := After(alerts, p);
    if DistinctTriggers(alerts, p) {
      forall i: nat, j: nat | i < j < |after| && after[i].active && after[j].active
        ensures after[i].key != after[j].key
      {
        DistinctTriggersKeepOne(alerts, p, i, j);
      }
    }
    if OnePerKey(after) {
      forall i: nat, j: nat | i < j < |p.detections| && Triggers(p.detections[i], ActiveByKey(alerts), p.allowed)
                              && Triggers(p.detections[j], ActiveByKey(alerts), p.allowed)
        ensures KeyOf(p.detections[i]) != KeyOf(p.detections[j])
      {
        OneNeedsDistinctTriggers(alerts, p, i, j);
      }
    }
  }

  // ---------------------------------------------------------------- the active set follows what is seen

  /** For every condition that resolves itself: active after the check exactly if
      seen, except collisions that are allowed and were not active before. */
  lemma {:induction false} ActiveIffSeen(alerts: seq<Alert>, p: Pass, key: Key)
    requires OnePerKey(alerts) && ValidPass(p) && !key.0.BackupMissed?
    ensures IsActive(After(alerts, p), key)
       <==> key in SeenKeys(p.detections) &&
            (IsActive(alerts, key) || !(key.0.ScheduleCollision? && key.1 in p.allowed))
  {
    ActiveAfter(alerts, p, key);
    LookupFindsActive(alerts, key);
    if key in SeenKeys(p.detections) {
      var k :| 0 <= k < |p.detections| && p.detections[k] == Seen(key);
      assert KeyOf(p.detections[k]) == key;
      if IsActive(alerts, key) {
        var m :| 0 <= m < |alerts| && alerts[m].active && alerts[m].key == key;
        assert !Resolves(alerts[m], p);
      } else if !(key.0.ScheduleCollision? && key.1 in p.allowed) {
        assert Triggers(p.detections[k], ActiveByKey(alerts), p.allowed);
      }
    }
  }

  lemma {:induction false} RepeatedDetectionIsSilent(alerts: seq<Alert>, p: Pass, d: nat)
    requires OnePerKey(alerts) && ValidPass(p) && d < |p.detections| && p.detections[d].Seen?
    ensures !Triggers(p.detections[d], ActiveByKey(After(alerts, p)), p.allowed)
  {
    var key := p.detections[d].key;
    ActiveIffSeen(alerts, p, key);
    LookupFindsActive(After(alerts, p), key);
    assert key in SeenKeys(p.detections);
  }

  lemma {:induction false} SeenAlertStays(alerts: seq<Alert>, p: Pass, k: nat)
    requires OnePerKey(alerts) && ValidPass(p) && k < |After(alerts, p)| && !After(alerts, p)[k].key.0.BackupMissed?
    ensures After(After(alerts, p), p)[k] == After(alerts, p)[k]
  {
    var first := After(alerts, p);
    var key := first[k].key;
    ActiveIffSeen(alerts, p, key);
    LookupFindsActive(first, key);
  }

  /** An identical second check appends no alert of a condition that resolves itself
      and leaves every such alert as it is. */
  lemma {:induction false} SecondCheckChangesNothing(alerts: seq<Alert>, p: Pass)
    requires OnePerKey(alerts) && ValidPass(p)
    ensures
      var first, second := After(alerts, p), After(After(alerts, p), p);
      && (forall k :: 0 <= k < |first| && !first[k].key.0.BackupMissed? ==> second[k] == first[k])
      && (forall k :: |first| <= k < |second| ==> second[k].key.0.BackupMissed?)
  {
    var first, second := After(alerts, p), After(After(alerts, p), p);
    forall k | 0 <= k < |first| && !first[k].key.0.BackupMissed? ensures second[k] == first[k] {
      SeenAlertStays(alerts, p, k);
    }
    forall k | |first| <= k < |second| ensures second[k].key.0.BackupMissed? {
      var d := TriggeredOrigin(p.detections, ActiveByKey(first), p, k - |first|);
      if p.detections[d].Seen? { RepeatedDetectionIsSilent(alerts, p, d); }
    }
  }

  // ---------------------------------------------------------------- every row of the board

  /** The run was for the alert's group and policy, or for the whole policy; it started
      after the alert and succeeded, be it with errors. */
  ghost predicate MakesUp(r: RunRow, a: Alert) {
    && a.policyId == Some(r.policyId) && r.policyId != "" && a.groupId.Some? && a.groupId != Some("")
    && (r.groupId == a.groupId || r.groupId == None)
    && (r.status == Succeeded || r.status == SucceededWithErrors) && r.startedAt > a.triggeredAt
  }

  ghost predicate IsOld(a: Alert, p: Pass) {
    p.dismissAfter.Some? && a.triggeredAt + p.dismissAfter.value < p.now
  }

  /** A missed run was made up for or its alert is old; any other condition is not seen. */
  ghost predicate Over(a: Alert, p: Pass) {
    if a.key.0.BackupMissed? then (exists r :: r in p.runs && MakesUp(r, a)) || IsOld(a, p)
    else forall k :: 0 <= k < |p.detections| ==> p.detections[k] != Seen(a.key)
  }

  lemma {:induction false} ResolvedIffOver(a: Alert, p: Pass)
    ensures Resolves(a, p) <==> Over(a, p)
  {
    if a.key.0.BackupMissed? {
      assert forall r :: Recovers(r, a) <==> MakesUp(r, a);
    }
  }

  /** A row that was there stays as it is, unless it is active and what it reports is
      over: then it ends now. */
  lemma {:induction false} OldRowAfter(alerts: seq<Alert>, p: Pass, k: nat)
    requires OnePerKey(alerts) && k < |alerts|
    ensures After(alerts, p)[k]
         == if alerts[k].active && Over(alerts[k], p) then alerts[k].(active := false, resolvedAt := Some(p.now))
            else alerts[k]
  {
    ResolvedIffOver(alerts[k], p);
    if alerts[k].active { LookupFindsTheOne(alerts, k); }
  }

  /** The detection finds no active alert; a collision is not allowed, a missed run
      not covered. */
  ghost predicate IsNews(alerts: seq<Alert>, p: Pass, d: Detection) {
    match d
    case Seen(key) => !IsActive(alerts, key) && (key.0 == ScheduleCollision ==> key.1 !in p.allowed)
    case Missed(occurrence, _, _, covered) => !IsActive(alerts, (BackupMissed, occurrence)) && !covered
  }

  /** The row a detection leaves: active from now, with group and policy of a missed run. */
  ghost predicate IsRowFor(a: Alert, d: Detection, now: int) {
    && a.active && a.triggeredAt == now && a.resolvedAt == None
    && match d
       case Seen(key) => a.key == key && a.groupId == None && a.policyId == None
       case Missed(occurrence, groupId, policyId, _) =>
         a.key == (BackupMissed, occurrence) && a.groupId == Some(groupId) && a.policyId == Some(policyId)
  }

  lemma {:induction false} NewsTriggers(alerts: seq<Alert>, p: Pass, d: Detection, a: Alert)
    ensures Triggers(d, ActiveByKey(alerts), p.allowed) <==> IsNews(alerts, p, d)
    ensures a == Raised(d, p.now) <==> IsRowFor(a, d, p.now)
  {
    LookupFindsActive(alerts, KeyOf(d));
  }

  /** The rows a check adds are those of the detections that are news. */
  lemma {:induction false} NewRowsAre(alerts: seq<Alert>, p: Pass, a: Alert)
    ensures (exists m :: |alerts| <= m < |After(alerts, p)| && After(alerts, p)[m] == a)
       <==> (exists d :: 0 <= d < |p.detections| && IsNews(alerts, p, p.detections[d])
                      && IsRowFor(a, p.detections[d], p.now))
  {
    var active, after := ActiveByKey(alerts), After(alerts, p);
    if m :| |alerts| <= m < |after| && after[m] == a {
      var d := TriggeredOrigin(p.detections, active, p, m - |alerts|);
      NewsTriggers(alerts, p, p.detections[d], a);
    }
    if d :| 0 <= d < |p.detections| && IsNews(alerts, p, p.detections[d]) && IsRowFor(a, p.detections[d], p.now) {
      NewsTriggers(alerts, p, p.detections[d], a);
      var m := TriggeredPlace(p.detections, active, p, d);
      assert after[|alerts| + m] == a;
    }
  }

  /** An alert for a missed run ends exactly when a run of its group or of its whole
      policy, started after the alert, succeeded, or when the alert is old enough. */
  lemma {:induction false} MissedStaysUntilRecovered(alerts: seq<Alert>, p: Pass, k: nat)
    requires OnePerKey(alerts) && k < |alerts| && alerts[k].active && alerts[k].key.0.BackupMissed?
    ensures !After(alerts, p)[k].active
       <==> || (exists r :: r in p.runs && MakesUp(r, alerts[k]))
            || (p.dismissAfter.Some? && alerts[k].triggeredAt + p.dismissAfter.value < p.now)
  {
    OldRowAfter(alerts, p, k);
  }

  /** Detection d reports the run missed and uncovered. */
  ghost predicate Uncovered(d: Detection, occurrence: string) {
    d.Missed? && d.occurrence == occurrence && !d.covered
  }

  /** A check adds a row for a missed run exactly if it reports the run uncovered and
      no alert for it is active before; ended alerts are not looked up. */
  lemma {:induction false} MissedRowAddedIff(alerts: seq<Alert>, p: Pass, occurrence: string)
    requires ValidPass(p)
    ensures (exists m :: |alerts| <= m < |After(alerts, p)| && After(alerts, p)[m].key == (BackupMissed, occurrence))
       <==> && (exists d :: 0 <= d < |p.detections| && Uncovered(p.detections[d], occurrence))
            && !IsActive(alerts, (BackupMissed, occurrence))
  {
    var key, active, after := (BackupMissed, occurrence), ActiveByKey(alerts), After(alerts, p);
    LookupFindsActive(alerts, key);
    if m :| |alerts| <= m < |after| && after[m].key == key {
      var d := TriggeredOrigin(p.detections, active, p, m - |alerts|);
      assert Uncovered(p.detections[d], occurrence);
    }
    if d :| 0 <= d < |p.detections| && Uncovered(p.detections[d], occurrence) && !IsActive(alerts, key) {
      var m := TriggeredPlace(p.detections, active, p, d);
      assert after[|alerts| + m].key == key;
    }
  }

  // ---------------------------------------------------------------- whole runs

  ghost function RunAll(alerts: seq<Alert>, passes: seq<Pass>): (r: seq<Alert>)
    ensures |r| >= |alerts|
  {
    if passes == [] then alerts else After(RunAll(alerts, passes[..|passes| - 1]), passes[|passes| - 1])
  }

  lemma {:induction false} ResolvedIsInactive(alerts: seq<Alert>, p: Pass, k: nat)
    requires OnePerKey(alerts) && k < |alerts| && alerts[k].active && Resolves(alerts[k], p)
    ensures After(alerts, p)[k] == Resolved(alerts[k], p.now) && !IsActive(After(alerts, p), alerts[k].key)
  {
    var key, after := alerts[k].key, After(alerts, p);
    LookupFindsTheOne(alerts, k);
    assert IsActive(alerts, key);
    forall m | 0 <= m < |after| && after[m].active ensures after[m].key != key {
      if m >= |alerts| {
        TriggeredNotActive(alerts, p, m - |alerts|);
      } else if m != k {
        assert alerts[m].active && alerts[m].key != key;
      }
    }
  }

  /** An ended alert for a missed run returns with the next check that still finds the
      run uncovered: the key then has an ended row and a new one. */
  lemma {:induction false} MissedReturns(alerts: seq<Alert>, ending: Pass, next: Pass, k: nat, occurrence: string)
    requires OnePerKey(alerts) && k < |alerts| && alerts[k].active && alerts[k].key == (BackupMissed, occurrence)
    requires Over(alerts[k], ending)
    requires exists d :: 0 <= d < |next.detections| && Uncovered(next.detections[d], occurrence)
    ensures
      var after := RunAll(alerts, [ending, next]);
      && after[k] == alerts[k].(active := false, resolvedAt := Some(ending.now))
      && exists m :: |alerts| <= m < |after| && after[m].key == alerts[k].key && after[m].active
                     && after[m].triggeredAt == next.now && after[m].resolvedAt == None
  {
    var key, between := alerts[k].key, After(alerts, ending);
    assert [ending, next][..1] == [ending] && [ending][..0] == [];
    assert RunAll(alerts, [ending]) == between;
    var after := RunAll(alerts, [ending, next]);
    assert after == After(between, next);
    ResolvedIffOver(alerts[k], ending);
    ResolvedIsInactive(alerts, ending, k);
    LookupFindsActive(between, key);
    var d :| 0 <= d < |next.detections| && Uncovered(next.detections[d], occurrence);
    var m := TriggeredPlace(next.detections, ActiveByKey(between), next, d);
    assert after[|between| + m] == Raised(next.detections[d], next.now);
  }

  /** One run in full: three checks report the same uncovered run, and a run that
      succeeded after the first is known at the second. */
  lemma {:induction false} MissedReturnsFromNothing(first: Pass, ending: Pass, next: Pass, d: Detection, r: RunRow)
    requires first.detections == ending.detections == next.detections == [d]
    requires d.Missed? && !d.covered && d.groupId != "" && d.policyId != ""
    requires r in ending.runs && r.policyId == d.policyId && (r.groupId == Some(d.groupId) || r.groupId == None)
    requires (r.status == Succeeded || r.status == SucceededWithErrors) && r.startedAt > first.now
    ensures
      var key, g, p := (BackupMissed, d.occurrence), Some(d.groupId), Some(d.policyId);
      RunAll([], [first, ending, next])
      == [Alert(key, false, first.now, Some(ending.now), g, p), Alert(key, true, next.now, None, g, p)]
  {
    var raised := Raised(d, first.now);
    var ended := Resolved(raised, ending.now);
    assert Recovers(r, raised);
    OneReport([], first, d);
    OneReport([raised], ending, d);
    OneReport([ended], next, d);
    RunOfThree([], first, ending, next);
    assert [ended] + [Raised(d, next.now)] == [ended, Raised(d, next.now)];
  }

  lemma {:induction false} RunOfThree(alerts: seq<Alert>, a: Pass, b: Pass, c: Pass)
    ensures RunAll(alerts, [a, b, c]) == After(After(After(alerts, a), b), c)
  {
    assert [a, b, c][..2] == [a, b] && [a, b][..1] == [a] && [a][..0] == [];
    assert RunAll(alerts, [a]) == After(alerts, a);
    assert RunAll(alerts, [a, b]) == After(After(alerts, a), b);
  }

  /** A check that reports one uncovered run, on a board of at most one row. */
  lemma {:induction false} OneReport(alerts: seq<Alert>, p: Pass, d: Detection)
    requires p.detections == [d] && d.Missed? && !d.covered && |alerts| <= 1
    requires alerts != [] ==> alerts[0].key == KeyOf(d)
    ensures After(alerts, p)
         == if alerts == [] then [Raised(d, p.now)]
            else if !alerts[0].active then alerts + [Raised(d, p.now)]
            else if Resolves(alerts[0], p) then [Resolved(alerts[0], p.now)]
            else alerts
  {
    assert p.detections[..0] == [];
    assert alerts != [] ==> alerts[..0] == [];
    assert TriggeredBy(p.detections[..0], ActiveByKey(alerts), p) == [];
  }

  /** Over every run whose passes report distinct keys, no key has two active alerts. */
  lemma {:induction false} AlwaysOnePerKey(passes: seq<Pass>)
    requires forall k :: 0 <= k < |passes| ==> DistinctKeys(passes[k].detections)
    ensures OnePerKey(RunAll([], passes))
  {
    if passes != [] {
      var n := |passes| - 1;
      AlwaysOnePerKey(passes[..n]);
      OnePerKeyIffDistinctTriggers(RunAll([], passes[..n]), passes[n]);
    }
  }

  ghost predicate DistinctKeys(detections: seq<Detection>) {
    forall i, j :: 0 <= i < j < |detections| ==> KeyOf(detections[i]) != KeyOf(detections[j])
  }

  // ---------------------------------------------------------------- schedule collisions

  ghost function CollisionDetections(clusters: seq<ScheduleCollisions.Cluster>): (r: seq<Detection>)
    ensures |r| == |clusters| && forall k :: 0 <= k < |clusters| ==> r[k] == Seen((ScheduleCollision, clusters[k].key))
  {
    seq(|clusters|, k requires 0 <= k < |clusters| => Seen((ScheduleCollision, clusters[k].key)))
  }

  /** The collision detector reports distinct keys, so it meets that condition. */
  lemma {:induction false} CollisionKeysAreDistinct(links: seq<Schedules.Link>, threshold: int)
    requires Schedules.LoadedLinks(links) && CollisionKeys.PlainIds(links)
    ensures
      var clusters := ScheduleCollisions.Collisions(ScheduleCollisions.SlotsOf(links), threshold);
      DistinctKeys(CollisionDetections(clusters))
  {
    var clusters := ScheduleCollisions.Collisions(ScheduleCollisions.SlotsOf(links), threshold);
    forall i, j | 0 <= i < j < |clusters| ensures clusters[i].key != clusters[j].key {
      CollisionKeys.ReportedKeysDiffer(links, threshold, i, j);
    }
  }
}
