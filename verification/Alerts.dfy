/** The alert lifecycle: detectors report what they see, unknown conditions are
    triggered, and active alerts that are no longer seen are resolved. */
module Alerts {
  import opened Wrappers
  import opened Texts

  datatype Kind = BackupMissed | ScheduleCollision | Other(name: string)

  type Key = (Kind, string)

  /** A row of the alert table; group and policy are set for missed runs. */
  datatype Alert = Alert(key: Key, active: bool, triggeredAt: int, resolvedAt: Option<int>,
                         groupId: Option<string>, policyId: Option<string>)

  datatype RunStatus =
    | Pending | Running | Succeeded | SucceededWithErrors | Failed | CleaningUp | CleanedUpAfterFailure | Cancelled

  /** A row of the run table; it names no group when it covers the whole policy. */
  datatype RunRow = RunRow(policyId: string, groupId: Option<string>, startedAt: int, status: RunStatus)

  /** What the detectors of one check report, in order: a condition that resolves
      itself once it is gone, or a missed run, covered if a run was found for it. */
  datatype Detection =
    | Seen(key: Key)
    | Missed(occurrence: string, groupId: string, policyId: string, covered: bool)

  /** One check, with the run table it meets; dismissAfter is the age for automatic
      dismissal, if set. */
  datatype Pass = Pass(now: int, detections: seq<Detection>, allowed: set<string>, runs: seq<RunRow>,
                       dismissAfter: Option<int>)

  function KeyOf(d: Detection): Key {
    match d case Seen(key) => key case Missed(occurrence, _, _, _) => (BackupMissed, occurrence)
  }

  /** The alert a detection starts. */
  function Raised(d: Detection, now: int): Alert {
    match d
    case Seen(key) => Alert(key, true, now, None, None, None)
    case Missed(_, groupId, policyId, _) => Alert(KeyOf(d), true, now, None, Some(groupId), Some(policyId))
  }

  // ---------------------------------------------------------------- recovery

  /** The run was for the group and policy, or for the whole policy. */
  predicate RunsFor(r: RunRow, groupId: string, policyId: string) {
    r.policyId == policyId && (r.groupId == Some(groupId) || r.groupId == None)
  }

  predicate Success(r: RunRow) {
    r.status.Succeeded? || r.status.SucceededWithErrors?
  }

  /** The run makes up for what the alert reports. */
  predicate Recovers(r: RunRow, a: Alert) {
    && Filled(a.groupId) && Filled(a.policyId)
    && RunsFor(r, a.groupId.value, a.policyId.value) && Success(r) && r.startedAt > a.triggeredAt
  }

  predicate Recovered(a: Alert, runs: seq<RunRow>) {
    exists r :: r in runs && Recovers(r, a)
  }

  predicate Aged(a: Alert, p: Pass) {
    p.dismissAfter.Some? && a.triggeredAt < p.now - p.dismissAfter.value
  }

  // ---------------------------------------------------------------- one check

  /** Detectors never report missed runs as self-resolving. */
  ghost predicate ValidPass(p: Pass) {
    forall k :: 0 <= k < |p.detections| && p.detections[k].Seen? ==> !p.detections[k].key.0.BackupMissed?
  }

  /** The active alert of each key; a later row wins. */
  function ActiveByKey(alerts: seq<Alert>): (r: map<Key, nat>)
    ensures forall key :: key in r ==> r[key] < |alerts| && alerts[r[key]].active && alerts[r[key]].key == key
  {
    if alerts == [] then map[]
    else
      var n := |alerts| - 1;
      if alerts[n].active then ActiveByKey(alerts[..n])[alerts[n].key := n] else ActiveByKey(alerts[..n])
  }

  function SeenKeys(detections: seq<Detection>): (r: set<Key>)
    ensures forall key :: key in r <==> exists k :: 0 <= k < |detections| && detections[k] == Seen(key)
  {
    set k | 0 <= k < |detections| && detections[k].Seen? :: detections[k].key
  }

  /** The detection starts a new alert, given the keys active before the check. */
  predicate Triggers(d: Detection, active: map<Key, nat>, allowed: set<string>) {
    && KeyOf(d) !in active
    && match d
       case Seen(key) => !(key.0.ScheduleCollision? && key.1 in allowed)
       case Missed(_, _, _, covered) => !covered
  }

  function TriggeredBy(detections: seq<Detection>, active: map<Key, nat>, p: Pass): seq<Alert> {
    if detections == [] then []
    else
      var n := |detections| - 1;
      TriggeredBy(detections[..n], active, p)
      + (if Triggers(detections[n], active, p.allowed) then [Raised(detections[n], p.now)] else [])
  }

  /** The check ends this active alert. */
  predicate Resolves(a: Alert, p: Pass) {
    if a.key.0.BackupMissed? then Recovered(a, p.runs) || Aged(a, p)
    else a.key !in SeenKeys(p.detections)
  }

  function Resolved(a: Alert, now: int): Alert {
    a.(active := false, resolvedAt := Some(now))
  }

  function After(alerts: seq<Alert>, p: Pass): (r: seq<Alert>)
    ensures |r| >= |alerts|
  {
    var active := ActiveByKey(alerts);
    seq(|alerts|, k requires 0 <= k < |alerts| =>
      if alerts[k].key in active && active[alerts[k].key] == k && Resolves(alerts[k], p) then Resolved(alerts[k], p.now)
      else alerts[k])
    + TriggeredBy(p.detections, active, p)
  }

  class Board {
    var alerts: seq<Alert>

    constructor ()
      ensures alerts == []
    {
      alerts := [];
    }

    method Run(p: Pass)
      requires ValidPass(p)
      modifies this
      ensures alerts == After(old(alerts), p)
    {
      var before := alerts;
      var active := ActiveByKey(alerts);
      var seen: set<Key> := {};
      for k := 0 to |p.detections|
        invariant seen == SeenKeys(p.detections[..k])
        invariant alerts == before + TriggeredBy(p.detections[..k], active, p)
      {
        var d := p.detections[k];
        assert p.detections[..k + 1] == p.detections[..k] + [d] && p.detections[..k + 1][..k] == p.detections[..k];
        SeenNext(p.detections[..k], d);
        if d.Seen? {
          seen := seen + {d.key};
        }
        Detect(d, active, p);
      }
      assert p.detections[..|p.detections|] == p.detections;
      ResolveUnseen(active, seen, p, before);
    }

    /** A condition that is not active yet starts an alert, unless it is an allowed
        collision or a run that is covered. */
    method Detect(d: Detection, active: map<Key, nat>, p: Pass)
      modifies this
      ensures alerts == old(alerts) + (if Triggers(d, active, p.allowed) then [Raised(d, p.now)] else [])
    {
      if d.Seen? {
        if !(d.key.0.ScheduleCollision? && d.key.1 in p.allowed) && d.key !in active {
          alerts := alerts + [Raised(d, p.now)];
        }
      } else if KeyOf(d) !in active && !d.covered {
        alerts := alerts + [Raised(d, p.now)];
      }
    }

    /** Ends the alerts that were active before the check and are not to stay. */
    method ResolveUnseen(active: map<Key, nat>, seen: set<Key>, p: Pass, before: seq<Alert>)
      requires active == ActiveByKey(before) && seen == SeenKeys(p.detections)
      requires alerts == before + TriggeredBy(p.detections, active, p)
      modifies this
      ensures alerts == After(before, p)
    {
      for k := 0 to |before|
        invariant |alerts| == |before| + |TriggeredBy(p.detections, active, p)|
        invariant forall i :: 0 <= i < |alerts| ==>
                  alerts[i] == if i < k then After(before, p)[i] else (before + TriggeredBy(p.detections, active, p))[i]
      {
        if alerts[k].key in active && active[alerts[k].key] == k {
          if alerts[k].key.0.BackupMissed? {
            if Recovered(alerts[k], p.runs) || Aged(alerts[k], p) {
              alerts := alerts[k := Resolved(alerts[k], p.now)];
            }
          } else if alerts[k].key !in seen {
            alerts := alerts[k := Resolved(alerts[k], p.now)];
          }
        }
      }
    }
  }

  lemma {:induction false} SeenNext(detections: seq<Detection>, d: Detection)
    ensures SeenKeys(detections + [d]) == if d.Seen? then SeenKeys(detections) + {d.key} else SeenKeys(detections)
  {
    var longer := detections + [d];
    assert longer[|detections|] == d && forall k :: 0 <= k < |detections| ==> longer[k] == detections[k];
    forall key | key in SeenKeys(longer) && !(d.Seen? && key == d.key) ensures key in SeenKeys(detections) {
      var k :| 0 <= k < |longer| && longer[k] == Seen(key);
      assert detections[k] == Seen(key);
    }
    forall key | key in SeenKeys(detections) ensures key in SeenKeys(longer) {
      var k :| 0 <= k < |detections| && detections[k] == Seen(key);
      assert longer[k] == Seen(key);
    }
  }
}
