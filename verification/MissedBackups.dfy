/** The search for missed backups: every planned instant of the last two days that no
    run covers is reported, unless a pause excuses it. */
module MissedBackups {
  import opened Wrappers
  import opened Texts
  import opened Schedules
  import opened Occurrences
  import opened BackupTicks
  import Alerts
  import AlertLaws

  const LOOKBACK := 172_800_000_000      // 48 hours

  // ---------------------------------------------------------------- pauses

  /** The pause columns of a group, policy or schedule. */
  datatype PauseWindow = PauseWindow(since: Option<int>, until: Option<int>)

  predicate InWindow(w: PauseWindow, t: int) {
    w.since.Some? && t >= w.since.value && (w.until.None? || t <= w.until.value)
  }

  datatype Toggle = Pause(at: int) | Resume(at: int)

  datatype Switch = Switch(paused: bool, window: PauseWindow)

  function Toggled(s: Switch, e: Toggle): Switch {
    match e
    case Pause(at) => Switch(true, PauseWindow(Some(at), None))
    case Resume(at) => Switch(false, if s.window.since.Some? then s.window.(until := Some(at)) else s.window)
  }

  /** The row of a group, policy or schedule that its pause and resume actions update. */
  class PausableRow {
    var paused: bool
    var pausedSince: Option<int>
    var pausedUntil: Option<int>

    function State(): Switch
      reads this
    {
      Switch(paused, PauseWindow(pausedSince, pausedUntil))
    }

    constructor ()
      ensures State() == Switch(false, PauseWindow(None, None))
    {
      paused, pausedSince, pausedUntil := false, None, None;
    }

    method Pause(now: int)
      modifies this
      ensures State() == Toggled(old(State()), Toggle.Pause(now))
    {
      paused := true;
      pausedSince := Some(now);
      pausedUntil := None;
    }

    /** Closes the window instead of clearing it. */
    method Resume(now: int)
      modifies this
      ensures State() == Toggled(old(State()), Toggle.Resume(now))
    {
      paused := false;
      if pausedSince != None {
        pausedUntil := Some(now);
      }
    }
  }

  /** The row after the events so far, oldest first. */
  ghost function Toggles(events: seq<Toggle>): Switch {
    if events == [] then Switch(false, PauseWindow(None, None))
    else Toggled(Toggles(events[..|events| - 1]), events[|events| - 1])
  }

  /** What the flag says at an instant: the last event up to then decides. */
  ghost predicate PausedAt(events: seq<Toggle>, t: int) {
    if events == [] then false
    else if events[|events| - 1].at <= t then events[|events| - 1].Pause?
    else PausedAt(events[..|events| - 1], t)
  }

  ghost function LastPause(events: seq<Toggle>): Option<int> {
    if events == [] then None
    else if events[|events| - 1].Pause? then Some(events[|events| - 1].at)
    else LastPause(events[..|events| - 1])
  }

  lemma {:induction false} WindowBeginsAtLastPause(events: seq<Toggle>)
    ensures Toggles(events).window.since == LastPause(events)
  {
    if events != [] { WindowBeginsAtLastPause(events[..|events| - 1]); }
  }

  lemma {:induction false} PausedSomewhere(events: seq<Toggle>, t: int)
    requires PausedAt(events, t)
    ensures LastPause(events).Some?
  {
    var n := |events| - 1;
    if events[n].at > t { PausedSomewhere(events[..n], t); }
  }

  /** An instant at which something was paused is excused exactly if it lies in the
      latest pause: pausing again forgets the window before. */
  lemma {:induction false} PauseExcusesIffLatest(events: seq<Toggle>, t: int)
    requires PausedAt(events, t)
    ensures LastPause(events).Some?
    ensures InWindow(Toggles(events).window, t) <==> t >= LastPause(events).value
  {
    var n := |events| - 1;
    WindowBeginsAtLastPause(events);
    PausedSomewhere(events, t);
    if events[n].Resume? {
      WindowBeginsAtLastPause(events[..n]);
      assert events[n].at > t;
    }
  }

  // What the window says of every instant, paused or not.

  /** The place of the latest pause; only resumes follow it. */
  lemma {:induction false} LatestPauseAt(events: seq<Toggle>) returns (p: nat)
    requires LastPause(events).Some?
    ensures p < |events| && events[p] == Pause(LastPause(events).value)
    ensures forall i :: p < i < |events| ==> events[i].Resume?
  {
    var n := |events| - 1;
    if events[n].Pause? {
      p := n;
    } else {
      p := LatestPauseAt(events[..n]);
    }
  }

  /** The window reaches from the latest pause to the latest event, or on and on while
      no resume has followed the pause. */
  lemma {:induction false} WindowIsExactly(events: seq<Toggle>, t: int)
    ensures InWindow(Toggles(events).window, t)
       <==> && LastPause(events).Some? && LastPause(events).value <= t
            && (events[|events| - 1].Resume? ==> t <= events[|events| - 1].at)
  {
    WindowBeginsAtLastPause(events);
    if events != [] { WindowBeginsAtLastPause(events[..|events| - 1]); }
  }

  ghost predicate Chronological(events: seq<Toggle>) {
    forall i, j :: 0 <= i < j < |events| ==> events[i].at <= events[j].at
  }

  /** The instant lies between a pause and the event after it, both included. */
  ghost predicate WithinAPause(events: seq<Toggle>, t: int) {
    exists i :: 0 <= i < |events| && events[i].Pause? && events[i].at <= t
             && (i + 1 < |events| ==> t <= events[i + 1].at)
  }

  lemma {:induction false} PausedIsWithinAPause(events: seq<Toggle>, t: int)
    requires PausedAt(events, t)
    ensures WithinAPause(events, t)
  {
    var n := |events| - 1;
    if events[n].at > t {
      PausedIsWithinAPause(events[..n], t);
      var i :| 0 <= i < n && events[i].Pause? && events[i].at <= t && (i + 1 < n ==> t <= events[..n][i + 1].at);
      assert i + 1 < |events| ==> t <= events[i + 1].at;
    }
  }

  /** The latest event up to an instant says whether something is paused then. */
  lemma {:induction false} EventDecides(events: seq<Toggle>, i: nat, t: int)
    requires i < |events| && events[i].at <= t && forall k :: i < k < |events| ==> t < events[k].at
    ensures PausedAt(events, t) <==> events[i].Pause?
  {
    if i < |events| - 1 { EventDecides(events[..|events| - 1], i, t); }
  }

  /** Within a pause are the instants at which something is paused, and those at which
      the event after a pause happens. */
  lemma {:induction false} WithinIffPausedOrEnding(events: seq<Toggle>, t: int)
    requires Chronological(events)
    ensures WithinAPause(events, t)
       <==> || PausedAt(events, t)
            || exists i :: 0 < i < |events| && events[i - 1].Pause? && events[i].at == t
  {
    if PausedAt(events, t) {
      PausedIsWithinAPause(events, t);
    }
    if i :| 0 < i < |events| && events[i - 1].Pause? && events[i].at == t {
      assert events[i - 1].at <= events[i].at;
      assert 0 <= i - 1 && events[i - 1].Pause? && events[i - 1].at <= t && t <= events[i - 1 + 1].at;
    }
    if i :| 0 <= i < |events| && events[i].Pause? && events[i].at <= t && (i + 1 < |events| ==> t <= events[i + 1].at) {
      if i + 1 < |events| && t == events[i + 1].at {
        assert events[i + 1 - 1].Pause?;
      } else {
        assert forall k :: i < k < |events| ==> events[i + 1].at <= events[k].at;
        EventDecides(events, i, t);
      }
    }
  }

  /** After the latest pause a later resume followed a resume: the row was resumed
      while nothing was paused. */
  ghost predicate ResumedAgain(events: seq<Toggle>) {
    exists p, i, j | 0 <= p < i < j < |events| ::
      && events[p].Pause? && (forall k :: p < k < |events| ==> events[k].Resume?)
      && events[i].at < events[j].at
  }

  lemma {:induction false} ResumedOnceExcusesPausedOnly(events: seq<Toggle>, t: int)
    requires Chronological(events) && !ResumedAgain(events) && InWindow(Toggles(events).window, t)
    ensures WithinAPause(events, t)
  {
    WindowIsExactly(events, t);
    var p := LatestPauseAt(events);
    var n := |events| - 1;
    if p + 1 < n {
      assert events[p + 1].at <= events[n].at;
      assert !(events[p + 1].at < events[n].at);
    }
    assert events[p].Pause? && events[p].at <= t && (p + 1 < |events| ==> t <= events[p + 1].at);
  }

  lemma {:induction false} ResumedAgainExcusesMore(events: seq<Toggle>) returns (t: int)
    requires Chronological(events) && ResumedAgain(events)
    ensures InWindow(Toggles(events).window, t) && !WithinAPause(events, t)
  {
    var p, i, j :| 0 <= p < i < j < |events| && events[p].Pause? && (forall k :: p < k < |events| ==> events[k].Resume?)
                   && events[i].at < events[j].at;
    t := events[|events| - 1].at;
    LatestPauseIs(events, p);
    WindowIsExactly(events, t);
    PausesEndBefore(events, p, i, j);
  }

  lemma {:induction false} PausesEndBefore(events: seq<Toggle>, p: nat, i: nat, j: nat)
    requires Chronological(events) && p < i < j < |events| && events[i].at < events[j].at
    requires forall k :: p < k < |events| ==> events[k].Resume?
    ensures !WithinAPause(events, events[|events| - 1].at)
  {
    var n := |events| - 1;
    assert events[j].at <= events[n].at;
    forall q | 0 <= q < |events| && events[q].Pause? ensures q < n && events[q + 1].at < events[n].at {
      assert q <= p;
      assert events[q + 1].at <= events[i].at;
    }
  }

  lemma {:induction false} LatestPauseIs(events: seq<Toggle>, p: nat)
    requires p < |events| && events[p].Pause? && forall k :: p < k < |events| ==> events[k].Resume?
    ensures LastPause(events) == Some(events[p].at)
  {
    if p < |events| - 1 { LatestPauseIs(events[..|events| - 1], p); }
  }

  /** The window excuses only instants within a pause exactly if the row was not
      resumed again, at a later time, after the latest pause had ended. */
  lemma {:induction false} ExcusesPausedOnlyIff(events: seq<Toggle>)
    requires Chronological(events)
    ensures (forall t :: InWindow(Toggles(events).window, t) ==> WithinAPause(events, t)) <==> !ResumedAgain(events)
  {
    if ResumedAgain(events) {
      var t := ResumedAgainExcusesMore(events);
    } else {
      forall t | InWindow(Toggles(events).window, t) ensures WithinAPause(events, t) {
        ResumedOnceExcusesPausedOnly(events, t);
      }
    }
  }

  /** Resumed at 20 and again at 50: the instant 30 is excused although nothing was paused. */
  lemma {:induction false} ResumedTwice(events: seq<Toggle>)
    requires events == [Pause(10), Resume(20), Resume(50)]
    ensures InWindow(Toggles(events).window, 30) && !PausedAt(events, 30) && !WithinAPause(events, 30)
  {
    WindowIsExactly(events, 30);
    LatestPauseIs(events, 0);
    assert events[..2] == [Pause(10), Resume(20)];
  }

  // ---------------------------------------------------------------- one link, one instant

  /** A link with the pause columns of its rows and the creation time of its schedule. */
  datatype Watch = Watch(link: Link, group: PauseWindow, policy: PauseWindow, schedule: PauseWindow, createdAt: int)

  /** What one search works on. */
  datatype Look = Look(watches: seq<Watch>, runs: seq<Alerts.RunRow>, now: int, grace: int)

  /** How an instant is written into a key. */
  type Stamp = int -> string

  function KeyFor(groupId: string, policyId: string, at: string): string {
    groupId + ":" + (policyId + ":" + at)
  }

  function KeyText(stamp: Stamp, link: Link, t: int): string {
    KeyFor(link.groupId, link.policyId, stamp(t))
  }

  /** The search goes back two days, but not before the schedule was created. */
  function SearchFrom(w: Watch, now: int): int {
    if w.createdAt > now - LOOKBACK then w.createdAt else now - LOOKBACK
  }

  /** A pause holds the instant, or the policy is off and was never paused. */
  predicate Excused(w: Watch, t: int) {
    || InWindow(w.group, t) || InWindow(w.policy, t) || InWindow(w.schedule, t)
    || (w.link.policy.Some? && !w.link.policy.value.enabled && w.policy.since == None)
  }

  predicate Covers(r: Alerts.RunRow, link: Link, t: int, grace: int) {
    Alerts.RunsFor(r, link.groupId, link.policyId) && t <= r.startedAt <= t + grace
  }

  predicate Covered(runs: seq<Alerts.RunRow>, link: Link, t: int, grace: int) {
    exists r :: r in runs && Covers(r, link, t, grace)
  }

  function ReportOf(stamp: Stamp, look: Look, w: Watch, t: int): Alerts.Detection {
    Alerts.Missed(KeyText(stamp, w.link, t), w.link.groupId, w.link.policyId,
                  Covered(look.runs, w.link, t, look.grace))
  }

  predicate Reportable(look: Look, w: Watch, t: int) {
    t <= look.now - look.grace && !Excused(w, t)
  }

  // ---------------------------------------------------------------- the whole search

  function FoundAt(stamp: Stamp, look: Look, w: Watch): int -> seq<Alerts.Detection> {
    t => if Reportable(look, w, t) then [ReportOf(stamp, look, w, t)] else []
  }

  function FoundAmong(stamp: Stamp, look: Look, w: Watch, instants: seq<int>): seq<Alerts.Detection> {
    Flat(instants, FoundAt(stamp, look, w))
  }

  function InstantsOf(cal: Calendar, look: Look, w: Watch): seq<int>
    requires w.link.schedule.Some? ==> Plannable(w.link.schedule.value)
  {
    if Schedulable(w.link) then PlannedInstants(cal, w.link.schedule.value, SearchFrom(w, look.now), look.now) else []
  }

  ghost predicate ValidLook(look: Look) {
    && LoadedLinks(LinksOf(look.watches))
    && forall l :: 0 <= l < |look.watches| && look.watches[l].link.schedule.Some? ==>
         Plannable(look.watches[l].link.schedule.value)
  }

  function LinksOf(watches: seq<Watch>): (links: seq<Link>)
    ensures |links| == |watches| && forall l :: 0 <= l < |watches| ==> links[l] == watches[l].link
  {
    seq(|watches|, l requires 0 <= l < |watches| => watches[l].link)
  }

  /** What the search reports, link by link. */
  function FoundByLink(cal: Calendar, stamp: Stamp, look: Look): (parts: seq<seq<Alerts.Detection>>)
    requires ValidLook(look)
    ensures |parts| == |look.watches|
    ensures forall l :: 0 <= l < |parts| ==>
              parts[l] == FoundAmong(stamp, look, look.watches[l], InstantsOf(cal, look, look.watches[l]))
  {
    seq(|look.watches|, l requires 0 <= l < |look.watches| =>
          FoundAmong(stamp, look, look.watches[l], InstantsOf(cal, look, look.watches[l])))
  }

  function Found(cal: Calendar, stamp: Stamp, look: Look): seq<Alerts.Detection>
    requires ValidLook(look)
  {
    Joined(FoundByLink(cal, stamp, look))
  }

  // ---------------------------------------------------------------- the search itself

  /** What is remembered of a schedule and a window begin are the instants. */
  ghost predicate KnownFor(cal: Calendar, look: Look, known: map<(string, int), seq<int>>)
    requires ValidLook(look)
  {
    forall l :: 0 <= l < |look.watches| ==> KnownForWatch(cal, look, look.watches[l], known)
  }

  ghost predicate KnownForWatch(cal: Calendar, look: Look, w: Watch, known: map<(string, int), seq<int>>)
    requires w.link.schedule.Some? ==> Plannable(w.link.schedule.value)
  {
    Schedulable(w.link) && (w.link.schedule.value.id, SearchFrom(w, look.now)) in known ==>
      known[(w.link.schedule.value.id, SearchFrom(w, look.now))] == InstantsOf(cal, look, w)
  }

  lemma {:induction false} KnownExtended(cal: Calendar, look: Look, known: map<(string, int), seq<int>>, n: nat)
    requires ValidLook(look) && KnownFor(cal, look, known) && n < |look.watches| && Schedulable(look.watches[n].link)
    ensures
      var w := look.watches[n];
      KnownFor(cal, look, known[(w.link.schedule.value.id, SearchFrom(w, look.now)) := InstantsOf(cal, look, w)])
  {
    var w, links := look.watches[n], LinksOf(look.watches);
    var key := (w.link.schedule.value.id, SearchFrom(w, look.now));
    var longer := known[key := InstantsOf(cal, look, w)];
    forall l | 0 <= l < |look.watches| ensures KnownForWatch(cal, look, look.watches[l], longer) {
      var v := look.watches[l];
      assert KnownForWatch(cal, look, v, known);
      if Schedulable(v.link) && (v.link.schedule.value.id, SearchFrom(v, look.now)) == key {
        assert links[l].schedule == links[n].schedule;
      }
    }
  }

  /** The instants of one link, computed once per schedule and window. */
  method Instants(cal: Calendar, look: Look, n: nat, known: map<(string, int), seq<int>>)
    returns (instants: seq<int>, now: map<(string, int), seq<int>>)
    requires ValidLook(look) && KnownFor(cal, look, known) && n < |look.watches| && Schedulable(look.watches[n].link)
    ensures instants == InstantsOf(cal, look, look.watches[n])
    ensures KnownFor(cal, look, now)
  {
    var w := look.watches[n];
    var key := (w.link.schedule.value.id, SearchFrom(w, look.now));
    now := known;
    assert KnownForWatch(cal, look, w, known);
    if key !in now {
      instants := OccurrencesWithin(cal, w.link.schedule.value, SearchFrom(w, look.now), look.now);
      KnownExtended(cal, look, known, n);
      now := now[key := instants];
    }
    instants := now[key];
  }

  /** The instants of one link, passing over those still in their grace period and
      those a pause excuses. */
  method ReportMissed(stamp: Stamp, look: Look, w: Watch, instants: seq<int>) returns (found: seq<Alerts.Detection>)
    ensures found == FoundAmong(stamp, look, w, instants)
  {
    found := [];
    for k := 0 to |instants|
      invariant found == FoundAmong(stamp, look, w, instants[..k])
    {
      assert instants[..k + 1][..k] == instants[..k];
      var t := instants[k];
      if t > look.now - look.grace { continue; }
      if InWindow(w.group, t) || InWindow(w.policy, t) || InWindow(w.schedule, t) { continue; }
      if w.link.policy.Some? && !w.link.policy.value.enabled && w.policy.since == None { continue; }
      found := found + [ReportOf(stamp, look, w, t)];
    }
    assert instants[..|instants|] == instants;
  }

  method Search(cal: Calendar, stamp: Stamp, look: Look) returns (found: seq<Alerts.Detection>)
    requires ValidLook(look)
    ensures found == Found(cal, stamp, look)
  {
    ghost var parts := FoundByLink(cal, stamp, look);
    found := [];
    var known: map<(string, int), seq<int>> := map[];
    for n := 0 to |look.watches|
      invariant found == Joined(parts[..n])
      invariant KnownFor(cal, look, known)
    {
      var ofLink;
      ofLink, known := SearchLink(cal, stamp, look, n, known);
      JoinedNext(parts, n);
      found := found + ofLink;
    }
    assert parts[..|look.watches|] == parts;
  }

  method SearchLink(cal: Calendar, stamp: Stamp, look: Look, n: nat, known: map<(string, int), seq<int>>)
    returns (found: seq<Alerts.Detection>, now: map<(string, int), seq<int>>)
    requires ValidLook(look) && KnownFor(cal, look, known) && n < |look.watches|
    ensures found == FoundAmong(stamp, look, look.watches[n], InstantsOf(cal, look, look.watches[n]))
    ensures KnownFor(cal, look, now)
  {
    found, now := [], known;
    if Schedulable(look.watches[n].link) {
      var instants;
      instants, now := Instants(cal, look, n, known);
      found := ReportMissed(stamp, look, look.watches[n], instants);
    }
  }

  // ---------------------------------------------------------------- what is reported

  ghost predicate Pausing(w: PauseWindow, t: int) {
    w.since.Some? && w.since.value <= t && (w.until.Some? ==> t <= w.until.value)
  }

  /** A pause of group, policy or schedule holds the instant, or the policy is off and
      was never paused. */
  ghost predicate IsExcused(w: Watch, t: int) {
    || Pausing(w.group, t) || Pausing(w.policy, t) || Pausing(w.schedule, t)
    || (w.link.policy.Some? && !w.link.policy.value.enabled && w.policy.since == None)
  }

  /** The link has schedule, policy and group, its schedule calls for the instant, and
      was created before. */
  ghost predicate WatchCallsFor(cal: Calendar, w: Watch, t: int) {
    && w.link.schedule.Some? && w.link.policy.Some? && w.link.group.Some?
    && CallsFor(cal, w.link.schedule.value, t) && w.createdAt < t
  }

  /** The instant lies in the last 48 hours, and its grace period is over. */
  ghost predicate Examines(look: Look, t: int) {
    look.now - 172_800_000_000 < t <= look.now - look.grace
  }

  /** The link calls for a run at the instant, inside the look-back, past the grace
      period and not excused. */
  ghost predicate Expected(cal: Calendar, look: Look, w: Watch, t: int) {
    WatchCallsFor(cal, w, t) && Examines(look, t) && t <= look.now && !IsExcused(w, t)
  }

  /** The run was of the link's policy, for its group or for all of them. */
  ghost predicate OfLink(r: Alerts.RunRow, link: Link) {
    r.policyId == link.policyId && (r.groupId == Some(link.groupId) || r.groupId == None)
  }

  /** A run of the link, or of its whole policy, started at the instant or within the
      grace period after it. */
  ghost predicate HasRun(look: Look, link: Link, t: int) {
    exists r: Alerts.RunRow :: r in look.runs && OfLink(r, link) && t <= r.startedAt <= t + look.grace
  }

  /** What is reported for the instant: the link, the instant in the key, and whether
      there is a run for it. */
  ghost predicate IsReport(d: Alerts.Detection, stamp: Stamp, look: Look, w: Watch, t: int) {
    && d.Missed? && d.groupId == w.link.groupId && d.policyId == w.link.policyId
    && d.occurrence == w.link.groupId + ":" + (w.link.policyId + ":" + stamp(t))
    && (d.covered <==> HasRun(look, w.link, t))
  }

  lemma {:induction false} ReportIs(stamp: Stamp, look: Look, w: Watch, t: int, d: Alerts.Detection)
    ensures d == ReportOf(stamp, look, w, t) <==> IsReport(d, stamp, look, w, t)
  {
    assert forall r: Alerts.RunRow ::
             Covers(r, w.link, t, look.grace) <==> OfLink(r, w.link) && t <= r.startedAt <= t + look.grace;
  }

  lemma {:induction false} FoundAmongMembers(stamp: Stamp, look: Look, w: Watch, instants: seq<int>,
                                             d: Alerts.Detection)
    ensures d in FoundAmong(stamp, look, w, instants)
       <==> exists t :: t in instants && Reportable(look, w, t) && d == ReportOf(stamp, look, w, t)
  {
    MemberOfFlat(instants, FoundAt(stamp, look, w), d);
  }

  lemma {:induction false} PlannedIffExpected(cal: Calendar, look: Look, w: Watch, t: int)
    requires w.link.schedule.Some? ==> Plannable(w.link.schedule.value)
    ensures t in InstantsOf(cal, look, w) && Reportable(look, w, t) <==> Expected(cal, look, w, t)
  {
    if w.link.schedule.Some? {
      PlannedIffCalledFor(cal, w.link.schedule.value, SearchFrom(w, look.now), look.now, t);
    }
    assert Excused(w, t) <==> IsExcused(w, t);
  }

  ghost predicate ReportedFor(cal: Calendar, stamp: Stamp, look: Look, w: Watch, d: Alerts.Detection)
  {
    exists t :: Expected(cal, look, w, t) && IsReport(d, stamp, look, w, t)
  }

  lemma {:induction false} ReportedForLink(cal: Calendar, stamp: Stamp, look: Look, w: Watch, d: Alerts.Detection)
    requires w.link.schedule.Some? ==> Plannable(w.link.schedule.value)
    ensures d in FoundAmong(stamp, look, w, InstantsOf(cal, look, w)) <==> ReportedFor(cal, stamp, look, w, d)
  {
    FoundAmongMembers(stamp, look, w, InstantsOf(cal, look, w), d);
    forall t
      ensures t in InstantsOf(cal, look, w) && Reportable(look, w, t) <==> Expected(cal, look, w, t)
      ensures d == ReportOf(stamp, look, w, t) <==> IsReport(d, stamp, look, w, t)
    {
      PlannedIffExpected(cal, look, w, t);
      ReportIs(stamp, look, w, t, d);
    }
  }

  /** The search reports exactly the expected instants of its links, each with whether
      some run of the link or of its whole policy covers it. */
  lemma {:induction false} ReportsExactlyTheExpected(cal: Calendar, stamp: Stamp, look: Look, d: Alerts.Detection)
    requires ValidLook(look)
    ensures d in Found(cal, stamp, look)
       <==> exists l :: 0 <= l < |look.watches| && ReportedFor(cal, stamp, look, look.watches[l], d)
  {
    var parts := FoundByLink(cal, stamp, look);
    MemberOfJoined(parts, d);
    forall l | 0 <= l < |parts| ensures d in parts[l] <==> ReportedFor(cal, stamp, look, look.watches[l], d) {
      ReportedForLink(cal, stamp, look, look.watches[l], d);
    }
  }

  // ---------------------------------------------------------------- nothing is lost silently

  // The identifiers of groups and policies hold no colon, so a key names one link.

  ghost predicate Plain(id: string) {
    ':' !in id
  }

  lemma {:induction false} NoColonBefore(a: string, x: string, b: string, y: string)
    requires Plain(b) && a + ":" + x == b + ":" + y
    ensures |b| <= |a|
  {
    var s := a + ":" + x;
    assert s[|a|] == ':' && s == b + ":" + y;
    assert forall k :: 0 <= k < |b| ==> s[k] == b[k] && s[k] != ':';
  }

  lemma {:induction false} FirstPart(a: string, x: string, b: string, y: string)
    requires Plain(a) && Plain(b) && a + ":" + x == b + ":" + y
    ensures a == b && x == y
  {
    var s := a + ":" + x;
    NoColonBefore(a, x, b, y);
    NoColonBefore(b, y, a, x);
    assert s[..|a|] == a && s[..|b|] == b && s[|a| + 1..] == x && s[|b| + 1..] == y;
  }

  lemma {:induction false} KeyNamesLink(g: string, p: string, x: string, h: string, q: string, y: string)
    requires Plain(g) && Plain(p) && Plain(h) && Plain(q) && KeyFor(g, p, x) == KeyFor(h, q, y)
    ensures g == h && p == q
  {
    assert g + ":" + (p + ":" + x) == KeyFor(g, p, x);
    FirstPart(g, p + ":" + x, h, q + ":" + y);
    FirstPart(p, x, q, y);
  }

  /** An alert for a missed run that still knows group and policy has them in its key. */
  ghost predicate NamedByKey(a: Alerts.Alert) {
    a.key.0.BackupMissed? && Filled(a.groupId) && Filled(a.policyId) ==>
      && Plain(a.groupId.value) && Plain(a.policyId.value)
      && exists at :: a.key.1 == KeyFor(a.groupId.value, a.policyId.value, at)
  }

  ghost predicate AllNamed(alerts: seq<Alerts.Alert>) {
    forall k :: 0 <= k < |alerts| ==> NamedByKey(alerts[k])
  }

  ghost predicate MakesUpFor(r: Alerts.RunRow, link: Link, since: int) {
    && OfLink(r, link) && r.startedAt > since
    && (r.status == Alerts.Succeeded || r.status == Alerts.SucceededWithErrors)
  }

  /** A run of the link, or of its whole policy, that started after the alert succeeded. */
  ghost predicate MadeUpFor(link: Link, a: Alerts.Alert, runs: seq<Alerts.RunRow>) {
    exists r: Alerts.RunRow :: r in runs && MakesUpFor(r, link, a.triggeredAt)
  }

  /** The check ends an active alert of the key: the link's run was made up for, or
      the alert is old enough. */
  ghost predicate EndsFor(link: Link, alerts: seq<Alerts.Alert>, p: Alerts.Pass, key: Alerts.Key) {
    exists k :: 0 <= k < |alerts| && alerts[k].active && alerts[k].key == key
             && (MadeUpFor(link, alerts[k], p.runs) || AlertLaws.IsOld(alerts[k], p))
  }

  /** The instant shows up on the board, unless a pause or a run speaks for it. */
  ghost predicate Answered(stamp: Stamp, look: Look, w: Watch, t: int, alerts: seq<Alerts.Alert>, p: Alerts.Pass) {
    var key := (Alerts.BackupMissed, w.link.groupId + ":" + (w.link.policyId + ":" + stamp(t)));
    || IsExcused(w, t)
    || HasRun(look, w.link, t)
    || AlertLaws.IsActive(Alerts.After(alerts, p), key)
    || EndsFor(w.link, alerts, p, key)
  }

  /** The missed runs of the pass are those the search finds in the same run table. */
  ghost predicate Searches(cal: Calendar, stamp: Stamp, look: Look, p: Alerts.Pass) {
    && ValidLook(look) && p.runs == look.runs && Alerts.ValidPass(p)
    && (forall l :: 0 <= l < |look.watches| ==>
          Plain(look.watches[l].link.groupId) && Plain(look.watches[l].link.policyId))
    && (forall d: Alerts.Detection :: d.Missed? ==> (d in p.detections <==> d in Found(cal, stamp, look)))
  }

  lemma {:induction false} RecoveryIsOfTheLink(a: Alerts.Alert, link: Link, at: string, runs: seq<Alerts.RunRow>)
    requires NamedByKey(a) && a.key == (Alerts.BackupMissed, KeyFor(link.groupId, link.policyId, at))
    requires Plain(link.groupId) && Plain(link.policyId) && Alerts.Recovered(a, runs)
    ensures MadeUpFor(link, a, runs)
  {
    var r :| r in runs && Alerts.Recovers(r, a);
    var x :| a.key.1 == KeyFor(a.groupId.value, a.policyId.value, x);
    KeyNamesLink(a.groupId.value, a.policyId.value, x, link.groupId, link.policyId, at);
    assert Alerts.RunsFor(r, link.groupId, link.policyId);
  }

  lemma {:induction false} UncoveredIsRaised(alerts: seq<Alerts.Alert>, p: Alerts.Pass, d: Alerts.Detection, link: Link,
                                             at: string)
    requires d in p.detections && d.Missed? && !d.covered && d.occurrence == KeyFor(link.groupId, link.policyId, at)
    requires AllNamed(alerts) && Plain(link.groupId) && Plain(link.policyId)
    ensures AlertLaws.IsActive(Alerts.After(alerts, p), Alerts.KeyOf(d)) || EndsFor(link, alerts, p, Alerts.KeyOf(d))
  {
    var key, active, after := Alerts.KeyOf(d), Alerts.ActiveByKey(alerts), Alerts.After(alerts, p);
    var i :| 0 <= i < |p.detections| && p.detections[i] == d;
    AlertLaws.LookupFindsActive(alerts, key);
    if key in active {
      var k := active[key];
      assert alerts[k].active && alerts[k].key == key;
      if !Alerts.Resolves(alerts[k], p) {
        assert after[k] == alerts[k];
      } else if Alerts.Recovered(alerts[k], p.runs) {
        RecoveryIsOfTheLink(alerts[k], link, at, p.runs);
      }
    } else {
      var m := AlertLaws.TriggeredPlace(p.detections, active, p, i);
      assert after[|alerts| + m].active && after[|alerts| + m].key == key;
    }
  }

  /** After a check no instant its links call for is lost silently: a pause window
      excuses it, a run covers it, its alert is active, or this very check ended the
      alert because the run was made up for or the alert is old. */
  lemma {:induction false} NothingIsLostSilently(cal: Calendar, stamp: Stamp, look: Look, l: nat, t: int,
                                                 alerts: seq<Alerts.Alert>, p: Alerts.Pass)
    requires Searches(cal, stamp, look, p) && AllNamed(alerts) && l < |look.watches|
    requires WatchCallsFor(cal, look.watches[l], t) && Examines(look, t) && t <= look.now
    ensures Answered(stamp, look, look.watches[l], t, alerts, p)
  {
    var w := look.watches[l];
    var d := ReportOf(stamp, look, w, t);
    ReportIs(stamp, look, w, t, d);
    if !IsExcused(w, t) && !HasRun(look, w.link, t) {
      assert Expected(cal, look, w, t);
      assert ReportedFor(cal, stamp, look, w, d);
      ReportsExactlyTheExpected(cal, stamp, look, d);
      UncoveredIsRaised(alerts, p, d, w.link, stamp(t));
    }
  }

  lemma {:induction false} RaisedIsNamed(cal: Calendar, stamp: Stamp, look: Look, p: Alerts.Pass, d: Alerts.Detection)
    requires Searches(cal, stamp, look, p) && d in p.detections
    ensures NamedByKey(Alerts.Raised(d, p.now))
  {
    if d.Missed? {
      ReportsExactlyTheExpected(cal, stamp, look, d);
      var l :| 0 <= l < |look.watches| && ReportedFor(cal, stamp, look, look.watches[l], d);
      var t :| Expected(cal, look, look.watches[l], t) && IsReport(d, stamp, look, look.watches[l], t);
      assert d.occurrence == KeyFor(d.groupId, d.policyId, stamp(t));
    }
  }

  lemma {:induction false} OldStaysNamed(alerts: seq<Alerts.Alert>, p: Alerts.Pass, k: nat)
    requires k < |alerts| && NamedByKey(alerts[k])
    ensures NamedByKey(Alerts.After(alerts, p)[k])
  {
    var a, b := alerts[k], Alerts.After(alerts, p)[k];
    assert b == a || b == Alerts.Resolved(a, p.now);
    assert b.key == a.key && b.groupId == a.groupId && b.policyId == a.policyId;
  }

  ghost predicate RaisesNamed(p: Alerts.Pass) {
    forall d: Alerts.Detection :: d in p.detections ==> NamedByKey(Alerts.Raised(d, p.now))
  }

  lemma {:induction false} SearchRaisesNamed(cal: Calendar, stamp: Stamp, look: Look, p: Alerts.Pass)
    requires Searches(cal, stamp, look, p)
    ensures RaisesNamed(p)
  {
    forall d: Alerts.Detection | d in p.detections ensures NamedByKey(Alerts.Raised(d, p.now)) {
      RaisedIsNamed(cal, stamp, look, p, d);
    }
  }

  lemma {:induction false} NewIsNamed(alerts: seq<Alerts.Alert>, p: Alerts.Pass, k: nat)
    requires RaisesNamed(p) && |alerts| <= k < |Alerts.After(alerts, p)|
    ensures NamedByKey(Alerts.After(alerts, p)[k])
  {
    var d := AlertLaws.TriggeredOrigin(p.detections, Alerts.ActiveByKey(alerts), p, k - |alerts|);
    assert p.detections[d] in p.detections;
    assert Alerts.After(alerts, p)[k] == Alerts.Raised(p.detections[d], p.now);
  }

  lemma {:induction false} StaysNamed(alerts: seq<Alerts.Alert>, p: Alerts.Pass)
    requires RaisesNamed(p) && AllNamed(alerts)
    ensures AllNamed(Alerts.After(alerts, p))
  {
    forall k: nat | k < |Alerts.After(alerts, p)| ensures NamedByKey(Alerts.After(alerts, p)[k]) {
      if k < |alerts| { OldStaysNamed(alerts, p, k); } else { NewIsNamed(alerts, p, k); }
    }
  }

  // ---------------------------------------------------------------- over a run of checks

  /** Checks follow each other closely enough for the look-back. */
  ghost predicate CloseTogether(looks: seq<Look>) {
    forall k :: 0 < k < |looks| ==> looks[k].now - looks[k - 1].now <= LOOKBACK - looks[k - 1].grace
  }

  /** Checks close together examine every instant whose grace period is over. */
  lemma {:induction false} EveryInstantIsExamined(looks: seq<Look>, t: int) returns (k: nat)
    requires looks != [] && CloseTogether(looks) && looks[0].now - LOOKBACK < t
    requires t <= looks[|looks| - 1].now - looks[|looks| - 1].grace
    ensures k < |looks| && Examines(looks[k], t)
  {
    var n := |looks| - 1;
    if looks[n].now - LOOKBACK < t {
      k := n;
    } else {
      assert looks[n].now - looks[n - 1].now <= LOOKBACK - looks[n - 1].grace;
      k := EveryInstantIsExamined(looks[..n], t);
    }
  }

  /** Time passes from check to check, and the grace period is at most the look-back. */
  ghost predicate Advancing(looks: seq<Look>) {
    && (forall k :: 0 <= k < |looks| ==> 0 <= looks[k].grace <= LOOKBACK)
    && (forall j, k :: 0 <= j <= k < |looks| ==>
          looks[j].now <= looks[k].now && looks[j].now - looks[j].grace <= looks[k].now - looks[k].grace)
  }

  ghost predicate SomeExamines(looks: seq<Look>, t: int) {
    exists k :: 0 <= k < |looks| && Examines(looks[k], t)
  }

  /** A standstill that is too long hides the last instant its look-back leaves out. */
  lemma {:induction false} StandstillHides(looks: seq<Look>, k: nat) returns (t: int)
    requires Advancing(looks) && 0 < k < |looks|
    requires looks[k].now - looks[k - 1].now > LOOKBACK - looks[k - 1].grace
    ensures looks[0].now - LOOKBACK < t <= looks[|looks| - 1].now - looks[|looks| - 1].grace
    ensures !SomeExamines(looks, t)
  {
    t := looks[k].now - LOOKBACK;
    forall j | 0 <= j < |looks| ensures !Examines(looks[j], t) {
      if j < k {
        assert looks[j].now - looks[j].grace <= looks[k - 1].now - looks[k - 1].grace;
      } else {
        assert looks[k].now <= looks[j].now;
      }
    }
    assert looks[0].now <= looks[k - 1].now;
    assert looks[k].now - looks[k].grace <= looks[|looks| - 1].now - looks[|looks| - 1].grace;
  }

  /** A run of checks examines every instant whose grace period is over exactly if no
      two checks are further apart than the look-back less the grace period. */
  lemma {:induction false} AllExaminedIffCloseTogether(looks: seq<Look>)
    requires looks != [] && Advancing(looks)
    ensures CloseTogether(looks)
       <==> forall t :: looks[0].now - LOOKBACK < t <= looks[|looks| - 1].now - looks[|looks| - 1].grace
                        ==> SomeExamines(looks, t)
  {
    if CloseTogether(looks) {
      forall t | looks[0].now - LOOKBACK < t <= looks[|looks| - 1].now - looks[|looks| - 1].grace
        ensures SomeExamines(looks, t)
      {
        var k := EveryInstantIsExamined(looks, t);
      }
    } else {
      var k :| 0 < k < |looks| && !(looks[k].now - looks[k - 1].now <= LOOKBACK - looks[k - 1].grace);
      var t := StandstillHides(looks, k);
    }
  }

  ghost predicate AllSearch(cal: Calendar, stamp: Stamp, looks: seq<Look>, passes: seq<Alerts.Pass>) {
    |looks| == |passes| && forall k :: 0 <= k < |looks| ==> Searches(cal, stamp, looks[k], passes[k])
  }

  /** In check k, every link of the entry that existed by then and calls for the
      instant is answered. */
  ghost predicate AnsweredIn(cal: Calendar, stamp: Stamp, looks: seq<Look>, passes: seq<Alerts.Pass>, k: nat, st: Start)
    requires AllSearch(cal, stamp, looks, passes) && k < |looks|
  {
    forall l | 0 <= l < |looks[k].watches| ::
      var w := looks[k].watches[l];
      && WatchCallsFor(cal, w, st.occurrence) && w.link.groupId == st.groupId && w.link.policyId == st.policyId
      ==> Answered(stamp, looks[k], w, st.occurrence, AlertLaws.RunAll([], passes[..k]), passes[k])
  }

  lemma {:induction false} AlwaysNamed(cal: Calendar, stamp: Stamp, looks: seq<Look>, passes: seq<Alerts.Pass>, k: nat)
    requires AllSearch(cal, stamp, looks, passes) && k <= |passes|
    ensures AllNamed(AlertLaws.RunAll([], passes[..k]))
  {
    if k > 0 {
      AlwaysNamed(cal, stamp, looks, passes, k - 1);
      assert passes[..k][..k - 1] == passes[..k - 1];
      SearchRaisesNamed(cal, stamp, looks[k - 1], passes[k - 1]);
      StaysNamed(AlertLaws.RunAll([], passes[..k - 1]), passes[k - 1]);
    }
  }

  lemma {:induction false} ExaminedIsAnswered(cal: Calendar, stamp: Stamp, looks: seq<Look>, passes: seq<Alerts.Pass>,
                                              k: nat, st: Start)
    requires AllSearch(cal, stamp, looks, passes) && k < |looks| && Examines(looks[k], st.occurrence) &&
             looks[k].grace >= 0
    ensures AnsweredIn(cal, stamp, looks, passes, k, st)
  {
    var look, t := looks[k], st.occurrence;
    AlwaysNamed(cal, stamp, looks, passes, k);
    forall l | 0 <= l < |look.watches| && WatchCallsFor(cal, look.watches[l], t)
      ensures Answered(stamp, look, look.watches[l], t, AlertLaws.RunAll([], passes[..k]), passes[k])
    {
      NothingIsLostSilently(cal, stamp, look, l, t, AlertLaws.RunAll([], passes[..k]), passes[k]);
    }
  }

  /** An instant the backup job drops is never started, and some check answers for it:
      by a pause, by a run that covers it, or by an alert. */
  lemma {:induction false} DroppedIsAnswered(cal: Calendar, ticks: seq<Tick>, st: Start, fate: Fate,
                                             stamp: Stamp, looks: seq<Look>, passes: seq<Alerts.Pass>) returns (k: nat)
    requires ValidTicks(ticks) && ClockMonotone(ticks) && HasFate(cal, ticks, st.occurrence, fate) && !fate.DueIn?
    requires AllSearch(cal, stamp, looks, passes) && looks != [] && CloseTogether(looks)
    requires forall j :: 0 <= j < |looks| ==> looks[j].grace >= 0
    requires looks[0].now - LOOKBACK < st.occurrence <= looks[|looks| - 1].now - looks[|looks| - 1].grace
    ensures st !in After(cal, ticks).started
    ensures k < |looks| && Examines(looks[k], st.occurrence) && AnsweredIn(cal, stamp, looks, passes, k, st)
  {
    DroppedNeverStarts(cal, ticks, st, fate);
    k := EveryInstantIsExamined(looks, st.occurrence);
    ExaminedIsAnswered(cal, stamp, looks, passes, k, st);
  }
}
