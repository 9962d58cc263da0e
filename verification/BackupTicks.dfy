/** The minutely tick of the backup scheduler: collect what is due since the last
    check, commit the new check time, and only then start anything. A crash may
    end the process before the commit or after any number of starts. */
module BackupTicks {
  import opened Wrappers
  import opened Texts
  import opened Schedules
  import opened Occurrences

  const FIRST_LOOKBACK := 60_000_000     // one minute
  const CATCH_UP := 900_000_000          // fifteen minutes

  /** A planned run: the link by its primary key, and the instant it is due. */
  datatype Start = Start(groupId: string, policyId: string, occurrence: int)

  /** What a due entry meets when its turn comes: the flags of its group, policy and
      schedule as they are then, and whether the start is accepted. */
  datatype Turn = Turn(groupPaused: bool, policyEnabled: bool, schedulePaused: bool, accepted: bool)

  const FREE := Turn(false, true, false, true)

  predicate Paused(turn: Turn) {
    turn.groupPaused || !turn.policyEnabled || turn.schedulePaused
  }

  predicate Starts(turn: Turn) {
    !Paused(turn) && turn.accepted
  }

  datatype Crash = Survives | BeforeCommit | AfterEntries(processed: nat)

  /** Everything a tick meets: the loaded links, the two clock readings, the turn
      of each due entry by position, and where the process ends. */
  datatype Tick = Tick(links: seq<Link>, sampled: int, committed: int, turns: nat -> Turn, crash: Crash)

  datatype State = State(lastCheck: Option<int>, started: seq<Start>)

  // ---------------------------------------------------------------- what one tick does

  function WindowStart(lastCheck: Option<int>, now: int): int {
    match lastCheck
    case None => now - FIRST_LOOKBACK
    case Some(c) => if c < now - CATCH_UP then now - CATCH_UP else c
  }

  predicate Schedulable(link: Link) {
    link.schedule.Some? && link.policy.Some? && link.group.Some? && link.schedule.value.times != []
  }

  ghost predicate TimesAreValid(links: seq<Link>) {
    forall l :: 0 <= l < |links| && links[l].schedule.Some? ==> Plannable(links[l].schedule.value)
  }

  function ForLink(link: Link, instants: seq<int>): seq<Start> {
    if instants == [] then []
    else ForLink(link, instants[..|instants| - 1]) + [Start(link.groupId, link.policyId, instants[|instants| - 1])]
  }

  function DueOf(cal: Calendar, link: Link, from: int, to: int): seq<Start>
    requires link.schedule.Some? ==> Plannable(link.schedule.value)
  {
    if Schedulable(link) then ForLink(link, PlannedInstants(cal, link.schedule.value, from, to)) else []
  }

  function Due(cal: Calendar, links: seq<Link>, from: int, to: int): seq<Start>
    requires forall l :: 0 <= l < |links| && links[l].schedule.Some? ==> Plannable(links[l].schedule.value)
  {
    if links == [] then []
    else Due(cal, links[..|links| - 1], from, to) + DueOf(cal, links[|links| - 1], from, to)
  }

  lemma {:induction false} DueNext(cal: Calendar, links: seq<Link>, from: int, to: int, l: nat)
    requires TimesAreValid(links) && l < |links|
    ensures Due(cal, links[..l + 1], from, to) == Due(cal, links[..l], from, to) + DueOf(cal, links[l], from, to)
  {
    assert links[..l + 1][..l] == links[..l];
  }

  /** What is remembered of a schedule are its instants of the window. */
  ghost predicate KnownInstants(cal: Calendar, links: seq<Link>, from: int, to: int, known: map<string, seq<int>>)
    requires TimesAreValid(links)
  {
    forall m :: 0 <= m < |links| && links[m].schedule.Some? && links[m].schedule.value.id in known ==>
      known[links[m].schedule.value.id] == PlannedInstants(cal, links[m].schedule.value, from, to)
  }

  /** The started ones among the first n due entries. */
  function StartedOf(due: seq<Start>, turns: nat -> Turn, n: nat): seq<Start>
    requires n <= |due|
  {
    if n == 0 then []
    else StartedOf(due, turns, n - 1) + (if Starts(turns(n - 1)) then [due[n - 1]] else [])
  }

  function Reached(due: seq<Start>, crash: Crash): nat {
    match crash
    case AfterEntries(n) => if n < |due| then n else |due|
    case _ => |due|
  }

  predicate ValidTick(tick: Tick) {
    && (forall l :: 0 <= l < |tick.links| && tick.links[l].schedule.Some? ==> Plannable(tick.links[l].schedule.value))
    && tick.sampled <= tick.committed
  }

  function DueAt(cal: Calendar, s: State, tick: Tick): seq<Start>
    requires ValidTick(tick)
  {
    Due(cal, tick.links, WindowStart(s.lastCheck, tick.sampled), tick.sampled)
  }

  function Step(cal: Calendar, s: State, tick: Tick): State
    requires ValidTick(tick)
  {
    if tick.crash.BeforeCommit? then s
    else
      var due := DueAt(cal, s, tick);
      var reached := Reached(due, tick.crash);
      assert reached <= |due|;
      State(Some(tick.committed), s.started + StartedOf(due, tick.turns, reached))
  }

  // ---------------------------------------------------------------- the job itself

  class BackupJob {
    var lastCheck: Option<int>   // SchedulerStatus.last_scheduled_backup_check_at
    var started: seq<Start>      // the runs started for planned instants

    constructor ()
      ensures lastCheck == None && started == []
    {
      lastCheck, started := None, [];
    }

    /** The instants of a schedule, evaluated once per window. */
    method Instants(cal: Calendar, schedule: Schedule, from: int, to: int, known: map<string, seq<int>>)
      returns (instants: seq<int>, now: map<string, seq<int>>)
      requires Plannable(schedule)
      requires schedule.id in known ==> known[schedule.id] == PlannedInstants(cal, schedule, from, to)
      ensures instants == PlannedInstants(cal, schedule, from, to)
      ensures now == known[schedule.id := instants]
    {
      now := known;
      if schedule.id !in now {
        instants := OccurrencesWithin(cal, schedule, from, to);
        now := now[schedule.id := instants];
      }
      instants := now[schedule.id];
      assert now == known[schedule.id := instants];
    }

    method AppendEntries(due: seq<Start>, link: Link, instants: seq<int>) returns (longer: seq<Start>)
      ensures longer == due + ForLink(link, instants)
    {
      longer := due;
      for k := 0 to |instants|
        invariant longer == due + ForLink(link, instants[..k])
      {
        assert instants[..k + 1][..k] == instants[..k];
        longer := longer + [Start(link.groupId, link.policyId, instants[k])];
      }
      assert instants[..|instants|] == instants;
    }

    /** The due entries of a window. */
    method Collect(cal: Calendar, links: seq<Link>, from: int, to: int) returns (due: seq<Start>)
      requires LoadedLinks(links) && TimesAreValid(links) && from <= to
      ensures due == Due(cal, links, from, to)
    {
      due := [];
      var known: map<string, seq<int>> := map[];
      for l := 0 to |links|
        invariant due == Due(cal, links[..l], from, to)
        invariant KnownInstants(cal, links, from, to, known)
      {
        DueNext(cal, links, from, to, l);
        if Schedulable(links[l]) {
          var instants;
          instants, known := Instants(cal, links[l].schedule.value, from, to, known);
          due := AppendEntries(due, links[l], instants);
        }
      }
      assert links[..|links|] == links;
    }

    /** Phase 2: starts what is due, as far as the process lives. */
    method StartDue(due: seq<Start>, turns: nat -> Turn, crash: Crash)
      modifies `started
      ensures started == old(started) + StartedOf(due, turns, Reached(due, crash))
    {
      var n: nat := 0;
      while n < |due| && !(crash.AfterEntries? && n >= crash.processed)
        invariant n <= Reached(due, crash)
        invariant started == old(started) + StartedOf(due, turns, n)
      {
        if !Paused(turns(n)) && turns(n).accepted {
          started := started + [due[n]];
        }
        n := n + 1;
      }
    }

    method WindowBegin(now: int) returns (from: int)
      ensures from == WindowStart(lastCheck, now)
    {
      if lastCheck == None {
        from := now - FIRST_LOOKBACK;
      } else {
        from := lastCheck.value;
        if from < now - CATCH_UP {
          from := now - CATCH_UP;
        }
      }
    }

    /** Commits the new check time, then starts what is due. */
    method CommitAndStart(due: seq<Start>, tick: Tick)
      modifies this
      ensures lastCheck == (if tick.crash.BeforeCommit? then old(lastCheck) else Some(tick.committed))
      ensures started == old(started)
                         + (if tick.crash.BeforeCommit? then []
                            else StartedOf(due, tick.turns, Reached(due, tick.crash)))
    {
      if !tick.crash.BeforeCommit? {
        lastCheck := Some(tick.committed);
        StartDue(due, tick.turns, tick.crash);
      }
    }

    /** Phase 1 only finds out what is due; the check time is committed before
        phase 2 starts anything. */
    method Run(cal: Calendar, tick: Tick)
      requires ValidTick(tick) && LoadedLinks(tick.links)
      requires lastCheck.Some? ==> lastCheck.value <= tick.sampled
      modifies this
      ensures State(lastCheck, started) == Step(cal, State(old(lastCheck), old(started)), tick)
    {
      var from := WindowBegin(tick.sampled);
      var due := Collect(cal, tick.links, from, tick.sampled);
      CommitAndStart(due, tick);
    }
  }

  // ---------------------------------------------------------------- whole runs

  ghost predicate ValidTicks(ticks: seq<Tick>) {
    forall k :: 0 <= k < |ticks| ==> ValidTick(ticks[k]) && LoadedLinks(ticks[k].links)
  }

  function After(cal: Calendar, ticks: seq<Tick>): State
    requires forall k :: 0 <= k < |ticks| ==> ValidTick(ticks[k])
  {
    if ticks == [] then State(None, [])
    else Step(cal, After(cal, ticks[..|ticks| - 1]), ticks[|ticks| - 1])
  }

  /** The last clock reading a tick makes. */
  ghost function LastReading(tick: Tick): int {
    if tick.crash.BeforeCommit? then tick.sampled else tick.committed
  }

  /** The clock never goes back, and ticks do not overlap (one instance at a time). */
  ghost predicate ClockMonotone(ticks: seq<Tick>) {
    forall j, k :: 0 <= j < k < |ticks| ==> LastReading(ticks[j]) <= ticks[k].sampled
  }

  lemma {:induction false} LastCheckIsPast(cal: Calendar, ticks: seq<Tick>, bound: int)
    requires ValidTicks(ticks) && forall k :: 0 <= k < |ticks| ==> LastReading(ticks[k]) <= bound
    ensures After(cal, ticks).lastCheck.Some? ==> After(cal, ticks).lastCheck.value <= bound
  {
    if ticks != [] {
      LastCheckIsPast(cal, ticks[..|ticks| - 1], bound);
      assert LastReading(ticks[|ticks| - 1]) <= bound;
    }
  }

  /** The ticks, carried out by a job that starts afresh. */
  method RunTicks(job: BackupJob, cal: Calendar, ticks: seq<Tick>)
    requires ValidTicks(ticks) && ClockMonotone(ticks) && job.lastCheck == None && job.started == []
    modifies job
    ensures State(job.lastCheck, job.started) == After(cal, ticks)
  {
    for k := 0 to |ticks|
      invariant State(job.lastCheck, job.started) == After(cal, ticks[..k])
    {
      assert ticks[..k + 1][..k] == ticks[..k];
      LastCheckIsPast(cal, ticks[..k], ticks[k].sampled);
      job.Run(cal, ticks[k]);
    }
    assert ticks[..|ticks|] == ticks;
  }

  // ---------------------------------------------------------------- how often an entry is due

  /** How often one link asks for a start at an instant. */
  function DemandOf(cal: Calendar, link: Link, st: Start): nat
    requires link.schedule.Some? ==> Plannable(link.schedule.value)
  {
    if Schedulable(link) && link.groupId == st.groupId && link.policyId == st.policyId
    then Hits(cal, link.schedule.value, st.occurrence) else 0
  }

  function Demand(cal: Calendar, links: seq<Link>, st: Start): nat
    requires forall l :: 0 <= l < |links| && links[l].schedule.Some? ==> Plannable(links[l].schedule.value)
  {
    if links == [] then 0
    else Demand(cal, links[..|links| - 1], st) + DemandOf(cal, links[|links| - 1], st)
  }

  lemma {:induction false} ForLinkMultiplicity(link: Link, instants: seq<int>, st: Start)
    ensures multiset(ForLink(link, instants))[st]
         == if link.groupId == st.groupId && link.policyId == st.policyId then multiset(instants)[st.occurrence] else 0
  {
    if instants != [] {
      var rest, last := instants[..|instants| - 1], instants[|instants| - 1];
      ForLinkMultiplicity(link, rest, st);
      assert instants == rest + [last];
      CountAppended(rest, last, st.occurrence);
      CountAppended(ForLink(link, rest), Start(link.groupId, link.policyId, last), st);
    }
  }

  lemma {:induction false} DueOfMultiplicity(cal: Calendar, link: Link, from: int, to: int, st: Start)
    requires link.schedule.Some? ==> Plannable(link.schedule.value)
    ensures multiset(DueOf(cal, link, from, to))[st] == if from < st.occurrence <= to then DemandOf(cal, link, st)
                                                        else 0
  {
    if Schedulable(link) {
      ForLinkMultiplicity(link, PlannedInstants(cal, link.schedule.value, from, to), st);
      PlannedMultiplicity(cal, link.schedule.value, from, to, st.occurrence);
    }
  }

  /** A due list holds an entry exactly as often as the links demand it. */
  lemma {:induction false} DueMultiplicity(cal: Calendar, links: seq<Link>, from: int, to: int, st: Start)
    requires TimesAreValid(links)
    ensures multiset(Due(cal, links, from, to))[st] == if from < st.occurrence <= to then Demand(cal, links, st) else 0
  {
    if links != [] {
      DueMultiplicity(cal, links[..|links| - 1], from, to, st);
      DueOfMultiplicity(cal, links[|links| - 1], from, to, st);
    }
  }

  lemma {:induction false} StartedNext(due: seq<Start>, turns: nat -> Turn, n: nat)
    requires n < |due|
    ensures StartedOf(due, turns, n + 1) == StartedOf(due, turns, n) + if Starts(turns(n)) then [due[n]] else []
  {
  }

  lemma {:induction false} StartedCountsNext(due: seq<Start>, turns: nat -> Turn, n: nat, st: Start)
    requires n < |due|
    ensures multiset(StartedOf(due, turns, n + 1))[st]
         == multiset(StartedOf(due, turns, n))[st] + if Starts(turns(n)) && due[n] == st then 1 else 0
  {
    StartedNext(due, turns, n);
    CountAppended(StartedOf(due, turns, n), due[n], st);
  }

  lemma {:induction false} PrefixCountsNext(due: seq<Start>, n: nat, st: Start)
    requires n < |due|
    ensures multiset(due[..n + 1])[st] == multiset(due[..n])[st] + if due[n] == st then 1 else 0
  {
    assert due[..n + 1] == due[..n] + [due[n]];
    CountAppended(due[..n], due[n], st);
  }

  lemma {:induction false} StartedAreDueNext(due: seq<Start>, turns: nat -> Turn, n: nat, st: Start)
    requires n < |due| && multiset(StartedOf(due, turns, n))[st] <= multiset(due[..n])[st]
    ensures multiset(StartedOf(due, turns, n + 1))[st] <= multiset(due[..n + 1])[st]
  {
    StartedCountsNext(due, turns, n, st);
    PrefixCountsNext(due, n, st);
  }

  lemma {:induction false} StartedAreDue(due: seq<Start>, turns: nat -> Turn, n: nat, st: Start)
    requires n <= |due|
    ensures multiset(StartedOf(due, turns, n))[st] <= multiset(due[..n])[st]
  {
    if n > 0 {
      var m := n - 1;
      StartedAreDue(due, turns, m, st);
      StartedAreDueNext(due, turns, m, st);
    }
  }

  lemma {:induction false} PrefixHasNoMore(due: seq<Start>, n: nat, st: Start)
    requires n <= |due|
    ensures multiset(due[..n])[st] <= multiset(due)[st]
  {
    assert due == due[..n] + due[n..];
  }

  lemma {:induction false} StepStartsOnlyDue(cal: Calendar, s: State, tick: Tick, st: Start)
    requires ValidTick(tick)
    ensures multiset(Step(cal, s, tick).started)[st]
         <= multiset(s.started)[st]
            + if !tick.crash.BeforeCommit? && WindowStart(s.lastCheck, tick.sampled) < st.occurrence <= tick.sampled
              then Demand(cal, tick.links, st) else 0
  {
    if !tick.crash.BeforeCommit? {
      var due := DueAt(cal, s, tick);
      var reached := Reached(due, tick.crash);
      StartedAreDue(due, tick.turns, reached, st);
      PrefixHasNoMore(due, reached, st);
      DueMultiplicity(cal, tick.links, WindowStart(s.lastCheck, tick.sampled), tick.sampled, st);
    }
  }

  // ---------------------------------------------------------------- at most once

  /** Instant t lies in the window tick k evaluates and commits. */
  ghost predicate Evaluates(cal: Calendar, ticks: seq<Tick>, k: nat, t: int)
    requires ValidTicks(ticks) && k < |ticks|
  {
    && !ticks[k].crash.BeforeCommit?
    && WindowStart(After(cal, ticks[..k]).lastCheck, ticks[k].sampled) < t <= ticks[k].sampled
  }

  lemma {:induction false} StartsLieBehindCheck(cal: Calendar, ticks: seq<Tick>, st: Start)
    requires ValidTicks(ticks) && ClockMonotone(ticks) && multiset(After(cal, ticks).started)[st] > 0
    ensures After(cal, ticks).lastCheck.Some? && st.occurrence <= After(cal, ticks).lastCheck.value
    decreases |ticks|
  {
    var n := |ticks| - 1;
    var before, tick := ticks[..n], ticks[n];
    StepStartsOnlyDue(cal, After(cal, before), tick, st);
    LastCheckIsPast(cal, before, tick.sampled);
    if multiset(After(cal, before).started)[st] > 0 { StartsLieBehindCheck(cal, before, st); }
  }

  ghost predicate AccountedFor(cal: Calendar, ticks: seq<Tick>, k: nat, st: Start, count: nat)
    requires ValidTicks(ticks) && k < |ticks|
  {
    Evaluates(cal, ticks, k, st.occurrence) && count <= Demand(cal, ticks[k].links, st)
  }

  lemma {:induction false} AccountKept(cal: Calendar, ticks: seq<Tick>, n: nat, k: nat, st: Start, count: nat)
    requires ValidTicks(ticks) && k < n <= |ticks| && AccountedFor(cal, ticks[..n], k, st, count)
    ensures AccountedFor(cal, ticks, k, st, count)
  {
    assert ticks[..n][..k] == ticks[..k];
  }

  /** Over every run, with every crash, an entry is started only by a tick whose
      window holds its instant, and no more often than the links of that tick
      demand it. */
  lemma {:induction false} StartsAreAccountedFor(cal: Calendar, ticks: seq<Tick>, st: Start) returns (k: nat)
    requires ValidTicks(ticks) && ClockMonotone(ticks) && multiset(After(cal, ticks).started)[st] > 0
    ensures k < |ticks| && AccountedFor(cal, ticks, k, st, multiset(After(cal, ticks).started)[st])
    decreases |ticks|
  {
    var n := |ticks| - 1;
    var before, tick := ticks[..n], ticks[n];
    var count := multiset(After(cal, before).started)[st];
    StepStartsOnlyDue(cal, After(cal, before), tick, st);
    if count > 0 {
      // started earlier: the instant is behind the window of this tick
      StartsLieBehindCheck(cal, before, st);
      LastCheckIsPast(cal, before, tick.sampled);
      k := StartsAreAccountedFor(cal, before, st);
      AccountKept(cal, ticks, n, k, st, count);
    } else {
      k := n;
    }
  }

  /** No instant lies in the windows of two ticks. */
  lemma {:induction false} WindowsAreDisjoint(cal: Calendar, ticks: seq<Tick>, j: nat, k: nat, t: int)
    requires ValidTicks(ticks) && ClockMonotone(ticks)
    requires j < k < |ticks| && Evaluates(cal, ticks, j, t)
    ensures !Evaluates(cal, ticks, k, t)
  {
    CheckNeverMovesBack(cal, ticks, j, k);
  }

  lemma {:induction false} CheckNeverMovesBack(cal: Calendar, ticks: seq<Tick>, j: nat, k: nat)
    requires ValidTicks(ticks) && ClockMonotone(ticks)
    requires j < k <= |ticks| && !ticks[j].crash.BeforeCommit?
    ensures After(cal, ticks[..k]).lastCheck.Some? && ticks[j].committed <= After(cal, ticks[..k]).lastCheck.value
    decreases k
  {
    assert ticks[..k][..k - 1] == ticks[..k - 1];
    if j < k - 1 {
      CheckNeverMovesBack(cal, ticks, j, k - 1);
      assert LastReading(ticks[j]) <= ticks[k - 1].sampled;
    }
  }

  /** Distinct primary keys: at most one link makes the demand. */
  lemma {:induction false} DemandOfOneLink(cal: Calendar, links: seq<Link>, st: Start)
    requires LoadedLinks(links) && TimesAreValid(links)
    requires Demand(cal, links, st) > 0
    ensures exists l :: 0 <= l < |links| && Demand(cal, links, st) == DemandOf(cal, links[l], st)
  {
    var n := |links| - 1;
    var rest := links[..n];
    if DemandOf(cal, links[n], st) == 0 {
      DemandOfOneLink(cal, rest, st);
      var l :| 0 <= l < |rest| && Demand(cal, rest, st) == DemandOf(cal, rest[l], st);
      assert Demand(cal, links, st) == DemandOf(cal, links[l], st);
    } else {
      NoDemand(cal, rest, st);
    }
  }

  lemma {:induction false} NoDemand(cal: Calendar, links: seq<Link>, st: Start)
    requires TimesAreValid(links)
    requires forall l :: 0 <= l < |links| ==> (links[l].groupId, links[l].policyId) != (st.groupId, st.policyId)
    ensures Demand(cal, links, st) == 0
  {
    if links != [] { NoDemand(cal, links[..|links| - 1], st); }
  }

  ghost predicate NoTimeRepeated(links: seq<Link>) {
    forall l :: 0 <= l < |links| && links[l].schedule.Some? ==> !RepeatsAMinute(links[l].schedule.value.times)
  }

  /** No planned run is started twice, whatever crashes, pauses, refusals and
      configuration changes happen between and during the ticks, as long as no two
      times of a schedule are read alike. */
  lemma {:induction false} AtMostOnce(cal: Calendar, ticks: seq<Tick>, st: Start)
    requires ValidTicks(ticks) && ClockMonotone(ticks)
    requires forall k :: 0 <= k < |ticks| ==> NoTimeRepeated(ticks[k].links)
    ensures multiset(After(cal, ticks).started)[st] <= 1
  {
    if multiset(After(cal, ticks).started)[st] > 0 {
      var k := StartsAreAccountedFor(cal, ticks, st);
      DemandOfOneLink(cal, ticks[k].links, st);
      var l :| 0 <= l < |ticks[k].links| && Demand(cal, ticks[k].links, st) == DemandOf(cal, ticks[k].links[l], st);
      PlannedTwiceIffRepeated(cal, ticks[k].links[l].schedule.value);
    }
  }

  // ---------------------------------------------------------------- pauses

  /** The entry at place n is reached; at its turn neither group nor schedule is
      paused, the policy is enabled, and the start is accepted. */
  ghost predicate StartsAt(due: seq<Start>, turns: nat -> Turn, reached: nat, n: nat, st: Start) {
    && n < reached <= |due| && due[n] == st
    && !turns(n).groupPaused && turns(n).policyEnabled && !turns(n).schedulePaused && turns(n).accepted
  }

  /** Tick k commits, lives long enough to process the entry at place n of its due
      list, and starts it. */
  ghost predicate StartedAt(cal: Calendar, ticks: seq<Tick>, k: nat, n: nat, st: Start)
    requires ValidTicks(ticks) && k < |ticks|
  {
    && !ticks[k].crash.BeforeCommit? && (ticks[k].crash.AfterEntries? ==> n < ticks[k].crash.processed)
    && var due := DueAt(cal, After(cal, ticks[..k]), ticks[k]);
       StartsAt(due, ticks[k].turns, |due|, n, st)
  }

  lemma {:induction false} StartedIffTurn(due: seq<Start>, turns: nat -> Turn, reached: nat, st: Start)
    requires reached <= |due|
    ensures st in StartedOf(due, turns, reached) <==> exists n :: StartsAt(due, turns, reached, n, st)
  {
    if reached > 0 {
      var m: nat := reached - 1;
      StartedIffTurn(due, turns, m, st);
      if n: nat :| StartsAt(due, turns, m, n, st) { assert StartsAt(due, turns, reached, n, st); }
      if n: nat :| StartsAt(due, turns, reached, n, st) {
        if n < m { assert StartsAt(due, turns, m, n, st); }
      }
      if st == due[m] && Starts(turns(m)) { assert StartsAt(due, turns, reached, m, st); }
    }
  }

  ghost predicate StartedInTick(cal: Calendar, ticks: seq<Tick>, k: nat, st: Start)
    requires ValidTicks(ticks) && k < |ticks|
  {
    exists n :: StartedAt(cal, ticks, k, n, st)
  }

  lemma {:induction false} NextTickStarts(cal: Calendar, ticks: seq<Tick>, k: nat, st: Start)
    requires ValidTicks(ticks) && k < |ticks|
    ensures st in After(cal, ticks[..k + 1]).started
          <==> st in After(cal, ticks[..k]).started || StartedInTick(cal, ticks, k, st)
  {
    var tick, before := ticks[k], After(cal, ticks[..k]);
    assert ticks[..k + 1][..k] == ticks[..k];
    assert After(cal, ticks[..k + 1]) == Step(cal, before, tick);
    if !tick.crash.BeforeCommit? {
      var due := DueAt(cal, before, tick);
      var reached := Reached(due, tick.crash);
      StartedIffTurn(due, tick.turns, reached, st);
      assert forall n :: StartedAt(cal, ticks, k, n, st) <==> StartsAt(due, tick.turns, reached, n, st);
    }
  }

  /** Over every run an entry was started exactly if a committed tick reached it in
      its due list at a moment when neither group, policy nor schedule was paused:
      whatever is paused at its turn is skipped for good. */
  lemma {:induction false} StartedIffUnpausedTurn(cal: Calendar, ticks: seq<Tick>, st: Start)
    requires ValidTicks(ticks)
    ensures st in After(cal, ticks).started <==> exists k :: 0 <= k < |ticks| && StartedInTick(cal, ticks, k, st)
  {
    var holds := (k: nat) => k <= |ticks| && st in After(cal, ticks[..k]).started;
    var brings := (k: nat) => k < |ticks| && StartedInTick(cal, ticks, k, st);
    forall k: nat | k < |ticks| ensures holds(k + 1) <==> holds(k) || brings(k) {
      NextTickStarts(cal, ticks, k, st);
    }
    BroughtBySomeStep(holds, brings, |ticks|);
    assert ticks[..|ticks|] == ticks;
    assert forall k: nat :: k < |ticks| ==> brings(k) == StartedInTick(cal, ticks, k, st);
  }

  // ---------------------------------------------------------------- when a start is doubled

  ghost predicate StartsTwice(cal: Calendar, link: Link, ticks: seq<Tick>, st: Start) {
    && ValidTicks(ticks) && ClockMonotone(ticks)
    && (forall k :: 0 <= k < |ticks| ==> ticks[k].links == [link])
    && multiset(After(cal, ticks).started)[st] >= 2
  }

  lemma {:induction false} AllStarted(due: seq<Start>, turns: nat -> Turn, n: nat)
    requires n <= |due| && forall k :: Starts(turns(k))
    ensures StartedOf(due, turns, n) == due[..n]
  {
    if n > 0 { AllStarted(due, turns, n - 1); }
  }

  lemma {:induction false} DueOfOneLink(cal: Calendar, link: Link, from: int, to: int)
    requires Schedulable(link) && Plannable(link.schedule.value)
    ensures Due(cal, [link], from, to) == DueOf(cal, link, from, to)
  {
    assert [link][..0] == [];
    assert Due(cal, [link][..0], from, to) == [];
  }

  lemma {:induction false} OneTickStartsAll(cal: Calendar, tick: Tick)
    requires ValidTick(tick) && tick.crash == Survives && forall k :: Starts(tick.turns(k))
    ensures After(cal, [tick]).started == Due(cal, tick.links, tick.sampled - FIRST_LOOKBACK, tick.sampled)
  {
    var due := DueAt(cal, State(None, []), tick);
    AllStarted(due, tick.turns, |due|);
    assert due[..|due|] == due;
    assert [tick][..0] == [];
    assert After(cal, []) == State(None, []);
  }

  lemma {:induction false} StartedInOneTick(cal: Calendar, link: Link, tick: Tick, st: Start)
    requires Schedulable(link) && ValidTick(tick) && tick.links == [link]
    requires tick.crash == Survives && forall k :: Starts(tick.turns(k))
    requires st == Start(link.groupId, link.policyId, tick.sampled)
    ensures multiset(After(cal, [tick]).started)[st] == Hits(cal, link.schedule.value, tick.sampled)
  {
    assert tick.links[0] == link;
    OneTickStartsAll(cal, tick);
    DueOfOneLink(cal, link, tick.sampled - FIRST_LOOKBACK, tick.sampled);
    DueOfMultiplicity(cal, link, tick.sampled - FIRST_LOOKBACK, tick.sampled, st);
  }

  lemma {:induction false} OneTickDoubles(cal: Calendar, link: Link, t: int) returns (ticks: seq<Tick>, st: Start)
    requires Schedulable(link) && Plannable(link.schedule.value) && LoadedLinks([link])
    requires Hits(cal, link.schedule.value, t) >= 2
    ensures StartsTwice(cal, link, ticks, st)
  {
    st := Start(link.groupId, link.policyId, t);
    var tick := Tick([link], t, t, (_: nat) => FREE, Survives);
    assert ValidTick(tick);
    StartedInOneTick(cal, link, tick, st);
    ticks := [tick];
    OneTickIsValid(tick);
  }

  lemma {:induction false} OneTickIsValid(tick: Tick)
    requires ValidTick(tick) && LoadedLinks(tick.links)
    ensures ValidTicks([tick]) && ClockMonotone([tick])
  {
  }

  /** A schedule can be started twice for one instant exactly when it fires at
      all and two of its times are read alike, however they are spelled. */
  lemma {:induction false} DoubledIffTimeRepeated(cal: Calendar, link: Link)
    requires Schedulable(link) && Plannable(link.schedule.value) && LoadedLinks([link])
    ensures (exists ticks, st :: StartsTwice(cal, link, ticks, st))
       <==> (exists day :: FiresOn(cal, link.schedule.value, day)) && RepeatsAMinute(link.schedule.value.times)
  {
    var s := link.schedule.value;
    PlannedTwiceIffRepeated(cal, s);
    if t :| Hits(cal, s, t) >= 2 {
      var ticks, st := OneTickDoubles(cal, link, t);
    }
    if ticks: seq<Tick>, st: Start :| StartsTwice(cal, link, ticks, st) {
      var k := StartsAreAccountedFor(cal, ticks, st);
      DemandOfOneLink(cal, [link], st);
      assert Hits(cal, s, st.occurrence) >= 2;
    }
  }

  // ---------------------------------------------------------------- coverage

  /** What becomes of an instant: tick k has it due, or it is dropped because it
      lies between the two clock readings of tick k, or because tick k cuts the
      catch-up off after it. */
  datatype Fate = DueIn(k: nat) | BetweenReadings(k: nat) | CutOff(k: nat)

  ghost predicate HasFate(cal: Calendar, ticks: seq<Tick>, t: int, fate: Fate)
    requires ValidTicks(ticks)
  {
    && fate.k < |ticks| && !ticks[fate.k].crash.BeforeCommit?
    && var last, tick := After(cal, ticks[..fate.k]).lastCheck, ticks[fate.k];
       match fate
       case DueIn(k) =>
         && t <= tick.sampled
         && (if last.Some? then last.value < t && tick.sampled - 900_000_000 < t else tick.sampled - 60_000_000 < t)
       case BetweenReadings(k) => tick.sampled < t <= tick.committed
       case CutOff(k) => last.Some? && last.value < t <= tick.sampled - 900_000_000
  }

  /** The first instant the run looks at: where its first committed window begins. */
  ghost predicate BeginsAt(ticks: seq<Tick>, begin: int) {
    exists k :: 0 <= k < |ticks| && !ticks[k].crash.BeforeCommit? && begin == ticks[k].sampled - 60_000_000
             && forall j :: 0 <= j < k ==> ticks[j].crash.BeforeCommit?
  }

  lemma {:induction false} NoCommitNoCheck(cal: Calendar, ticks: seq<Tick>)
    requires ValidTicks(ticks)
    ensures After(cal, ticks).lastCheck == None <==> forall j :: 0 <= j < |ticks| ==> ticks[j].crash.BeforeCommit?
  {
    if ticks != [] {
      NoCommitNoCheck(cal, ticks[..|ticks| - 1]);
    }
  }

  /** Every instant between the begin of the run and its last committed check has
      exactly one fate: due in exactly one tick, or dropped for exactly one reason. */
  lemma {:induction false} EveryInstantHasOneFate(cal: Calendar, ticks: seq<Tick>, begin: int, t: int)
    requires ValidTicks(ticks) && ClockMonotone(ticks) && BeginsAt(ticks, begin)
    requires After(cal, ticks).lastCheck.Some? && begin < t <= After(cal, ticks).lastCheck.value
    ensures exists fate :: HasFate(cal, ticks, t, fate)
    ensures forall f, g :: HasFate(cal, ticks, t, f) && HasFate(cal, ticks, t, g) ==> f == g
    decreases |ticks|
  {
    assert ticks[..|ticks|] == ticks;
    var fate := FindFate(cal, ticks, |ticks|, begin, t);
    forall f, g | HasFate(cal, ticks, t, f) && HasFate(cal, ticks, t, g) ensures f == g {
      FatesAgree(cal, ticks, t, f, g);
    }
  }

  lemma {:induction false} FatesAgree(cal: Calendar, ticks: seq<Tick>, t: int, f: Fate, g: Fate)
    requires ValidTicks(ticks) && ClockMonotone(ticks)
    requires HasFate(cal, ticks, t, f) && HasFate(cal, ticks, t, g)
    ensures f == g
  {
    if f.k < g.k { LaterFateExcluded(cal, ticks, t, f, g); }
    if g.k < f.k { LaterFateExcluded(cal, ticks, t, g, f); }
  }

  lemma {:induction false} LaterFateExcluded(cal: Calendar, ticks: seq<Tick>, t: int, f: Fate, g: Fate)
    requires ValidTicks(ticks) && ClockMonotone(ticks)
    requires HasFate(cal, ticks, t, f) && f.k < g.k < |ticks|
    ensures !HasFate(cal, ticks, t, g)
  {
    CheckNeverMovesBack(cal, ticks, f.k, g.k);
    assert LastReading(ticks[f.k]) <= ticks[g.k].sampled;
  }

  lemma {:induction false} FindFate(cal: Calendar, ticks: seq<Tick>, m: nat, begin: int, t: int) returns (fate: Fate)
    requires ValidTicks(ticks) && BeginsAt(ticks, begin) && m <= |ticks|
    requires
      var check := After(cal, ticks[..m]).lastCheck;
      check.Some? && begin < t <= check.value
    ensures HasFate(cal, ticks, t, fate)
    decreases m
  {
    assert ticks[..0] == [];
    var n := m - 1;
    var last := After(cal, ticks[..n]).lastCheck;
    if last.Some? && t <= last.value {
      fate := FindFate(cal, ticks, n, begin, t);
    } else {
      fate := FateInTick(cal, ticks, n, begin, t);
    }
  }

  lemma {:induction false} TickSetsCheck(cal: Calendar, ticks: seq<Tick>, n: nat)
    requires ValidTicks(ticks) && n < |ticks|
    ensures After(cal, ticks[..n + 1]).lastCheck
         == if ticks[n].crash.BeforeCommit? then After(cal, ticks[..n]).lastCheck else Some(ticks[n].committed)
  {
    assert ticks[..n + 1][..n] == ticks[..n];
  }

  lemma {:induction false} FirstCommitBegins(cal: Calendar, ticks: seq<Tick>, n: nat, begin: int)
    requires ValidTicks(ticks) && BeginsAt(ticks, begin) && n < |ticks| && !ticks[n].crash.BeforeCommit?
    requires After(cal, ticks[..n]).lastCheck == None
    ensures begin == ticks[n].sampled - FIRST_LOOKBACK
  {
    NoCommitNoCheck(cal, ticks[..n]);
    assert forall j :: 0 <= j < n ==> ticks[..n][j] == ticks[j];
  }

  lemma {:induction false} FateInTick(cal: Calendar, ticks: seq<Tick>, n: nat, begin: int, t: int) returns (fate: Fate)
    requires ValidTicks(ticks) && BeginsAt(ticks, begin) && n < |ticks|
    requires
      var check := After(cal, ticks[..n + 1]).lastCheck;
      check.Some? && begin < t <= check.value
    requires
      var last := After(cal, ticks[..n]).lastCheck;
      last.Some? ==> last.value < t
    ensures HasFate(cal, ticks, t, fate)
  {
    var last := After(cal, ticks[..n]).lastCheck;
    TickSetsCheck(cal, ticks, n);
    if last == None { FirstCommitBegins(cal, ticks, n, begin); }
    fate := if t > ticks[n].sampled then BetweenReadings(n)
            else if last.Some? && t <= ticks[n].sampled - CATCH_UP then CutOff(n)
            else DueIn(n);
  }

  /** The due tick has the entry in its list as often as its links demand it. */
  lemma {:induction false} DueFateIsDue(cal: Calendar, ticks: seq<Tick>, k: nat, st: Start)
    requires ValidTicks(ticks) && HasFate(cal, ticks, st.occurrence, DueIn(k))
    ensures multiset(Due(cal, ticks[k].links, WindowStart(After(cal, ticks[..k]).lastCheck, ticks[k].sampled),
                         ticks[k].sampled))[st]
         == Demand(cal, ticks[k].links, st)
  {
    DueMultiplicity(cal, ticks[k].links, WindowStart(After(cal, ticks[..k]).lastCheck, ticks[k].sampled),
                    ticks[k].sampled, st);
  }

  /** A dropped instant is never started, however long the scheduler runs on. */
  lemma {:induction false} DroppedNeverStarts(cal: Calendar, ticks: seq<Tick>, st: Start, fate: Fate)
    requires ValidTicks(ticks) && ClockMonotone(ticks)
    requires HasFate(cal, ticks, st.occurrence, fate) && !fate.DueIn?
    ensures multiset(After(cal, ticks).started)[st] == 0
  {
    if multiset(After(cal, ticks).started)[st] > 0 {
      var k := StartsAreAccountedFor(cal, ticks, st);
      var due := DueIn(k);
      assert HasFate(cal, ticks, st.occurrence, due);
      if due.k < fate.k { LaterFateExcluded(cal, ticks, st.occurrence, due, fate); }
      if fate.k < due.k { LaterFateExcluded(cal, ticks, st.occurrence, fate, due); }
    }
  }

  // ---------------------------------------------------------------- from the columns to the start

  /** The link has schedule, policy and group, is the entry's, and its schedule calls
      for the instant. */
  ghost predicate LinkCallsFor(cal: Calendar, link: Link, st: Start) {
    && link.schedule.Some? && link.policy.Some? && link.group.Some?
    && link.groupId == st.groupId && link.policyId == st.policyId
    && CallsFor(cal, link.schedule.value, st.occurrence)
  }

  ghost predicate SomeLinkCallsFor(cal: Calendar, links: seq<Link>, st: Start) {
    exists l :: 0 <= l < |links| && LinkCallsFor(cal, links[l], st)
  }

  lemma {:induction false} DemandOfIffCalledFor(cal: Calendar, link: Link, st: Start)
    requires link.schedule.Some? ==> Plannable(link.schedule.value)
    ensures DemandOf(cal, link, st) > 0 <==> LinkCallsFor(cal, link, st)
  {
    if link.schedule.Some? { HitsIffCalledFor(cal, link.schedule.value, st.occurrence); }
  }

  lemma {:induction false} DemandIffCalledFor(cal: Calendar, links: seq<Link>, st: Start)
    requires TimesAreValid(links)
    ensures Demand(cal, links, st) > 0 <==> SomeLinkCallsFor(cal, links, st)
  {
    if links != [] {
      var front, last := links[..|links| - 1], links[|links| - 1];
      DemandIffCalledFor(cal, front, st);
      DemandOfIffCalledFor(cal, last, st);
      SomeLinkOfAppended(cal, front, last, st);
      assert links == front + [last];
      assert Demand(cal, links, st) == Demand(cal, front, st) + DemandOf(cal, last, st);
    }
  }

  lemma {:induction false} SomeLinkOfAppended(cal: Calendar, front: seq<Link>, last: Link, st: Start)
    ensures SomeLinkCallsFor(cal, front + [last], st)
       <==> SomeLinkCallsFor(cal, front, st) || LinkCallsFor(cal, last, st)
  {
    var links := front + [last];
    assert links[|front|] == last && forall l :: 0 <= l < |front| ==> links[l] == front[l];
  }

  lemma {:induction false} DueIffCalledFor(cal: Calendar, links: seq<Link>, from: int, to: int, st: Start)
    requires TimesAreValid(links)
    ensures st in Due(cal, links, from, to) <==> from < st.occurrence <= to && SomeLinkCallsFor(cal, links, st)
  {
    DueMultiplicity(cal, links, from, to, st);
    DemandIffCalledFor(cal, links, st);
    assert st in Due(cal, links, from, to) <==> multiset(Due(cal, links, from, to))[st] > 0;
  }

  /** The entry is due in tick k, which commits, and one of its links calls for it. */
  ghost predicate CalledForIn(cal: Calendar, ticks: seq<Tick>, k: nat, st: Start)
    requires ValidTicks(ticks)
  {
    HasFate(cal, ticks, st.occurrence, DueIn(k)) && SomeLinkCallsFor(cal, ticks[k].links, st)
  }

  lemma {:induction false} ListedIffCalledFor(cal: Calendar, ticks: seq<Tick>, k: nat, st: Start)
    requires ValidTicks(ticks) && k < |ticks| && !ticks[k].crash.BeforeCommit?
    ensures st in DueAt(cal, After(cal, ticks[..k]), ticks[k]) <==> CalledForIn(cal, ticks, k, st)
  {
    var last, tick := After(cal, ticks[..k]).lastCheck, ticks[k];
    DueIffCalledFor(cal, tick.links, WindowStart(last, tick.sampled), tick.sampled, st);
    assert HasFate(cal, ticks, st.occurrence, DueIn(k))
      <==> WindowStart(last, tick.sampled) < st.occurrence <= tick.sampled;
  }

  /** Whatever was started was called for by a link of a committed tick in whose
      window it lies. */
  lemma {:induction false} StartedIsCalledFor(cal: Calendar, ticks: seq<Tick>, st: Start) returns (k: nat)
    requires ValidTicks(ticks) && st in After(cal, ticks).started
    ensures CalledForIn(cal, ticks, k, st)
  {
    StartedIffUnpausedTurn(cal, ticks, st);
    k :| k < |ticks| && StartedInTick(cal, ticks, k, st);
    ListedIffCalledFor(cal, ticks, k, st);
  }

  /** And what a link calls for in the window of a tick that survives and meets
      nothing paused, disabled or refused is started. */
  lemma {:induction false} CalledForIsStarted(cal: Calendar, ticks: seq<Tick>, k: nat, st: Start)
    requires ValidTicks(ticks) && CalledForIn(cal, ticks, k, st)
    requires ticks[k].crash.Survives? && forall n :: ticks[k].turns(n) == Turn(false, true, false, true)
    ensures st in After(cal, ticks).started
  {
    ListedIffCalledFor(cal, ticks, k, st);
    var due := DueAt(cal, After(cal, ticks[..k]), ticks[k]);
    var n :| 0 <= n < |due| && due[n] == st;
    assert StartedAt(cal, ticks, k, n, st);
    assert StartedInTick(cal, ticks, k, st);
    StartedIffUnpausedTurn(cal, ticks, st);
  }

  /** Full coverage needs the two readings to agree on the minute: an instant
      between them is dropped although the scheduler never stood still. */
  lemma {:induction false} CoverageFailsBetweenReadings(cal: Calendar, links: seq<Link>, t: int)
    returns (ticks: seq<Tick>)
    requires LoadedLinks(links) && TimesAreValid(links)
    ensures |ticks| == 2 && ValidTicks(ticks) && ClockMonotone(ticks)
    ensures forall k :: 0 <= k < 2 ==>
            ticks[k].links == links && ticks[k].crash == Survives
            && forall n :: ticks[k].turns(n) == Turn(false, true, false, true)
    ensures ticks[1].sampled - ticks[0].sampled == 60_000_000 && ticks[0].sampled < t < ticks[1].sampled
    ensures forall st: Start :: st.occurrence == t ==> multiset(After(cal, ticks).started)[st] == 0
  {
    var all := (_: nat) => FREE;
    ticks := [Tick(links, t - 1, t, all, Survives), Tick(links, t + 59_999_999, t + 60_000_000, all, Survives)];
    forall st: Start | st.occurrence == t ensures multiset(After(cal, ticks).started)[st] == 0 {
      assert HasFate(cal, ticks, t, BetweenReadings(0));
      DroppedNeverStarts(cal, ticks, st, BetweenReadings(0));
    }
  }
}
