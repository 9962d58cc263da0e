/** Site mismatches with a grace period: a VM is reported once its host and its
    storage have stood at different sites for long enough without a break. */
module SiteMismatches {

  /** One run of the check: the time, whether a switchover suspends it, whether any
      site is configured, and the verdict on every discovered VM row; rows of one VM
      may repeat. */
  datatype Check = Check(now: int, switchover: bool, sitesConfigured: bool, vms: seq<(string, bool)>)

  ghost predicate Mismatched(c: Check, vm: string) {
    c.sitesConfigured && exists k :: 0 <= k < |c.vms| && c.vms[k] == (vm, true)
  }

  class Observer {
    var firstSeen: map<string, int>   // one observation per VM

    constructor ()
      ensures firstSeen == map[]
    {
      firstSeen := map[];
    }

    /** Runs one check; returns the VMs whose alarm condition holds. `active` are
        the VMs with an active alarm, which a switchover leaves alone. */
    method Run(c: Check, grace: int, active: set<string>) returns (seen: set<string>)
      modifies this
      ensures IsObserved(old(firstSeen), c, firstSeen)
      ensures c.switchover ==> seen == active
      ensures !c.switchover ==>
                forall vm :: vm in seen <==> Mismatched(c, vm) && vm in firstSeen && firstSeen[vm] <= c.now - grace
    {
      if c.switchover {
        return active;
      }
      ghost var before := firstSeen;
      var current: set<string> := {};
      seen := {};
      if c.sitesConfigured {
        for k := 0 to |c.vms|
          invariant forall vm :: vm in current <==> exists j :: 0 <= j < k && c.vms[j] == (vm, true)
          invariant forall vm :: vm in firstSeen <==> vm in before || vm in current
          invariant forall vm :: vm in firstSeen ==> firstSeen[vm] == if vm in before then before[vm] else c.now
          invariant forall vm :: vm in seen <==> vm in current && firstSeen[vm] <= c.now - grace
        {
          var (vm, mismatch) := c.vms[k];
          assert c.vms[k] == (vm, mismatch);
          if vm !in current && mismatch {
            current := current + {vm};
            if vm !in firstSeen {
              firstSeen := firstSeen[vm := c.now];
            }
            if !(firstSeen[vm] > c.now - grace) {
              seen := seen + {vm};
            }
          }
        }
      }
      firstSeen := map vm | vm in firstSeen && vm in current :: firstSeen[vm];
    }
  }

  /** The observations one check leaves behind. */
  ghost predicate IsObserved(before: map<string, int>, c: Check, after: map<string, int>) {
    if c.switchover then after == before
    else
      && (forall vm :: vm in after <==> Mismatched(c, vm))
      && forall vm :: vm in after ==> after[vm] == if vm in before then before[vm] else c.now
  }

  // ---------------------------------------------------------------- whole runs

  /** `states[k]` are the observations after the first k checks. */
  ghost predicate IsRun(checks: seq<Check>, states: seq<map<string, int>>) {
    && |states| == |checks| + 1 && states[0] == map[]
    && forall k :: 0 <= k < |checks| ==> IsObserved(states[k], checks[k], states[k + 1])
  }

  /** Checks that run at all between k and n see the mismatch. */
  ghost predicate Unbroken(checks: seq<Check>, k: nat, n: nat, vm: string)
    requires n <= |checks|
  {
    forall j :: k <= j < n && !checks[j].switchover ==> Mismatched(checks[j], vm)
  }

  /** The last check before k that ran did not see it, or there was none. */
  ghost predicate NotBefore(checks: seq<Check>, k: nat, vm: string)
    requires k <= |checks|
  {
    forall j :: 0 <= j < k && !checks[j].switchover && (forall i :: j < i < k ==> checks[i].switchover) ==>
        !Mismatched(checks[j], vm)
  }

  /** Check k begins the streak of mismatches that reaches up to the first n checks. */
  ghost predicate BeginsStreak(checks: seq<Check>, k: nat, n: nat, vm: string)
    requires n <= |checks|
  {
    k < n && !checks[k].switchover && Mismatched(checks[k], vm) && Unbroken(checks, k, n, vm) &&
        NotBefore(checks, k, vm)
  }

  /** Between two checks that ran, with only switchovers between, nothing changes. */
  lemma {:induction false} SwitchoverChangesNothing(checks: seq<Check>, states: seq<map<string, int>>, j: nat, k: nat)
    requires IsRun(checks, states) && j <= k <= |checks| && forall i :: j <= i < k ==> checks[i].switchover
    ensures states[k] == states[j]
  {
    if j < k {
      SwitchoverChangesNothing(checks, states, j, k - 1);
      assert IsObserved(states[k - 1], checks[k - 1], states[k]);
    }
  }

  lemma {:induction false} LastRunBefore(checks: seq<Check>, k: nat) returns (j: int)
    requires k <= |checks|
    ensures -1 <= j < k && (j >= 0 ==> !checks[j].switchover) && forall i :: j < i < k ==> checks[i].switchover
  {
    j := k - 1;
    while j >= 0 && checks[j].switchover
      invariant -1 <= j < k && forall i :: j < i < k ==> checks[i].switchover
    {
      j := j - 1;
    }
  }

  /** An observation exists exactly if the last check that ran saw the mismatch. */
  lemma {:induction false} ObservedIffLastSeen(checks: seq<Check>, states: seq<map<string, int>>, n: nat, vm: string)
    requires IsRun(checks, states) && n <= |checks|
    ensures vm in states[n] <==> !NotBefore(checks, n, vm)
  {
    var j := LastRunBefore(checks, n);
    SwitchoverChangesNothing(checks, states, j + 1, n);
    if j >= 0 {
      assert IsObserved(states[j], checks[j], states[j + 1]);
      forall i | 0 <= i < n && !checks[i].switchover && (forall m :: i < m < n ==> checks[m].switchover)
        ensures i == j
      {
      }
    }
  }

  /** Over every run, the time kept for a VM is that of the check that began its
      current unbroken streak; switchovers neither break nor prolong it. */
  lemma {:induction false} FirstSeenBeginsStreak(checks: seq<Check>, states: seq<map<string, int>>, n: nat, vm: string)
    returns (k: nat)
    requires IsRun(checks, states) && n <= |checks| && vm in states[n]
    ensures BeginsStreak(checks, k, n, vm) && states[n][vm] == checks[k].now
  {
    assert IsObserved(states[n - 1], checks[n - 1], states[n]);
    if checks[n - 1].switchover {
      k := FirstSeenBeginsStreak(checks, states, n - 1, vm);
    } else if vm in states[n - 1] {
      k := FirstSeenBeginsStreak(checks, states, n - 1, vm);
    } else {
      k := n - 1;
      ObservedIffLastSeen(checks, states, n - 1, vm);
    }
  }

  /** The streak is unique, and every streak is observed. */
  lemma {:induction false} StreakIsObserved(checks: seq<Check>, states: seq<map<string, int>>, n: nat, vm: string,
                                            k: nat)
    requires IsRun(checks, states) && n <= |checks| && BeginsStreak(checks, k, n, vm)
    ensures vm in states[n] && states[n][vm] == checks[k].now
  {
    assert IsObserved(states[n - 1], checks[n - 1], states[n]);
    if k == n - 1 {
      ObservedIffLastSeen(checks, states, k, vm);
    } else {
      StreakIsObserved(checks, states, n - 1, vm, k);
    }
  }

  /** A check that runs reports a VM exactly if its streak began at least the grace
      period ago. */
  lemma {:induction false} ReportedIffStreakLongEnough(checks: seq<Check>, states: seq<map<string, int>>, n: nat,
                                                       vm: string, grace: int)
    requires IsRun(checks, states) && n < |checks| && !checks[n].switchover
    ensures (Mismatched(checks[n], vm) && vm in states[n + 1] && states[n + 1][vm] <= checks[n].now - grace)
       <==> exists k: nat :: BeginsStreak(checks, k, n + 1, vm) && checks[k].now <= checks[n].now - grace
  {
    assert IsObserved(states[n], checks[n], states[n + 1]);
    if vm in states[n + 1] {
      var k := FirstSeenBeginsStreak(checks, states, n + 1, vm);
    }
    if k: nat :| BeginsStreak(checks, k, n + 1, vm) && checks[k].now <= checks[n].now - grace {
      StreakIsObserved(checks, states, n + 1, vm, k);
    }
  }
}
