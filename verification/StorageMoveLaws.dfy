/** Planning, moving and verifying agree: a planned move verifies, leaves nothing
    to plan, collides with nothing and can be undone. */
module StorageMoveLaws {
  import opened Wrappers
  import opened Texts
  import opened StoragePaths
  import opened StorageMove

  // ---------------------------------------------------------------- carrying out a plan

  ghost function Relocated(disk: string, moves: seq<(string, string)>): string {
    if moves == [] then disk
    else if moves[|moves| - 1].0 == disk then moves[|moves| - 1].1
    else Relocated(disk, moves[..|moves| - 1])
  }

  ghost function Replaced(path: Option<string>, planned: Option<string>): Option<string> {
    if Filled(planned) then planned else path
  }

  /** The layout after every planned move succeeded. */
  ghost function Applied(layout: Layout, plan: Plan): (r: Layout)
    ensures |r.disks| == |layout.disks|
    ensures forall k :: 0 <= k < |layout.disks| ==> r.disks[k] == Relocated(layout.disks[k], plan.diskMoves)
  {
    layout.(configuration := Replaced(layout.configuration, plan.configuration),
            snapshots := Replaced(layout.snapshots, plan.snapshots),
            paging := Replaced(layout.paging, plan.paging),
            disks := seq(|layout.disks|,
                         k requires 0 <= k < |layout.disks| => Relocated(layout.disks[k], plan.diskMoves)))
  }

  /** Goals that depend on the disk's path only. */
  ghost predicate Consistent(disks: seq<string>, goals: seq<Goal>) {
    |disks| == |goals| && forall i, j ::
        0 <= i < |disks| && 0 <= j < |disks| && disks[i] == disks[j] ==> goals[i] == goals[j]
  }

  lemma {:induction false} MoversSplit(disks: seq<string>, goals: seq<Goal>)
    requires |disks| == |goals| > 0
    ensures var n := |disks| - 1;
            && (!goals[n].MovesTo? ==> Movers(disks, goals) == Movers(disks[..n], goals[..n]))
            && (goals[n].MovesTo? ==>
                  && |Movers(disks, goals)| == |Movers(disks[..n], goals[..n])| + 1
                  && Movers(disks, goals)[|Movers(disks, goals)| - 1] == (disks[n], goals[n].path)
                  && Movers(disks, goals)[..|Movers(disks, goals)| - 1] == Movers(disks[..n], goals[..n]))
  {
    var n := |disks| - 1;
    var moves := Movers(disks[..n], goals[..n]);
    if goals[n].MovesTo? { assert (moves + [(disks[n], goals[n].path)])[..|moves|] == moves; }
  }

  lemma {:induction false} NotMoved(disks: seq<string>, goals: seq<Goal>, disk: string)
    requires |disks| == |goals| && forall i :: 0 <= i < |disks| && disks[i] == disk ==> !goals[i].MovesTo?
    ensures Relocated(disk, Movers(disks, goals)) == disk
  {
    if disks != [] {
      var n := |disks| - 1;
      NotMoved(disks[..n], goals[..n], disk);
      MoversSplit(disks, goals);
    }
  }

  lemma {:induction false} MovedToGoal(disks: seq<string>, goals: seq<Goal>, k: nat)
    requires Consistent(disks, goals) && k < |disks|
    ensures Relocated(disks[k], Movers(disks, goals)) == if goals[k].MovesTo? then goals[k].path else disks[k]
  {
    if !goals[k].MovesTo? {
      NotMoved(disks, goals, disks[k]);
    } else {
      var n := |disks| - 1;
      MoversSplit(disks, goals);
      if disks[n] != disks[k] {
        MovedToGoal(disks[..n], goals[..n], k);
      }
    }
  }

  lemma {:induction false} MoverOrigin(disks: seq<string>, goals: seq<Goal>, m: nat) returns (i: nat)
    requires |disks| == |goals| && m < |Movers(disks, goals)|
    ensures i < |disks| && goals[i] == MovesTo(Movers(disks, goals)[m].1) && Movers(disks, goals)[m].0 == disks[i]
  {
    var n := |disks| - 1;
    if m < |Movers(disks[..n], goals[..n])| {
      i := MoverOrigin(disks[..n], goals[..n], m);
    } else {
      i := n;
    }
  }

  lemma {:induction false} AppliedDisks(layout: Layout, plan: Plan, root: string, k: nat)
    requires IsPlanFor(plan, layout, GoalsOf(layout, root)) && k < |layout.disks|
    ensures var goal := DiskGoal(layout.disks[k], root);
            Applied(layout, plan).disks[k] == if goal.MovesTo? then goal.path else layout.disks[k]
  {
    var goals := GoalsOf(layout, root).disks;
    assert Consistent(layout.disks, goals) by { GoalsConsistent(layout, root); }
    MovedToGoal(layout.disks, goals, k);
  }

  lemma {:induction false} GoalsConsistent(layout: Layout, root: string)
    ensures Consistent(layout.disks, GoalsOf(layout, root).disks)
  {
    var goals := GoalsOf(layout, root).disks;
    forall i, j | 0 <= i < |layout.disks| && 0 <= j < |layout.disks| && layout.disks[i] == layout.disks[j]
      ensures goals[i] == goals[j]
    {
      SameDiskSameGoal(layout.disks[i], layout.disks[j], root);
    }
  }

  lemma {:induction false} SameDiskSameGoal(a: string, b: string, root: string)
    requires a == b
    ensures DiskGoal(a, root) == DiskGoal(b, root)
  {
  }

  // ---------------------------------------------------------------- plan, move, verify

  /** What an error-free plan moves is found where it was planned. */
  lemma {:induction false} PlannedMoveVerifies(layout: Layout, plan: Plan, root: string)
    requires IsPlanFor(plan, layout, GoalsOf(layout, root))
    ensures AllThere(Applied(layout, plan), plan)
  {
    var goals, after := GoalsOf(layout, root).disks, Applied(layout, plan);
    forall m | 0 <= m < |plan.diskMoves| ensures DiskThere(after.disks, plan.diskMoves[m].1) {
      var i := MoverOrigin(layout.disks, goals, m);
      GoalsConsistent(layout, root);
      MovedToGoal(layout.disks, goals, i);
      assert after.disks[i] == plan.diskMoves[m].1;
    }
  }

  // ---------------------------------------------------------------- planning again

  lemma {:induction false} RestOf(path: Option<string>, root: string)
    requires GoalOf(path, root).MovesTo?
    ensures exists rest :: IsRest(rest) && GoalOf(path, root).path == root + rest
  {
    SplitJoins(Trim(path.value));
  }

  lemma {:induction false} StaysAfterMove(path: Option<string>, root: string)
    requires IsStorageRoot(root) && GoalOf(path, root).MovesTo?
    ensures GoalOf(path, root).path != "" && GoalOf(Some(GoalOf(path, root).path), root) == Stays
  {
    RestOf(path, root);
    var rest :| IsRest(rest) && GoalOf(path, root).path == root + rest;
    RootNotEmpty(root);
    LiesOnRoot(root, rest);
  }

  lemma {:induction false} FolderStays(path: Option<string>, root: string)
    requires IsStorageRoot(root) && !GoalOf(path, root).Unsupported?
    ensures GoalOf(Replaced(path, TargetOf(GoalOf(path, root))), root) == Stays
  {
    if GoalOf(path, root).MovesTo? { StaysAfterMove(path, root); }
  }

  lemma {:induction false} NoMovers(disks: seq<string>, goals: seq<Goal>)
    requires |disks| == |goals| && forall k :: 0 <= k < |goals| ==> !goals[k].MovesTo?
    ensures Movers(disks, goals) == []
  {
    if disks != [] { NoMovers(disks[..|disks| - 1], goals[..|disks| - 1]); }
  }

  lemma {:induction false} MoverExists(disks: seq<string>, goals: seq<Goal>, k: nat) returns (m: nat)
    requires |disks| == |goals| && k < |disks| && goals[k].MovesTo?
    ensures m < |Movers(disks, goals)| && Movers(disks, goals)[m] == (disks[k], goals[k].path)
  {
    var n := |disks| - 1;
    if k < n {
      m := MoverExists(disks[..n], goals[..n], k);
    } else {
      m := |Movers(disks[..n], goals[..n])|;
    }
  }

  lemma {:induction false} DiskStays(disk: string, root: string)
    requires IsStorageRoot(root) && (DiskGoal(disk, root).MovesTo? || DiskGoal(disk, root).Stays?)
    ensures var goal := DiskGoal(disk, root);
            && DiskGoal(if goal.MovesTo? then goal.path else disk, root)
            == if goal.MovesTo? && Avhdx(goal.path) then Differencing else Stays
  {
    if DiskGoal(disk, root).MovesTo? { StaysAfterMove(Some(disk), root); }
  }

  lemma {:induction false} DiskGoalAgain(layout: Layout, plan: Plan, root: string, k: nat)
    requires IsStorageRoot(root) && k < |layout.disks|
    requires Supported(GoalsOf(layout, root).disks) && IsPlanFor(plan, layout, GoalsOf(layout, root))
    ensures var goal := GoalsOf(layout, root).disks[k];
            DiskGoal(Applied(layout, plan).disks[k], root) == if goal.MovesTo? && Avhdx(goal.path) then Differencing
                                                              else Stays
  {
    var goal := GoalsOf(layout, root).disks[k];
    assert goal == DiskGoal(layout.disks[k], root);
    assert goal.Stays? || goal.MovesTo?;
    AppliedDisks(layout, plan, root, k);
    DiskStays(layout.disks[k], root);
  }

  /** The goals of a second plan to the same root: only disks whose destination is
      spelled like a differencing disk do not simply stay. */
  ghost predicate GoalsAgain(goals: seq<Goal>, again: Goals) {
    && again.configuration == again.snapshots == again.paging == Stays
    && |again.disks| == |goals|
    && forall k :: 0 <= k < |goals| ==>
        again.disks[k] == if goals[k].MovesTo? && Avhdx(goals[k].path) then Differencing else Stays
  }

  lemma {:induction false} ReplanGoals(layout: Layout, plan: Plan, root: string)
    requires IsStorageRoot(root)
    requires Unhindered(layout, GoalsOf(layout, root)) && IsPlanFor(plan, layout, GoalsOf(layout, root))
    ensures GoalsAgain(GoalsOf(layout, root).disks, GoalsOf(Applied(layout, plan), root))
  {
    FolderStays(layout.configuration, root);
    FolderStays(layout.snapshots, root);
    FolderStays(layout.paging, root);
    var goals, again := GoalsOf(layout, root).disks, GoalsOf(Applied(layout, plan), root).disks;
    forall k | 0 <= k < |goals|
      ensures again[k] == if goals[k].MovesTo? && Avhdx(goals[k].path) then Differencing else Stays
    {
      DiskGoalAgain(layout, plan, root, k);
    }
  }

  lemma {:induction false} SupportedAgain(goals: seq<Goal>, again: Goals)
    requires GoalsAgain(goals, again)
    ensures Supported(again.disks) <==> forall k :: 0 <= k < |goals| && goals[k].MovesTo? ==> !Avhdx(goals[k].path)
  {
    if Supported(again.disks) {
      forall k | 0 <= k < |goals| && goals[k].MovesTo? ensures !Avhdx(goals[k].path) {
        assert again.disks[k].Stays? || again.disks[k].MovesTo?;
      }
    }
    if forall k :: 0 <= k < |goals| && goals[k].MovesTo? ==> !Avhdx(goals[k].path) {
      forall k | 0 <= k < |goals| ensures again.disks[k].Stays? {
      }
    }
  }

  lemma {:induction false} AgainDecides(after: Layout, goals: seq<Goal>, again: Goals)
    requires |after.disks| == |goals| && after.checkpoints == 0 && GoalsAgain(goals, again)
    ensures !SomethingMoves(after, again)
    ensures Unhindered(after, again) <==> Supported(again.disks)
  {
    NoMovers(after.disks, again.disks);
  }

  lemma {:induction false} EndOfConcatenation(a: string, b: string, suffix: string)
    requires |suffix| <= |b|
    ensures EndsWith(a + b, suffix) == EndsWith(b, suffix)
  {
    assert (a + b)[|a + b| - |suffix|..] == b[|b| - |suffix|..];
  }

  lemma {:induction false} LowerOfConcatenation(a: string, b: string)
    ensures Lower(a + b) == Lower(a) + Lower(b)
  {
  }

  lemma {:induction false} ShortRestIsNoSuffix(a: string, rest: string)
    requires 0 < |rest| < 6 && rest[0] == BACKSLASH
    ensures !EndsWith(a + rest, ".avhdx")
  {
    var s := a + rest;
    if |s| >= 6 {
      assert s[|s| - 6..][6 - |rest|] == BACKSLASH;
    }
  }

  /** Below a root the rest alone decides: the suffix holds no backslash. */
  lemma {:induction false} RestDecidesSpelling(a: string, b: string, rest: string)
    requires IsRest(rest) && rest != ""
    ensures Avhdx(a + rest) == Avhdx(b + rest)
  {
    LowerOfConcatenation(a, rest);
    LowerOfConcatenation(b, rest);
    assert Lower(rest)[0] == BACKSLASH;
    if |rest| < 6 {
      ShortRestIsNoSuffix(Lower(a), Lower(rest));
      ShortRestIsNoSuffix(Lower(b), Lower(rest));
    } else {
      EndOfConcatenation(Lower(a), Lower(rest), ".avhdx");
      EndOfConcatenation(Lower(b), Lower(rest), ".avhdx");
    }
  }

  /** The disk is spelled like a differencing disk once white space and backslashes
      around it are gone; a disk that names a whole root takes on the new one's name. */
  ghost predicate TrimmedToAvhdx(disk: string, root: string) {
    var parts := SplitStoragePath(Some(disk));
    if parts.Some? && parts.value.rest == "" then Avhdx(root) else Avhdx(Trim(disk))
  }

  lemma {:induction false} DestinationSpelling(disk: string, root: string)
    requires DiskGoal(disk, root).MovesTo?
    ensures Avhdx(DiskGoal(disk, root).path) <==> TrimmedToAvhdx(disk, root)
  {
    var parts := MatchStorage(Trim(disk)).value;
    SplitJoins(Trim(disk));
    if parts.rest == "" {
      assert root + parts.rest == root;
    } else {
      RestDecidesSpelling(root, parts.root, parts.rest);
    }
  }

  /** After the move, planning to the same root finds nothing left to move, and no
      hindrance exactly if trimming makes no moving disk look like a differencing disk. */
  lemma {:induction false} ReplanFindsNothing(layout: Layout, plan: Plan, root: string)
    requires IsStorageRoot(root)
    requires Unhindered(layout, GoalsOf(layout, root)) && IsPlanFor(plan, layout, GoalsOf(layout, root))
    ensures
      var after := Applied(layout, plan);
      !SomethingMoves(after, GoalsOf(after, root))
    ensures
      var after := Applied(layout, plan);
      Unhindered(after, GoalsOf(after, root))
      <==> forall k :: 0 <= k < |layout.disks| && DiskGoal(layout.disks[k], root).MovesTo?
                   ==> !TrimmedToAvhdx(layout.disks[k], root)
  {
    var goals, after := GoalsOf(layout, root).disks, Applied(layout, plan);
    ReplanGoals(layout, plan, root);
    AgainDecides(after, goals, GoalsOf(after, root));
    SupportedAgain(goals, GoalsOf(after, root));
    TrimmedDisksDecide(layout, root);
  }

  lemma {:induction false} TrimmedDisksDecide(layout: Layout, root: string)
    ensures (forall k :: 0 <= k < |layout.disks| && GoalsOf(layout, root).disks[k].MovesTo? ==>
             !Avhdx(GoalsOf(layout, root).disks[k].path))
       <==> (forall k :: 0 <= k < |layout.disks| && DiskGoal(layout.disks[k], root).MovesTo?
                     ==> !TrimmedToAvhdx(layout.disks[k], root))
  {
    var goals := GoalsOf(layout, root).disks;
    forall k | 0 <= k < |goals| && goals[k].MovesTo?
      ensures Avhdx(goals[k].path) <==> TrimmedToAvhdx(layout.disks[k], root)
    {
      DestinationSpelling(layout.disks[k], root);
    }
  }

  ghost function OneDisk(disk: string): Layout {
    Layout(None, None, None, None, [disk], 0)
  }

  /** A blank behind the name of a differencing disk lets it pass the first plan;
      the planned destination has lost the blank and stops the second. */
  lemma {:induction false} ReplanCanFail(source: string, root: string, rest: string, plan: Plan)
    requires IsStorageRoot(source) && IsStorageRoot(root) && !SameRoot(source, root)
    requires rest != "" && rest[0] == BACKSLASH && Avhdx(rest)
    requires IsPlanFor(plan, OneDisk(source + rest + " "), GoalsOf(OneDisk(source + rest + " "), root))
    ensures
      var layout := OneDisk(source + rest + " ");
      && Unhindered(layout, GoalsOf(layout, root)) && SomethingMoves(layout, GoalsOf(layout, root))
      && Applied(layout, plan) == OneDisk(root + rest)
    ensures !Unhindered(OneDisk(root + rest), GoalsOf(OneDisk(root + rest), root))
  {
    BlankedDiskMoves(source, root, rest);
    DifferencingBelow(root, rest);
    HinderedAgain(source + rest + " ", root + rest, root, plan);
  }

  lemma {:induction false} HinderedAgain(disk: string, there: string, root: string, plan: Plan)
    requires DiskGoal(disk, root) == MovesTo(there) && DiskGoal(there, root) == Differencing
    requires IsPlanFor(plan, OneDisk(disk), GoalsOf(OneDisk(disk), root))
    ensures Unhindered(OneDisk(disk), GoalsOf(OneDisk(disk), root)) &&
            SomethingMoves(OneDisk(disk), GoalsOf(OneDisk(disk), root))
    ensures Applied(OneDisk(disk), plan) == OneDisk(there) && !Unhindered(OneDisk(there), GoalsOf(OneDisk(there), root))
  {
    GoalsOfOne(disk, root);
    OneDiskMoves(disk, there, GoalsOf(OneDisk(disk), root), plan);
    GoalsOfOne(there, root);
    assert GoalsOf(OneDisk(there), root).disks[0] == Differencing;
  }

  lemma {:induction false} DifferencingBelow(root: string, rest: string)
    requires Avhdx(rest)
    ensures DiskGoal(root + rest, root) == Differencing
  {
    LowerOfConcatenation(root, rest);
    EndOfConcatenation(Lower(root), Lower(rest), ".avhdx");
  }

  lemma {:induction false} GoalsOfOne(disk: string, root: string)
    ensures GoalsOf(OneDisk(disk), root) == Goals(Stays, Stays, Stays, [DiskGoal(disk, root)])
  {
  }

  lemma {:induction false} OneDiskMoves(disk: string, there: string, goals: Goals, plan: Plan)
    requires goals == Goals(Stays, Stays, Stays, [MovesTo(there)])
    requires IsPlanFor(plan, OneDisk(disk), goals)
    ensures Unhindered(OneDisk(disk), goals) && SomethingMoves(OneDisk(disk), goals)
    ensures Applied(OneDisk(disk), plan) == OneDisk(there)
  {
    AllMovers([disk], goals.disks);
    assert plan.diskMoves == [(disk, there)];
    assert Applied(OneDisk(disk), plan).disks == [there];
  }

  lemma {:induction false} BlankedDiskMoves(source: string, root: string, rest: string)
    requires IsStorageRoot(source) && !SameRoot(source, root) && rest != "" && rest[0] == BACKSLASH && Avhdx(rest)
    ensures DiskGoal(source + rest + " ", root) == MovesTo(root + rest)
  {
    assert Lower(rest)[|rest| - 6..][5] == 'x';
    BlankAtEnd(source + rest);
    BlankIsTrimmed(source, rest);
    BelowRoot(source, rest);
    SplitDecidesGoal(source + rest + " ", root, Split(source, rest));
  }

  lemma {:induction false} SplitDecidesGoal(disk: string, root: string, parts: Split)
    requires disk != "" && !Avhdx(disk) && SplitStoragePath(Some(disk)) == Some(parts) && !SameRoot(parts.root, root)
    ensures DiskGoal(disk, root) == MovesTo(root + parts.rest)
  {
  }

  lemma {:induction false} BlankAtEnd(name: string)
    ensures !Avhdx(name + " ")
  {
    var s := Lower(name + " ");
    assert s[|s| - 1] == ' ';
    assert |s| >= 6 ==> s[|s| - 6..][5] == ' ';
  }

  lemma {:induction false} BlankIsTrimmed(source: string, rest: string)
    requires IsStorageRoot(source)
    requires rest != "" && !IsSpace(rest[|rest| - 1]) && rest[|rest| - 1] != BACKSLASH
    ensures Trim(source + rest + " ") == source + rest
  {
    var name := source + rest;
    RootNotEmpty(source);
    TrimStartKeeps(name + " ");
    assert (name + " ")[..|name|] == name;
    assert TrimEnd(name) == name;
    assert TrimEnd(name + " ") == name;
    assert TrimSlashes(name) == name;
  }

  // ---------------------------------------------------------------- collisions

  ghost predicate DistinctFiles(disks: seq<string>) {
    forall i, j :: 0 <= i < j < |disks| ==> Lower(disks[i]) != Lower(disks[j])
  }

  /** If no candidate exists beforehand, no existing file is overwritten and no two
      disks end up in one file, whether they move or stay. */
  lemma {:induction false} NothingCollides(layout: Layout, plan: Plan, root: string, files: set<string>)
    requires Unhindered(layout, GoalsOf(layout, root)) && IsPlanFor(plan, layout, GoalsOf(layout, root))
    requires DistinctFiles(layout.disks)
    requires forall k :: 0 <= k < |layout.disks| ==> Lower(layout.disks[k]) in files
    requires forall k :: 0 <= k < |plan.collisionCandidates| ==> Lower(plan.collisionCandidates[k]) !in files
    ensures forall m :: 0 <= m < |plan.diskMoves| ==> Lower(plan.diskMoves[m].1) !in files
    ensures DistinctFiles(Applied(layout, plan).disks)
  {
    var goals, after := GoalsOf(layout, root).disks, Applied(layout, plan);
    forall m | 0 <= m < |plan.diskMoves| ensures Lower(plan.diskMoves[m].1) !in files {
      assert plan.collisionCandidates[m] == plan.diskMoves[m].1;
    }
    forall i, j | 0 <= i < j < |after.disks| ensures Lower(after.disks[i]) != Lower(after.disks[j]) {
      AppliedDisks(layout, plan, root, i);
      AppliedDisks(layout, plan, root, j);
      if goals[i].MovesTo? && goals[j].MovesTo? {
        DistinctTargets(layout.disks, goals, i, j);
      } else if goals[i].MovesTo? {
        var m := MoverExists(layout.disks, goals, i);
        assert Lower(after.disks[i]) !in files;
      } else if goals[j].MovesTo? {
        var m := MoverExists(layout.disks, goals, j);
        assert Lower(after.disks[j]) !in files;
      }
    }
  }

  lemma {:induction false} DistinctTargets(disks: seq<string>, goals: seq<Goal>, i: nat, j: nat)
    requires |disks| == |goals| && i < j < |disks| && goals[i].MovesTo? && goals[j].MovesTo?
    requires DistinctDestinations(Movers(disks, goals))
    ensures Lower(goals[i].path) != Lower(goals[j].path)
  {
    var n := |disks| - 1;
    var moves, all := Movers(disks[..n], goals[..n]), Movers(disks, goals);
    assert forall m :: 0 <= m < |moves| ==> all[m] == moves[m];
    if j < n {
      assert DistinctDestinations(moves);
      DistinctTargets(disks[..n], goals[..n], i, j);
    } else {
      var m := MoverExists(disks[..n], goals[..n], i);
      assert all[m].1 == goals[i].path && all[|moves|].1 == goals[j].path;
    }
  }

  // ---------------------------------------------------------------- there and back

  /** The path lies below the root and is spelled without anything around it. */
  ghost predicate CleanBelow(path: string, root: string, rest: string) {
    path == root + rest && IsRest(rest) && Trim(path) == path
  }

  ghost predicate FolderOn(path: Option<string>, root: string) {
    Filled(path) ==> exists rest :: CleanBelow(path.value, root, rest)
  }

  /** Everything of the VM lies below one root; no disk is the root itself. */
  ghost predicate AllOn(layout: Layout, root: string) {
    && FolderOn(layout.configuration, root) && FolderOn(layout.snapshots, root) && FolderOn(layout.paging, root)
    && forall k :: 0 <= k < |layout.disks| ==> exists rest :: rest != "" && CleanBelow(layout.disks[k], root, rest)
  }

  lemma {:induction false} CleanPathSplits(path: string, root: string, rest: string)
    requires IsStorageRoot(root) && CleanBelow(path, root, rest)
    ensures path != "" && SplitStoragePath(Some(path)) == Some(Split(root, rest))
  {
    RootNotEmpty(root);
    BelowRoot(root, rest);
  }

  lemma {:induction false} SameRootSymmetric(a: string, b: string)
    ensures SameRoot(a, b) == SameRoot(b, a)
  {
  }

  /** A clean path moved to another root has the goal of its old place. */
  lemma {:induction false} PathReturns(path: string, source: string, target: string, rest: string)
    requires IsStorageRoot(source) && IsStorageRoot(target) && !SameRoot(source, target) &&
             CleanBelow(path, source, rest)
    ensures GoalOf(Some(path), target) == MovesTo(target + rest)
    ensures GoalOf(Some(target + rest), source) == MovesTo(path)
    ensures target + rest != ""
  {
    CleanPathSplits(path, source, rest);
    RestSurvivesMove(source, rest, target);
    RootNotEmpty(target);
    SameRootSymmetric(source, target);
  }

  lemma {:induction false} FolderReturns(path: Option<string>, source: string, target: string)
    requires IsStorageRoot(source) && IsStorageRoot(target) && !SameRoot(source, target) && FolderOn(path, source)
    ensures !GoalOf(path, target).Unsupported?
    ensures var there := Replaced(path, TargetOf(GoalOf(path, target)));
            && !GoalOf(there, source).Unsupported? && Replaced(there, TargetOf(GoalOf(there, source))) == path
            && Filled(TargetOf(GoalOf(there, source))) == Filled(TargetOf(GoalOf(path, target)))
  {
    if Filled(path) {
      var rest :| CleanBelow(path.value, source, rest);
      PathReturns(path.value, source, target, rest);
      FilledFolderReturns(path.value, source, target, target + rest);
    } else {
      EmptyFolderStays(path, source);
      EmptyFolderStays(path, target);
    }
  }

  lemma {:induction false} EmptyFolderStays(path: Option<string>, root: string)
    requires !Filled(path)
    ensures !GoalOf(path, root).Unsupported? && Replaced(path, TargetOf(GoalOf(path, root))) == path
    ensures !Filled(TargetOf(GoalOf(path, root)))
  {
  }

  lemma {:induction false} FilledFolderReturns(path: string, source: string, target: string, there: string)
    requires path != "" && there != "" && GoalOf(Some(path), target) == MovesTo(there) &&
             GoalOf(Some(there), source) == MovesTo(path)
    ensures Replaced(Some(path), TargetOf(GoalOf(Some(path), target))) == Some(there)
    ensures Replaced(Some(there), TargetOf(GoalOf(Some(there), source))) == Some(path)
    ensures Filled(TargetOf(GoalOf(Some(path), target))) && Filled(TargetOf(GoalOf(Some(there), source)))
  {
  }

  lemma {:induction false} DiskReturns(disk: string, source: string, target: string)
    requires IsStorageRoot(source) && IsStorageRoot(target) && !SameRoot(source, target)
    requires !Avhdx(disk) && exists rest :: rest != "" && CleanBelow(disk, source, rest)
    ensures DiskGoal(disk, target).MovesTo? && DiskGoal(DiskGoal(disk, target).path, source) == MovesTo(disk)
  {
    var rest :| rest != "" && CleanBelow(disk, source, rest);
    PathReturns(disk, source, target, rest);
    RestDecidesSpelling(source, target, rest);
  }

  /** The goals on the way back undo those on the way there. */
  ghost predicate GoalsBack(layout: Layout, there: Goals, after: Layout, back: Goals)
    requires |layout.disks| == |there.disks| == |after.disks| == |back.disks|
  {
    && !back.configuration.Unsupported? &&
        Replaced(after.configuration, TargetOf(back.configuration)) == layout.configuration
    && !back.snapshots.Unsupported? && Replaced(after.snapshots, TargetOf(back.snapshots)) == layout.snapshots
    && !back.paging.Unsupported? && Replaced(after.paging, TargetOf(back.paging)) == layout.paging
    && Filled(TargetOf(back.configuration)) == Filled(TargetOf(there.configuration))
    && Filled(TargetOf(back.snapshots)) == Filled(TargetOf(there.snapshots))
    && Filled(TargetOf(back.paging)) == Filled(TargetOf(there.paging))
    && forall k :: 0 <= k < |layout.disks| ==> there.disks[k].MovesTo? && back.disks[k] == MovesTo(layout.disks[k])
  }

  lemma {:induction false} MovesBothWays(layout: Layout, there: Goals, after: Layout, back: Goals)
    requires |layout.disks| == |there.disks| == |after.disks| == |back.disks|
    requires GoalsBack(layout, there, after, back)
    ensures SomethingMoves(after, back) <==> SomethingMoves(layout, there)
  {
    AllMovers(layout.disks, there.disks);
    AllMovers(after.disks, back.disks);
  }

  lemma {:induction false} BackGoals(layout: Layout, plan: Plan, source: string, target: string)
    requires IsStorageRoot(source) && IsStorageRoot(target) && !SameRoot(source, target) && AllOn(layout, source)
    requires Unhindered(layout, GoalsOf(layout, target)) && IsPlanFor(plan, layout, GoalsOf(layout, target))
    ensures var after := Applied(layout, plan);
            GoalsBack(layout, GoalsOf(layout, target), after, GoalsOf(after, source))
  {
    FolderReturns(layout.configuration, source, target);
    FolderReturns(layout.snapshots, source, target);
    FolderReturns(layout.paging, source, target);
    var there, after := GoalsOf(layout, target).disks, Applied(layout, plan);
    var back := GoalsOf(after, source).disks;
    forall k | 0 <= k < |layout.disks| ensures there[k].MovesTo? && back[k] == MovesTo(layout.disks[k]) {
      DiskBack(layout, plan, source, target, k);
    }
  }

  lemma {:induction false} DiskBack(layout: Layout, plan: Plan, source: string, target: string, k: nat)
    requires IsStorageRoot(source) && IsStorageRoot(target) && !SameRoot(source, target) && AllOn(layout, source) &&
             k < |layout.disks|
    requires Supported(GoalsOf(layout, target).disks) && IsPlanFor(plan, layout, GoalsOf(layout, target))
    ensures GoalsOf(layout, target).disks[k].MovesTo?
    ensures DiskGoal(Applied(layout, plan).disks[k], source) == MovesTo(layout.disks[k])
  {
    var goal := GoalsOf(layout, target).disks[k];
    assert goal == DiskGoal(layout.disks[k], target);
    assert goal.Stays? || goal.MovesTo?;
    assert !Avhdx(layout.disks[k]);
    DiskReturns(layout.disks[k], source, target);
    AppliedDisks(layout, plan, target, k);
  }

  lemma {:induction false} AllMovers(disks: seq<string>, goals: seq<Goal>)
    requires |disks| == |goals| && forall k :: 0 <= k < |goals| ==> goals[k].MovesTo?
    ensures |Movers(disks, goals)| == |disks|
    ensures forall k :: 0 <= k < |disks| ==> Movers(disks, goals)[k] == (disks[k], goals[k].path)
  {
    if disks != [] {
      var n := |disks| - 1;
      AllMovers(disks[..n], goals[..n]);
    }
  }

  /** Back where they came from, distinct files cannot collide. */
  lemma {:induction false} BackIsUnhindered(layout: Layout, there: Goals, after: Layout, back: Goals)
    requires |layout.disks| == |there.disks| == |after.disks| == |back.disks|
    requires GoalsBack(layout, there, after, back) && after.checkpoints == 0 && DistinctFiles(layout.disks)
    ensures Unhindered(after, back)
  {
    AllMovers(after.disks, back.disks);
    var moves := Movers(after.disks, back.disks);
    forall i, j | 0 <= i < j < |moves| ensures Lower(moves[i].1) != Lower(moves[j].1) {
      assert moves[i].1 == layout.disks[i] && moves[j].1 == layout.disks[j];
    }
  }

  lemma {:induction false} BackRestores(layout: Layout, there: Goals, after: Layout, back: Goals, again: Plan)
    requires |layout.disks| == |there.disks| == |after.disks| == |back.disks|
    requires GoalsBack(layout, there, after, back) && Consistent(after.disks, back.disks)
    requires again.configuration == TargetOf(back.configuration) && again.snapshots == TargetOf(back.snapshots)
             && again.paging == TargetOf(back.paging) && again.diskMoves == Movers(after.disks, back.disks)
    requires after.vmId == layout.vmId && after.checkpoints == layout.checkpoints
    ensures Applied(after, again) == layout
  {
    var r := Applied(after, again);
    forall k | 0 <= k < |layout.disks| ensures r.disks[k] == layout.disks[k] {
      MovedToGoal(after.disks, back.disks, k);
    }
    assert r.disks == layout.disks;
  }

  /** A VM that lay on one root and was moved to another can be moved back: nothing
      hinders it, there is something to move if there was on the way there, and
      every path is restored to the letter. */
  lemma {:induction false} ThereAndBack(layout: Layout, plan: Plan, source: string, target: string, again: Plan)
    requires IsStorageRoot(source) && IsStorageRoot(target) && !SameRoot(source, target)
    requires AllOn(layout, source) && DistinctFiles(layout.disks)
    requires Unhindered(layout, GoalsOf(layout, target)) && IsPlanFor(plan, layout, GoalsOf(layout, target))
    ensures var after := Applied(layout, plan);
            && Unhindered(after, GoalsOf(after, source))
            && (SomethingMoves(after, GoalsOf(after, source)) <==> SomethingMoves(layout, GoalsOf(layout, target)))
            && (IsPlanFor(again, after, GoalsOf(after, source)) ==> Applied(after, again) == layout)
  {
    var there, after := GoalsOf(layout, target), Applied(layout, plan);
    var back := GoalsOf(after, source);
    BackGoals(layout, plan, source, target);
    BackIsUnhindered(layout, there, after, back);
    MovesBothWays(layout, there, after, back);
    GoalsConsistent(after, source);
    if IsPlanFor(again, after, back) {
      BackRestores(layout, there, after, back, again);
    }
  }
}
