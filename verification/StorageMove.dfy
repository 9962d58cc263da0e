/** The storage move of a VM: plan where every file goes, and verify afterwards
    where it went. */
module StorageMove {
  import opened Wrappers
  import opened Texts
  import opened StoragePaths

  datatype Layout = Layout(
    vmId: Option<string>,
    configuration: Option<string>,
    snapshots: Option<string>,
    paging: Option<string>,
    disks: seq<string>,
    checkpoints: nat)

  datatype PlanError =
    | HasCheckpoints
    | NotOnStorage(path: string)
    | IsAvhdx(disk: string)
    | SameDestination(disk: string)
    | AlreadyThere

  datatype Plan = Plan(
    configuration: Option<string>,
    snapshots: Option<string>,
    paging: Option<string>,
    diskMoves: seq<(string, string)>,
    collisionCandidates: seq<string>,
    errors: seq<PlanError>)

  // ---------------------------------------------------------------- where each path goes

  datatype Goal = Stays | Unsupported | Differencing | MovesTo(path: string)

  /** A path goes nowhere if it is missing or already on the root, and otherwise to
      the same place below the new root. */
  function GoalOf(path: Option<string>, root: string): Goal {
    if !Filled(path) then Stays
    else
      match SplitStoragePath(path)
      case None => Unsupported
      case Some(parts) => if SameRoot(parts.root, root) then Stays else MovesTo(root + parts.rest)
  }

  predicate EndsWith(s: string, suffix: string) {
    |s| >= |suffix| && s[|s| - |suffix|..] == suffix
  }

  predicate Avhdx(disk: string) {
    EndsWith(Lower(disk), ".avhdx")
  }

  function DiskGoal(disk: string, root: string): Goal {
    if Avhdx(disk) then Differencing else GoalOf(Some(disk), root)
  }

  datatype Goals = Goals(configuration: Goal, snapshots: Goal, paging: Goal, disks: seq<Goal>)

  function GoalsOf(layout: Layout, root: string): (g: Goals)
    ensures |g.disks| == |layout.disks|
    ensures forall k :: 0 <= k < |layout.disks| ==> g.disks[k] == DiskGoal(layout.disks[k], root)
    ensures g.configuration == GoalOf(layout.configuration, root)
    ensures g.snapshots == GoalOf(layout.snapshots, root)
    ensures g.paging == GoalOf(layout.paging, root)
  {
    Goals(GoalOf(layout.configuration, root), GoalOf(layout.snapshots, root), GoalOf(layout.paging, root),
          seq(|layout.disks|, k requires 0 <= k < |layout.disks| => DiskGoal(layout.disks[k], root)))
  }

  function TargetOf(g: Goal): Option<string> {
    if g.MovesTo? then Some(g.path) else None
  }

  // ---------------------------------------------------------------- the plan the goals call for

  /** The moving disks with their destinations, in order. */
  function Movers(disks: seq<string>, goals: seq<Goal>): seq<(string, string)>
    requires |disks| == |goals|
  {
    if disks == [] then []
    else
      var n := |disks| - 1;
      Movers(disks[..n], goals[..n]) + (if goals[n].MovesTo? then [(disks[n], goals[n].path)] else [])
  }

  function VmcxPath(folder: string, vmId: string): string {
    folder + (if folder != "" && (folder[|folder| - 1] == '\\' || folder[|folder| - 1] == '/') then "" else "\\")
    + "Virtual Machines\\" + vmId + ".vmcx"
  }

  function Destinations(moves: seq<(string, string)>): (r: seq<string>)
    ensures |r| == |moves| && forall k :: 0 <= k < |moves| ==> r[k] == moves[k].1
  {
    seq(|moves|, k requires 0 <= k < |moves| => moves[k].1)
  }

  function VmcxCandidate(config: Option<string>, vmId: Option<string>): seq<string> {
    if Filled(config) && Filled(vmId) then [VmcxPath(config.value, vmId.value)] else []
  }

  ghost predicate Supported(goals: seq<Goal>) {
    forall k :: 0 <= k < |goals| ==> goals[k].Stays? || goals[k].MovesTo?
  }

  ghost predicate DistinctDestinations(moves: seq<(string, string)>) {
    forall i, j :: 0 <= i < j < |moves| ==> Lower(moves[i].1) != Lower(moves[j].1)
  }

  predicate SomethingMoves(layout: Layout, g: Goals)
    requires |layout.disks| == |g.disks|
  {
    || Filled(TargetOf(g.configuration)) || Filled(TargetOf(g.snapshots)) || Filled(TargetOf(g.paging))
    || Movers(layout.disks, g.disks) != []
  }

  /** Nothing stands against moving: no checkpoints, every path on some storage
      root, no differencing disk, no two disks to one place. */
  ghost predicate Unhindered(layout: Layout, g: Goals)
    requires |layout.disks| == |g.disks|
  {
    && layout.checkpoints == 0
    && Supported(g.disks)
    && !g.configuration.Unsupported? && !g.snapshots.Unsupported? && !g.paging.Unsupported?
    && DistinctDestinations(Movers(layout.disks, g.disks))
  }

  lemma {:induction false} MoversNext(disks: seq<string>, goals: seq<Goal>, k: nat)
    requires |disks| == |goals| && k < |disks|
    ensures Movers(disks[..k + 1], goals[..k + 1])
         == if goals[k].MovesTo? then Movers(disks[..k], goals[..k]) + [(disks[k], goals[k].path)]
            else Movers(disks[..k], goals[..k])
    ensures Supported(goals[..k + 1]) <==> Supported(goals[..k]) && (goals[k].Stays? || goals[k].MovesTo?)
  {
    assert disks[..k + 1][..k] == disks[..k] && goals[..k + 1][..k] == goals[..k];
    assert goals[..k + 1] == goals[..k] + [goals[k]];
  }

  /** The folded destinations taken so far. */
  ghost predicate AreTaken(seen: map<string, string>, moves: seq<(string, string)>) {
    forall d :: d in seen <==> exists m :: 0 <= m < |moves| && Lower(moves[m].1) == d
  }

  lemma {:induction false} OneMoreTaken(seen: map<string, string>, moves: seq<(string, string)>, disk: string,
                                        path: string)
    requires AreTaken(seen, moves)
    ensures AreTaken(seen[Lower(path) := disk], moves + [(disk, path)])
  {
    var longer := moves + [(disk, path)];
    assert longer[|moves|] == (disk, path);
    forall d | d in seen ensures exists m :: 0 <= m < |longer| && Lower(longer[m].1) == d {
      var m :| 0 <= m < |moves| && Lower(moves[m].1) == d;
      assert Lower(longer[m].1) == d;
    }
  }

  /** What the disks before `k` have led to. */
  ghost predicate PlannedSoFar(disks: seq<string>, goals: seq<Goal>, moves: seq<(string, string)>,
                               errors: seq<PlanError>)
    requires |disks| == |goals|
  {
    && (errors == [] <==> Supported(goals) && DistinctDestinations(Movers(disks, goals)))
    && (errors == [] ==> moves == Movers(disks, goals))
  }

  lemma {:induction false} ErrorAdded(disks: seq<string>, goals: seq<Goal>, k: nat, moves: seq<(string, string)>,
                                      errors: seq<PlanError>, e: PlanError)
    requires |disks| == |goals| && k < |disks| && !goals[k].Stays?
    requires goals[k].MovesTo? ==> errors == [] ==>
             !DistinctDestinations(Movers(disks[..k], goals[..k]) + [(disks[k], goals[k].path)])
    requires PlannedSoFar(disks[..k], goals[..k], moves, errors)
    ensures PlannedSoFar(disks[..k + 1], goals[..k + 1], moves, errors + [e])
  {
    MoversNext(disks, goals, k);
    if goals[k].MovesTo? { DistinctNext(Movers(disks[..k], goals[..k]), (disks[k], goals[k].path)); }
  }

  lemma {:induction false} MoveAdded(disks: seq<string>, goals: seq<Goal>, k: nat, moves: seq<(string, string)>,
                                     errors: seq<PlanError>)
    requires |disks| == |goals| && k < |disks| && goals[k].MovesTo?
    requires errors == [] ==> forall m :: 0 <= m < |moves| ==> Lower(moves[m].1) != Lower(goals[k].path)
    requires PlannedSoFar(disks[..k], goals[..k], moves, errors)
    ensures PlannedSoFar(disks[..k + 1], goals[..k + 1], moves + [(disks[k], goals[k].path)], errors)
  {
    MoversNext(disks, goals, k);
    DistinctNext(Movers(disks[..k], goals[..k]), (disks[k], goals[k].path));
  }

  /** The errors name every disk before `k` that cannot move, and are disk errors. */
  ghost predicate NamesHindered(disks: seq<string>, goals: seq<Goal>, k: nat, errors: seq<PlanError>)
    requires k <= |disks| == |goals|
  {
    && (forall e :: e in errors ==> e.IsAvhdx? || e.NotOnStorage? || e.SameDestination?)
    && (forall i :: 0 <= i < k && goals[i].Differencing? ==> IsAvhdx(disks[i]) in errors)
    && (forall i :: 0 <= i < k && goals[i].Unsupported? ==> NotOnStorage(disks[i]) in errors)
  }

  /** One disk: it stays, moves, or stands in the way. */
  method PlanDisk(disks: seq<string>, goals: seq<Goal>, k: nat, moves: seq<(string, string)>, errors: seq<PlanError>,
                  seen: map<string, string>)
    returns (moved: seq<(string, string)>, found: seq<PlanError>, taken: map<string, string>)
    requires k < |disks| == |goals| && PlannedSoFar(disks[..k], goals[..k], moves, errors) && AreTaken(seen, moves)
    ensures PlannedSoFar(disks[..k + 1], goals[..k + 1], moved, found) && AreTaken(taken, moved)
    ensures NamesHindered(disks, goals, k, errors) ==> NamesHindered(disks, goals, k + 1, found)
  {
    moved, found, taken := moves, errors, seen;
    match goals[k] {
      case Stays =>
        MoversNext(disks, goals, k);
      case Differencing =>
        ErrorAdded(disks, goals, k, moves, errors, IsAvhdx(disks[k]));
        found := errors + [IsAvhdx(disks[k])];
      case Unsupported =>
        ErrorAdded(disks, goals, k, moves, errors, NotOnStorage(disks[k]));
        found := errors + [NotOnStorage(disks[k])];
      case MovesTo(path) =>
        if Lower(path) in seen {
          DistinctNext(moves, (disks[k], path));
          ErrorAdded(disks, goals, k, moves, errors, SameDestination(disks[k]));
          found := errors + [SameDestination(disks[k])];
        } else {
          MoveAdded(disks, goals, k, moves, errors);
          OneMoreTaken(seen, moves, disks[k], path);
          taken := seen[Lower(path) := disks[k]];
          moved := moves + [(disks[k], path)];
        }
    }
  }

  /** The disk loop. */
  method PlanDisks(disks: seq<string>, goals: seq<Goal>) returns (moves: seq<(string, string)>, errors: seq<PlanError>)
    requires |disks| == |goals|
    ensures errors == [] <==> Supported(goals) && DistinctDestinations(Movers(disks, goals))
    ensures errors == [] ==> moves == Movers(disks, goals)
    ensures NamesHindered(disks, goals, |disks|, errors)
  {
    moves, errors := [], [];
    var seen: map<string, string> := map[];
    for k := 0 to |disks|
      invariant PlannedSoFar(disks[..k], goals[..k], moves, errors)
      invariant AreTaken(seen, moves) && NamesHindered(disks, goals, k, errors)
    {
      moves, errors, seen := PlanDisk(disks, goals, k, moves, errors, seen);
    }
    assert disks[..|disks|] == disks && goals[..|goals|] == goals;
  }

  lemma {:induction false} DistinctNext(moves: seq<(string, string)>, move: (string, string))
    ensures DistinctDestinations(moves + [move])
       <==> DistinctDestinations(moves) && forall m :: 0 <= m < |moves| ==> Lower(moves[m].1) != Lower(move.1)
  {
    var longer := moves + [move];
    assert longer[|moves|] == move;
    if DistinctDestinations(longer) {
      assert forall i, j :: 0 <= i < j < |moves| ==> longer[i] == moves[i] && longer[j] == moves[j];
      forall m | 0 <= m < |moves| ensures Lower(moves[m].1) != Lower(move.1) { assert longer[m] == moves[m]; }
    }
  }

  function Refused(goal: Goal, path: Option<string>): seq<PlanError> {
    if goal.Unsupported? && path.Some? then [NotOnStorage(path.value)] else []
  }

  /** What stands in the way of the move, disk errors given. */
  function Hindrances(layout: Layout, g: Goals, diskErrors: seq<PlanError>): seq<PlanError> {
    (if layout.checkpoints > 0 then [HasCheckpoints] else []) + diskErrors
    + Refused(g.configuration, layout.configuration) + Refused(g.snapshots, layout.snapshots)
    + Refused(g.paging, layout.paging)
  }

  lemma {:induction false} HindrancesTell(layout: Layout, g: Goals, diskErrors: seq<PlanError>)
    requires |layout.disks| == |g.disks|
    requires (g.configuration.Unsupported? ==> layout.configuration.Some?) &&
             (g.snapshots.Unsupported? ==> layout.snapshots.Some?)
             && (g.paging.Unsupported? ==> layout.paging.Some?)
    requires diskErrors == [] <==> Supported(g.disks) && DistinctDestinations(Movers(layout.disks, g.disks))
    requires NamesHindered(layout.disks, g.disks, |layout.disks|, diskErrors)
    ensures var errors := Hindrances(layout, g, diskErrors);
            && (errors == [] <==> Unhindered(layout, g))
            && AlreadyThere !in errors && (HasCheckpoints in errors <==> layout.checkpoints > 0)
            && (forall e :: e in diskErrors ==> e in errors)
  {
    var checkpoints := if layout.checkpoints > 0 then [HasCheckpoints] else [];
    var folders := Refused(g.configuration, layout.configuration) + Refused(g.snapshots, layout.snapshots)
    + Refused(g.paging, layout.paging);
    assert Hindrances(layout, g, diskErrors) == checkpoints + diskErrors + folders;
    assert forall e :: e in folders ==> e.NotOnStorage?;
  }

  /** The plan the goals call for; without errors it is complete and possible. */
  method PlanGoals(layout: Layout, g: Goals) returns (plan: Plan)
    requires |layout.disks| == |g.disks|
    requires (g.configuration.Unsupported? ==> layout.configuration.Some?) &&
             (g.snapshots.Unsupported? ==> layout.snapshots.Some?)
             && (g.paging.Unsupported? ==> layout.paging.Some?)
    ensures plan.errors == [] <==> Unhindered(layout, g) && SomethingMoves(layout, g)
    ensures plan.errors == [AlreadyThere] <==> Unhindered(layout, g) && !SomethingMoves(layout, g)
    ensures plan.errors == [] ==>
              && plan.diskMoves == Movers(layout.disks, g.disks)
              && plan.collisionCandidates
                  == Destinations(plan.diskMoves) + VmcxCandidate(plan.configuration, layout.vmId)
    ensures plan.configuration == TargetOf(g.configuration) && plan.snapshots == TargetOf(g.snapshots) &&
            plan.paging == TargetOf(g.paging)
    ensures HasCheckpoints in plan.errors <==> layout.checkpoints > 0
    ensures forall k :: 0 <= k < |layout.disks| && g.disks[k].Differencing? ==> IsAvhdx(layout.disks[k]) in plan.errors
    ensures forall k :: 0 <= k < |layout.disks| && g.disks[k].Unsupported? ==>
            NotOnStorage(layout.disks[k]) in plan.errors
  {
    var errors := if layout.checkpoints > 0 then [HasCheckpoints] else [];
    var moves, diskErrors := PlanDisks(layout.disks, g.disks);
    errors := errors + diskErrors;
    var candidates := Destinations(moves);
    errors := errors + Refused(g.configuration, layout.configuration);
    candidates := candidates + VmcxCandidate(TargetOf(g.configuration), layout.vmId);
    errors := errors + Refused(g.snapshots, layout.snapshots) + Refused(g.paging, layout.paging);
    assert errors == Hindrances(layout, g, diskErrors);
    HindrancesTell(layout, g, diskErrors);
    assert errors != [AlreadyThere] by { assert AlreadyThere in [AlreadyThere]; }
    if errors == [] && !Filled(TargetOf(g.configuration)) && !Filled(TargetOf(g.snapshots)) &&
        !Filled(TargetOf(g.paging)) && moves == [] {
      errors := [AlreadyThere];
    }
    plan := Plan(TargetOf(g.configuration), TargetOf(g.snapshots), TargetOf(g.paging), moves, candidates, errors);
  }

  /** Plans the move of a VM to a storage root. */
  method PlanStorageMove(layout: Layout, destinationRoot: string) returns (plan: Plan)
    ensures var g := GoalsOf(layout, TrimSlashes(destinationRoot));
            && (plan.errors == [] <==> Unhindered(layout, g) && SomethingMoves(layout, g))
            && (plan.errors == [AlreadyThere] <==> Unhindered(layout, g) && !SomethingMoves(layout, g))
            && (plan.errors == [] ==> IsPlanFor(plan, layout, g))
  {
    plan := PlanGoals(layout, GoalsOf(layout, TrimSlashes(destinationRoot)));
  }

  /** An error-free plan moves exactly what has to move, each to its goal. */
  ghost predicate IsPlanFor(plan: Plan, layout: Layout, g: Goals)
    requires |layout.disks| == |g.disks|
  {
    && plan.errors == []
    && plan.configuration == TargetOf(g.configuration) && plan.snapshots == TargetOf(g.snapshots) &&
        plan.paging == TargetOf(g.paging)
    && plan.diskMoves == Movers(layout.disks, g.disks)
    && plan.collisionCandidates == Destinations(plan.diskMoves) + VmcxCandidate(plan.configuration, layout.vmId)
  }

  // ---------------------------------------------------------------- verification after the move

  datatype Problem = DiskNotThere(disk: string) | FolderElsewhere(planned: string)

  ghost predicate DiskThere(disks: seq<string>, destination: string) {
    exists k :: 0 <= k < |disks| && Lower(disks[k]) == Lower(destination)
  }

  /** A planned folder is where it was planned, but for case and trailing backslashes. */
  ghost predicate FolderThere(planned: Option<string>, actual: Option<string>) {
    planned.Some? && planned.value != "" ==>
      actual.Some? && actual.value != "" && Lower(TrimSlashes(actual.value)) == Lower(TrimSlashes(planned.value))
  }

  function Misplaced(planned: Option<string>, actual: Option<string>): seq<Problem> {
    if Filled(planned) && !(Filled(actual) && SameRoot(planned.value, actual.value))
    then [FolderElsewhere(planned.value)]
    else []
  }

  ghost predicate AllThere(layout: Layout, plan: Plan) {
    && (forall k :: 0 <= k < |plan.diskMoves| ==> DiskThere(layout.disks, plan.diskMoves[k].1))
    && FolderThere(plan.configuration, layout.configuration)
    && FolderThere(plan.snapshots, layout.snapshots)
    && FolderThere(plan.paging, layout.paging)
  }

  /** Compares a layout with the plan; no problems exactly if all is where it was planned. */
  method VerifyStorageMove(layout: Layout, plan: Plan) returns (problems: seq<Problem>)
    ensures problems == [] <==> AllThere(layout, plan)
  {
    var current: set<string> := {};
    for k := 0 to |layout.disks|
      invariant forall d :: d in current <==> exists i :: 0 <= i < k && Lower(layout.disks[i]) == d
    {
      current := current + {Lower(layout.disks[k])};
    }
    problems := [];
    for k := 0 to |plan.diskMoves|
      invariant problems == [] <==> forall i :: 0 <= i < k ==> DiskThere(layout.disks, plan.diskMoves[i].1)
    {
      assert Lower(plan.diskMoves[k].1) in current <==> DiskThere(layout.disks, plan.diskMoves[k].1);
      if Lower(plan.diskMoves[k].1) !in current {
        problems := problems + [DiskNotThere(plan.diskMoves[k].0)];
      }
    }
    problems := problems + Misplaced(plan.configuration, layout.configuration) + Misplaced(plan.snapshots,
        layout.snapshots)
                + Misplaced(plan.paging, layout.paging);
  }
}
