/** What a plan says in terms of the paths themselves: which paths lie on storage, and
    where each of them goes. */
module MoveMeaning {
  import opened Wrappers
  import opened Texts
  import opened StoragePaths
  import opened StorageMove

  // ---------------------------------------------------------------- storage roots

  ghost predicate IsName(s: string) {
    s != "" && forall k :: 0 <= k < |s| ==> s[k] != BACKSLASH
  }

  /** A folder below ClusterStorage on some drive, in any case. */
  ghost predicate IsCsvFolder(root: string, drive: char, storage: string, folder: string) {
    && ('a' <= drive <= 'z' || 'A' <= drive <= 'Z') && Lower(storage) == "clusterstorage" && IsName(folder)
    && root == [drive] + (":\\" + (storage + ("\\" + folder)))
  }

  /** A share of some server. */
  ghost predicate IsShare(root: string, server: string, share: string) {
    IsName(server) && IsName(share) && root == "\\\\" + (server + ("\\" + share))
  }

  ghost predicate IsRoot(root: string) {
    || (exists drive, storage, folder :: IsCsvFolder(root, drive, storage, folder))
    || (exists server, share :: IsShare(root, server, share))
  }

  lemma {:induction false} NameEndOfName(s: string, from: nat)
    requires from <= |s| && forall k :: from <= k < |s| ==> s[k] != BACKSLASH
    ensures NameEnd(s, from) == |s|
  {
  }

  lemma {:induction false} CsvFolderMatches(root: string, drive: char, storage: string, folder: string)
    requires IsCsvFolder(root, drive, storage, folder)
    ensures MatchStorage(root) == Some(Split(root, ""))
  {
    assert |Lower(storage)| == 14;
    assert root[0] == drive && root[1] == ':' && root[2] == BACKSLASH && root[17] == BACKSLASH;
    assert root[3..17] == storage && root[18..] == folder;
    assert forall k :: 18 <= k < |root| ==> root[k] == folder[k - 18];
    NameEndOfName(root, 18);
    assert root[..|root|] == root && root[|root|..] == "";
  }

  lemma {:induction false} ShareMatches(root: string, server: string, share: string)
    requires IsShare(root, server, share)
    ensures MatchStorage(root) == Some(Split(root, ""))
  {
    var n := 2 + |server|;
    assert root[0] == BACKSLASH && root[1] == BACKSLASH && root[n] == BACKSLASH;
    assert forall k :: 2 <= k < n ==> root[k] == server[k - 2];
    assert forall k :: n < k < |root| ==> root[k] == share[k - n - 1];
    assert NameEnd(root, 2) == n;
    NameEndOfName(root, n + 1);
    assert root[..|root|] == root && root[|root|..] == "";
  }

  lemma {:induction false} CsvMatchIsFolder(s: string)
    requires MatchCsv(s).Some?
    ensures IsRoot(MatchCsv(s).value.root)
  {
    var root := MatchCsv(s).value.root;
    var storage, folder := s[3..17], root[18..];
    assert root == [s[0]] + (":\\" + (storage + ("\\" + folder)));
    assert forall k :: 0 <= k < |folder| ==> folder[k] == s[18 + k];
    assert IsCsvFolder(root, s[0], storage, folder);
  }

  lemma {:induction false} UncMatchIsShare(s: string)
    requires MatchUnc(s).Some?
    ensures IsRoot(MatchUnc(s).value.root)
  {
    var root := MatchUnc(s).value.root;
    var n := NameEnd(s, 2);
    var server, share := s[2..n], root[n + 1..];
    assert root == "\\\\" + (server + ("\\" + share));
    assert forall k :: 0 <= k < |server| ==> server[k] == s[2 + k];
    assert forall k :: 0 <= k < |share| ==> share[k] == s[n + 1 + k];
    assert IsShare(root, server, share);
  }

  /** The split is at the end of the root: a CSV folder or a share, and then nothing or
      a backslash and more. */
  lemma {:induction false} SplitsAtRoot(s: string, root: string, rest: string)
    ensures MatchStorage(s) == Some(Split(root, rest)) <==> s == root + rest && IsRest(rest) && IsRoot(root)
  {
    if MatchStorage(s) == Some(Split(root, rest)) {
      SplitJoins(s);
      if MatchCsv(s).Some? { CsvMatchIsFolder(s); } else { UncMatchIsShare(s); }
    }
    if s == root + rest && IsRest(rest) && IsRoot(root) {
      if drive, storage, folder :| IsCsvFolder(root, drive, storage, folder) {
        CsvFolderMatches(root, drive, storage, folder);
      } else {
        var server, share :| IsShare(root, server, share);
        ShareMatches(root, server, share);
      }
      BelowRoot(root, rest);
    }
  }

  // ---------------------------------------------------------------- trimming

  lemma {:induction false} TrimStartTakesSpaces(s: string, k: nat)
    requires k < |s| - |TrimStart(s)|
    ensures IsSpace(s[k])
  {
    if k > 0 { TrimStartTakesSpaces(s[1..], k - 1); }
  }

  ghost predicate AllSpaces(s: string) { forall k :: 0 <= k < |s| ==> IsSpace(s[k]) }

  ghost predicate AllBackslashes(s: string) { forall k :: 0 <= k < |s| ==> s[k] == BACKSLASH }

  lemma {:induction false} SpacesAtStart(s: string) returns (before: string)
    ensures s == before + TrimStart(s) && AllSpaces(before)
  {
    before := s[..|s| - |TrimStart(s)|];
    forall k | 0 <= k < |before| ensures IsSpace(before[k]) { TrimStartTakesSpaces(s, k); }
  }

  lemma {:induction false} SpacesAtEnd(s: string) returns (after: string)
    ensures s == TrimEnd(s) + after && AllSpaces(after)
  {
    after := s[|TrimEnd(s)|..];
  }

  lemma {:induction false} BackslashesAtEnd(s: string) returns (slashes: string)
    ensures s == TrimSlashes(s) + slashes && AllBackslashes(slashes)
  {
    slashes := s[|TrimSlashes(s)|..];
  }

  ghost predicate NoSpaceAround(s: string) {
    s != "" ==> !IsSpace(s[0]) && !IsSpace(s[|s| - 1])
  }

  /** Trimming takes off white space at both ends, and of what is left the backslashes
      at its end. */
  lemma {:induction false} TrimTakesOff(s: string)
      returns (before: string, kept: string, after: string, slashes: string, t: string)
    ensures t == Trim(s) && kept == t + slashes && s == before + (kept + after)
    ensures AllSpaces(before) && AllSpaces(after) && AllBackslashes(slashes) && NoSpaceAround(kept)
    ensures t != "" ==> t[|t| - 1] != BACKSLASH
  {
    before, kept, after := SpacesTakenOff(s);
    slashes := BackslashesAtEnd(kept);
    t := TrimSlashes(kept);
  }

  lemma {:induction false} SpacesTakenOff(s: string) returns (before: string, kept: string, after: string)
    ensures kept == TrimEnd(TrimStart(s)) && s == before + (kept + after)
    ensures AllSpaces(before) && AllSpaces(after) && NoSpaceAround(kept)
  {
    before := SpacesAtStart(s);
    after := SpacesAtEnd(TrimStart(s));
    kept := TrimEnd(TrimStart(s));
    NoSpaceLeft(TrimStart(s));
  }

  lemma {:induction false} NoSpaceLeft(s: string)
    requires s == "" || !IsSpace(s[0])
    ensures NoSpaceAround(TrimEnd(s))
  {
  }

  /** The white space of Unicode, as Python knows it. */
  lemma {:induction false} SpacesAre(c: char)
    ensures IsSpace(c)
       <==> c as int in {0x09, 0x0A, 0x0B, 0x0C, 0x0D, 0x1C, 0x1D, 0x1E, 0x1F, 0x20, 0x85, 0xA0, 0x1680, 0x2000,
                         0x2001, 0x2002, 0x2003, 0x2004, 0x2005, 0x2006, 0x2007, 0x2008, 0x2009, 0x200A, 0x2028,
                         0x2029, 0x202F, 0x205F, 0x3000}
  {
  }

  // ---------------------------------------------------------------- where a path goes

  /** The trimmed path lies on the root, and so much of it is below. */
  ghost predicate LiesOn(path: string, root: string, rest: string) {
    Trim(path) == root + rest && IsRest(rest) && IsRoot(root)
  }

  ghost predicate OnStorage(path: string) {
    exists root, rest :: LiesOn(path, root, rest)
  }

  /** The roots are one, but for case and trailing backslashes. */
  ghost predicate IsSame(a: string, b: string) {
    Lower(TrimSlashes(a)) == Lower(TrimSlashes(b))
  }

  /** The path lies on another root, and `there` is the same place below the new one. */
  ghost predicate GoesTo(path: string, target: string, there: string) {
    exists root, rest :: LiesOn(path, root, rest) && !IsSame(root, target) && there == target + rest
  }

  lemma {:induction false} SplitIffLiesOn(path: string, root: string, rest: string)
    requires path != ""
    ensures SplitStoragePath(Some(path)) == Some(Split(root, rest)) <==> LiesOn(path, root, rest)
  {
    SplitsAtRoot(Trim(path), root, rest);
  }

  lemma {:induction false} SplitIffOnStorage(path: string)
    requires path != ""
    ensures SplitStoragePath(Some(path)).Some? <==> OnStorage(path)
  {
    var split := SplitStoragePath(Some(path));
    if split.Some? { SplitIffLiesOn(path, split.value.root, split.value.rest); }
    if root, rest :| LiesOn(path, root, rest) { SplitIffLiesOn(path, root, rest); }
  }

  lemma {:induction false} GoalIsWhereItGoes(path: string, target: string, there: string)
    requires path != ""
    ensures GoalOf(Some(path), target).Unsupported? <==> !OnStorage(path)
    ensures GoalOf(Some(path), target) == MovesTo(there) <==> GoesTo(path, target, there)
    ensures !GoalOf(Some(path), target).Differencing?
  {
    SplitIffOnStorage(path);
    var split := SplitStoragePath(Some(path));
    if split.Some? {
      var root, rest := split.value.root, split.value.rest;
      assert split == Some(Split(root, rest));
      SplitIffLiesOn(path, root, rest);
      OneSplitGoes(path, target, there, root, rest);
    }
  }

  lemma {:induction false} OneSplitGoes(path: string, target: string, there: string, root: string, rest: string)
    requires path != "" && LiesOn(path, root, rest)
    ensures GoesTo(path, target, there) <==> !IsSame(root, target) && there == target + rest
  {
    SplitIffLiesOn(path, root, rest);
    if other, more :| LiesOn(path, other, more) && !IsSame(other, target) && there == target + more {
      SplitIffLiesOn(path, other, more);
    }
  }

  ghost predicate LooksDifferencing(disk: string) {
    exists stem :: Lower(disk) == stem + ".avhdx"
  }

  lemma {:induction false} AvhdxByName(disk: string)
    ensures Avhdx(disk) <==> LooksDifferencing(disk)
  {
    var s, suffix := Lower(disk), ".avhdx";
    if Avhdx(disk) { assert s == s[..|s| - 6] + suffix; }
    if stem :| s == stem + suffix { assert s[|s| - 6..] == suffix; }
  }

  lemma {:induction false} DiskGoesWhereItGoes(disk: string, target: string, there: string)
    ensures DiskGoal(disk, target) == MovesTo(there) <==> !LooksDifferencing(disk) && DiskMoves(disk, target, there)
    ensures DiskGoal(disk, target).Stays? || DiskGoal(disk, target).MovesTo?
       <==> !LooksDifferencing(disk) && (disk == "" || OnStorage(disk))
  {
    AvhdxByName(disk);
    if disk != "" { GoalIsWhereItGoes(disk, target, there); }
  }

  ghost predicate DiskMoves(disk: string, target: string, there: string) {
    disk != "" && GoesTo(disk, target, there)
  }

  /** An empty or missing folder goes nowhere. */
  ghost predicate FolderMoves(folder: Option<string>, target: string, there: string) {
    folder.Some? && folder.value != "" && GoesTo(folder.value, target, there)
  }

  ghost predicate FolderOnStorage(folder: Option<string>) {
    folder.Some? && folder.value != "" ==> OnStorage(folder.value)
  }

  lemma {:induction false} FolderGoesWhereItGoes(folder: Option<string>, target: string, there: string)
    ensures TargetOf(GoalOf(folder, target)) == Some(there) <==> FolderMoves(folder, target, there)
    ensures GoalOf(folder, target).Unsupported? <==> !FolderOnStorage(folder)
  {
    if Filled(folder) { GoalIsWhereItGoes(folder.value, target, there); }
  }

  // ---------------------------------------------------------------- the plan

  lemma {:induction false} LastMover(disks: seq<string>, goals: seq<Goal>, n: nat)
    requires |disks| == |goals| == n + 1
    ensures Movers(disks, goals)
         == if goals[n].MovesTo? then Movers(disks[..n], goals[..n]) + [(disks[n], goals[n].path)]
            else Movers(disks[..n], goals[..n])
  {
  }

  ghost predicate SomeGoesThere(disks: seq<string>, goals: seq<Goal>, disk: string, there: string)
    requires |disks| == |goals|
  {
    exists k :: 0 <= k < |disks| && disks[k] == disk && goals[k] == MovesTo(there)
  }

  lemma {:induction false} SomeGoesThereNext(disks: seq<string>, goals: seq<Goal>, n: nat, disk: string, there: string)
    requires |disks| == |goals| == n + 1
    ensures SomeGoesThere(disks, goals, disk, there)
       <==> SomeGoesThere(disks[..n], goals[..n], disk, there) || (disks[n] == disk && goals[n] == MovesTo(there))
  {
    assert forall k :: 0 <= k < n ==> disks[..n][k] == disks[k] && goals[..n][k] == goals[k];
  }

  lemma {:induction false} MoversAre(disks: seq<string>, goals: seq<Goal>, disk: string, there: string)
    requires |disks| == |goals|
    ensures (disk, there) in Movers(disks, goals) <==> SomeGoesThere(disks, goals, disk, there)
  {
    if disks != [] {
      var n := |disks| - 1;
      MoversAre(disks[..n], goals[..n], disk, there);
      LastMover(disks, goals, n);
      SomeGoesThereNext(disks, goals, n, disk, there);
    }
  }

  lemma {:induction false} MoverMoves(layout: Layout, target: string, disk: string, there: string)
    ensures (disk, there) in Movers(layout.disks, GoalsOf(layout, target).disks)
       <==> disk in layout.disks && !LooksDifferencing(disk) && DiskMoves(disk, target, there)
  {
    var goals := GoalsOf(layout, target).disks;
    MoversAre(layout.disks, goals, disk, there);
    DiskGoesWhereItGoes(disk, target, there);
    if k :| 0 <= k < |goals| && layout.disks[k] == disk && goals[k] == MovesTo(there) {
      assert DiskGoal(disk, target) == MovesTo(there);
    }
    if disk in layout.disks && DiskGoal(disk, target) == MovesTo(there) {
      var k :| 0 <= k < |layout.disks| && layout.disks[k] == disk;
      assert goals[k] == MovesTo(there);
    }
  }

  /** An error-free plan moves exactly the disks that go somewhere, each there. */
  lemma {:induction false} PlannedDisksAre(layout: Layout, plan: Plan, target: string, disk: string, there: string)
    requires IsPlanFor(plan, layout, GoalsOf(layout, target))
    ensures (disk, there) in plan.diskMoves
       <==> disk in layout.disks && !LooksDifferencing(disk) && DiskMoves(disk, target, there)
  {
    MoverMoves(layout, target, disk, there);
  }

  /** And exactly the folders that go somewhere. */
  lemma {:induction false} PlannedFoldersAre(layout: Layout, plan: Plan, target: string, there: string)
    requires IsPlanFor(plan, layout, GoalsOf(layout, target))
    ensures plan.configuration == Some(there) <==> FolderMoves(layout.configuration, target, there)
    ensures plan.snapshots == Some(there) <==> FolderMoves(layout.snapshots, target, there)
    ensures plan.paging == Some(there) <==> FolderMoves(layout.paging, target, there)
  {
    FolderGoesWhereItGoes(layout.configuration, target, there);
    FolderGoesWhereItGoes(layout.snapshots, target, there);
    FolderGoesWhereItGoes(layout.paging, target, there);
  }

  /** The file of the VM's configuration below a folder, one separator between. */
  ghost predicate IsVmcx(file: string, folder: string, vmId: string) {
    var ended := folder != "" && folder[|folder| - 1] in {'\\', '/'};
    file == (if ended then folder else folder + "\\") + ("Virtual Machines\\" + (vmId + ".vmcx"))
  }

  /** What must not exist beforehand: the destinations of the disks, and the
      configuration file of a VM whose configuration moves. */
  lemma {:induction false} CandidatesAre(layout: Layout, plan: Plan, target: string, file: string)
    requires IsPlanFor(plan, layout, GoalsOf(layout, target))
    ensures file in plan.collisionCandidates
       <==> || (exists disk :: (disk, file) in plan.diskMoves)
            || (&& layout.vmId.Some? && layout.vmId.value != "" && plan.configuration.Some?
                && plan.configuration.value != "" && IsVmcx(file, plan.configuration.value, layout.vmId.value))
  {
    DestinationsAre(plan.diskMoves, file);
    VmcxCandidateIs(plan.configuration, layout.vmId, file);
    assert file in plan.collisionCandidates
      <==> file in Destinations(plan.diskMoves) || file in VmcxCandidate(plan.configuration, layout.vmId);
  }

  lemma {:induction false} DestinationsAre(moves: seq<(string, string)>, file: string)
    ensures file in Destinations(moves) <==> exists disk :: (disk, file) in moves
  {
    if k :| 0 <= k < |moves| && Destinations(moves)[k] == file { assert (moves[k].0, file) in moves; }
    if disk :| (disk, file) in moves {
      var k :| 0 <= k < |moves| && moves[k] == (disk, file);
      assert Destinations(moves)[k] == file;
    }
  }

  lemma {:induction false} VmcxCandidateIs(folder: Option<string>, vmId: Option<string>, file: string)
    ensures file in VmcxCandidate(folder, vmId)
       <==> && vmId.Some? && vmId.value != "" && folder.Some? && folder.value != ""
            && IsVmcx(file, folder.value, vmId.value)
  {
    if Filled(folder) && Filled(vmId) { VmcxIs(folder.value, vmId.value, file); }
  }

  lemma {:induction false} VmcxIs(folder: string, vmId: string, file: string)
    ensures file == VmcxPath(folder, vmId) <==> IsVmcx(file, folder, vmId)
  {
    var path := VmcxPath(folder, vmId);
    var ended := folder != "" && folder[|folder| - 1] in {'\\', '/'};
    assert path == (if ended then folder else folder + "\\") + ("Virtual Machines\\" + (vmId + ".vmcx"));
  }

  /** The disk does not look like a differencing disk, and lies on storage if anywhere. */
  ghost predicate CanMove(disk: string) {
    !LooksDifferencing(disk) && (disk == "" || OnStorage(disk))
  }

  /** Two disks of the list would go to one place. */
  ghost predicate SomeShareDestination(disks: seq<string>, target: string) {
    exists i, j :: 0 <= i < j < |disks| && SharesDestination(disks[i], disks[j], target)
  }

  ghost predicate SharesDestination(disk: string, other: string, target: string) {
    exists a, b :: DiskMoves(disk, target, a) && DiskMoves(other, target, b) && Lower(a) == Lower(b)
  }

  /** Nothing hinders the move exactly if there is no checkpoint, every disk and every
      folder that is set lies on storage, no disk looks like a differencing disk, and
      no two disks would go to one place. */
  lemma {:induction false} UnhinderedIff(layout: Layout, target: string)
    ensures Unhindered(layout, GoalsOf(layout, target))
       <==> && layout.checkpoints == 0
            && (forall disk :: disk in layout.disks ==> CanMove(disk))
            && FolderOnStorage(layout.configuration) && FolderOnStorage(layout.snapshots)
            && FolderOnStorage(layout.paging)
            && !SomeShareDestination(layout.disks, target)
  {
    var g := GoalsOf(layout, target);
    FolderGoesWhereItGoes(layout.configuration, target, "");
    FolderGoesWhereItGoes(layout.snapshots, target, "");
    FolderGoesWhereItGoes(layout.paging, target, "");
    SupportedIff(layout, target);
    if Supported(g.disks) { DistinctIff(layout, target); }
  }

  lemma {:induction false} SupportedIff(layout: Layout, target: string)
    ensures Supported(GoalsOf(layout, target).disks) <==> forall disk :: disk in layout.disks ==> CanMove(disk)
  {
    var goals := GoalsOf(layout, target).disks;
    forall k | 0 <= k < |goals| ensures goals[k].Stays? || goals[k].MovesTo? <==> CanMove(layout.disks[k]) {
      DiskGoesWhereItGoes(layout.disks[k], target, "");
    }
    if Supported(goals) {
      forall disk | disk in layout.disks ensures CanMove(disk) {
        var k :| 0 <= k < |layout.disks| && layout.disks[k] == disk;
        assert goals[k].Stays? || goals[k].MovesTo?;
      }
    } else {
      var k :| 0 <= k < |goals| && !(goals[k].Stays? || goals[k].MovesTo?);
      assert layout.disks[k] in layout.disks;
    }
  }

  /** No two goals are one place. */
  ghost predicate GoalsDiffer(goals: seq<Goal>) {
    forall i, j :: 0 <= i < j < |goals| && goals[i].MovesTo? && goals[j].MovesTo? ==>
        Lower(goals[i].path) != Lower(goals[j].path)
  }

  ghost predicate NoneGoesTo(goals: seq<Goal>, place: string) {
    forall k :: 0 <= k < |goals| && goals[k].MovesTo? ==> Lower(goals[k].path) != place
  }

  lemma {:induction false} GoalsDifferNext(goals: seq<Goal>, n: nat)
    requires |goals| == n + 1
    ensures GoalsDiffer(goals)
       <==> GoalsDiffer(goals[..n]) && (goals[n].MovesTo? ==> NoneGoesTo(goals[..n], Lower(goals[n].path)))
  {
    assert forall k :: 0 <= k < n ==> goals[..n][k] == goals[k];
  }

  ghost predicate NoMoveTo(moves: seq<(string, string)>, place: string) {
    forall m :: 0 <= m < |moves| ==> Lower(moves[m].1) != place
  }

  lemma {:induction false} NoMoveToNext(moves: seq<(string, string)>, move: (string, string), place: string)
    ensures NoMoveTo(moves + [move], place) <==> NoMoveTo(moves, place) && Lower(move.1) != place
  {
    var all := moves + [move];
    assert all[|moves|] == move;
    assert forall m :: 0 <= m < |moves| ==> all[m] == moves[m];
  }

  lemma {:induction false} NoneGoesToNext(goals: seq<Goal>, n: nat, place: string)
    requires |goals| == n + 1
    ensures NoneGoesTo(goals, place)
       <==> NoneGoesTo(goals[..n], place) && (goals[n].MovesTo? ==> Lower(goals[n].path) != place)
  {
    assert forall k :: 0 <= k < n ==> goals[..n][k] == goals[k];
  }

  lemma {:induction false} MoversDistinctIff(disks: seq<string>, goals: seq<Goal>)
    requires |disks| == |goals|
    ensures DistinctDestinations(Movers(disks, goals)) <==> GoalsDiffer(goals)
  {
    if disks != [] {
      var n := |disks| - 1;
      MoversDistinctIff(disks[..n], goals[..n]);
      GoalsDifferNext(goals, n);
      LastMover(disks, goals, n);
      if goals[n].MovesTo? {
        DistinctNext(Movers(disks[..n], goals[..n]), (disks[n], goals[n].path));
        NoMoverThere(disks[..n], goals[..n], Lower(goals[n].path));
      }
    }
  }

  lemma {:induction false} NoMoverThere(disks: seq<string>, goals: seq<Goal>, place: string)
    requires |disks| == |goals|
    ensures NoMoveTo(Movers(disks, goals), place) <==> NoneGoesTo(goals, place)
  {
    if disks != [] {
      var n := |disks| - 1;
      NoMoverThere(disks[..n], goals[..n], place);
      LastMover(disks, goals, n);
      NoneGoesToNext(goals, n, place);
      if goals[n].MovesTo? { NoMoveToNext(Movers(disks[..n], goals[..n]), (disks[n], goals[n].path), place); }
    }
  }

  lemma {:induction false} GoalOfDisk(layout: Layout, target: string, k: nat, there: string)
    requires Supported(GoalsOf(layout, target).disks) && k < |layout.disks|
    ensures GoalsOf(layout, target).disks[k] == MovesTo(there) <==> DiskMoves(layout.disks[k], target, there)
  {
    var goals := GoalsOf(layout, target).disks;
    assert goals[k].Stays? || goals[k].MovesTo?;
    DiskGoesWhereItGoes(layout.disks[k], target, there);
  }

  lemma {:induction false} SharedIffSameGoal(layout: Layout, target: string, i: nat, j: nat)
    requires Supported(GoalsOf(layout, target).disks) && i < |layout.disks| && j < |layout.disks|
    ensures var a, b := GoalsOf(layout, target).disks[i], GoalsOf(layout, target).disks[j];
            SharesDestination(layout.disks[i], layout.disks[j], target)
            <==> a.MovesTo? && b.MovesTo? && Lower(a.path) == Lower(b.path)
  {
    var a, b := GoalsOf(layout, target).disks[i], GoalsOf(layout, target).disks[j];
    if a.MovesTo? && b.MovesTo? {
      GoalOfDisk(layout, target, i, a.path);
      GoalOfDisk(layout, target, j, b.path);
    }
    if x, y :| DiskMoves(layout.disks[i], target, x) && DiskMoves(layout.disks[j], target, y) && Lower(x) == Lower(y) {
      GoalOfDisk(layout, target, i, x);
      GoalOfDisk(layout, target, j, y);
    }
  }

  lemma {:induction false} DistinctIff(layout: Layout, target: string)
    requires Supported(GoalsOf(layout, target).disks)
    ensures DistinctDestinations(Movers(layout.disks, GoalsOf(layout, target).disks))
       <==> !SomeShareDestination(layout.disks, target)
  {
    var goals := GoalsOf(layout, target).disks;
    MoversDistinctIff(layout.disks, goals);
    forall i: nat, j: nat | i < j < |goals|
      ensures SharesDestination(layout.disks[i], layout.disks[j], target)
         <==> goals[i].MovesTo? && goals[j].MovesTo? && Lower(goals[i].path) == Lower(goals[j].path)
    {
      SharedIffSameGoal(layout, target, i, j);
    }
  }

  ghost predicate SomeDiskMoves(disks: seq<string>, target: string) {
    exists disk, there :: disk in disks && !LooksDifferencing(disk) && DiskMoves(disk, target, there)
  }

  ghost predicate FolderMovesAway(folder: Option<string>, target: string) {
    exists there :: there != "" && FolderMoves(folder, target, there)
  }

  lemma {:induction false} SomeMoverIff(layout: Layout, target: string)
    ensures Movers(layout.disks, GoalsOf(layout, target).disks) != [] <==> SomeDiskMoves(layout.disks, target)
  {
    var moves := Movers(layout.disks, GoalsOf(layout, target).disks);
    if moves != [] {
      var (disk, there) := moves[0];
      assert (disk, there) in moves;
      MoverMoves(layout, target, disk, there);
    }
    if disk, there :| disk in layout.disks && !LooksDifferencing(disk) && DiskMoves(disk, target, there) {
      MoverMoves(layout, target, disk, there);
    }
  }

  lemma {:induction false} FolderMovesIff(folder: Option<string>, target: string)
    ensures Filled(TargetOf(GoalOf(folder, target))) <==> FolderMovesAway(folder, target)
  {
    var planned := TargetOf(GoalOf(folder, target));
    if Filled(planned) { FolderGoesWhereItGoes(folder, target, planned.value); }
    if there :| there != "" && FolderMoves(folder, target, there) { FolderGoesWhereItGoes(folder, target, there); }
  }

  /** Something moves exactly if some disk or folder goes somewhere. */
  lemma {:induction false} SomethingMovesIff(layout: Layout, target: string)
    ensures SomethingMoves(layout, GoalsOf(layout, target))
       <==> || SomeDiskMoves(layout.disks, target) || FolderMovesAway(layout.configuration, target)
            || FolderMovesAway(layout.snapshots, target) || FolderMovesAway(layout.paging, target)
  {
    SomeMoverIff(layout, target);
    FolderMovesIff(layout.configuration, target);
    FolderMovesIff(layout.snapshots, target);
    FolderMovesIff(layout.paging, target);
  }
}
