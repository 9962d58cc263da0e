/** The keys under which a protection group stores its members, and their
    migration: backend/app/models/resource_group.py:39-73 and
    backend/app/db/init_db.py:232-273. */
module MemberKeys {
  import opened Wrappers

  /** A known machine or volume: its cluster and its name. */
  datatype Known = Known(cluster: string, name: string)

  function MakeMemberKey(cluster: string, name: string): string { cluster + "::" + name }

  /** Where the first separator starts, or the length. */
  function SeparatorAt(s: string): (i: nat)
    ensures i <= |s|
    ensures i < |s| ==> i + 1 < |s| && s[i] == ':' && s[i + 1] == ':'
    ensures forall k :: 0 <= k < i && k + 1 < |s| ==> s[k] != ':' || s[k + 1] != ':'
  {
    if |s| < 2 then |s|
    else if s[0] == ':' && s[1] == ':' then 0
    else 1 + SeparatorAt(s[1..])
  }

  predicate Qualified(member: string) { SeparatorAt(member) < |member| }

  datatype Parsed = Parsed(cluster: Option<string>, name: string)

  function ParseMemberKey(member: string): Parsed {
    var i := SeparatorAt(member);
    if i < |member| then Parsed(Some(member[..i]), member[i + 2..]) else Parsed(None, member)
  }

  function Named(known: set<Known>, name: string): set<Known> { set k | k in known && k.name == name }

  ghost function Only<T>(s: set<T>): (x: T)
    requires |s| == 1
    ensures s == {x}
  {
    var x :| x in s;
    OneElement(s, x);
    x
  }

  lemma {:induction false} OneElement<T>(s: set<T>, x: T)
    requires |s| == 1 && x in s
    ensures s == {x}
  {
    assert |s - {x}| == 0;
    assert s <= {x};
  }

  ghost function ResolveMemberKey(member: string, known: set<Known>): Option<Known> {
    var p := ParseMemberKey(member);
    if p.cluster.Some? then
      if Known(p.cluster.value, p.name) in known then Some(Known(p.cluster.value, p.name)) else None
    else if |Named(known, p.name)| == 1 then Some(Only(Named(known, p.name)))
    else None
  }

  /** No separator inside, and none that forms with the one appended. */
  predicate CleanId(cluster: string) {
    !Qualified(cluster) && (cluster != "" ==> cluster[|cluster| - 1] != ':')
  }

  /** Parsing undoes making exactly for clean identifiers, whatever the name. */
  lemma {:induction false} ParseUndoesMake(cluster: string, name: string)
    ensures ParseMemberKey(MakeMemberKey(cluster, name)) == Parsed(Some(cluster), name) <==> CleanId(cluster)
  {
    var m, n := MakeMemberKey(cluster, name), |cluster|;
    assert m[n] == ':' && m[n + 1] == ':';
    var i := SeparatorAt(m);
    assert i <= n;
    if CleanId(cluster) {
      assert m[..n] == cluster && m[n + 2..] == name;
    } else if Qualified(cluster) {
      var k := SeparatorAt(cluster);
      assert m[k] == ':' && m[k + 1] == ':';
    } else {
      assert m[n - 1] == ':';
    }
  }

  /** Making undoes parsing for every qualified key. */
  lemma {:induction false} MakeUndoesParse(member: string)
    requires Qualified(member)
    ensures
      var p := ParseMemberKey(member);
      p.cluster.Some? && MakeMemberKey(p.cluster.value, p.name) == member
  {
    Rejoined(member, SeparatorAt(member));
  }

  lemma {:induction false} Rejoined(s: string, i: nat)
    requires i + 1 < |s| && s[i] == ':' && s[i + 1] == ':'
    ensures s[..i] + "::" + s[i + 2..] == s
  {
    var sep := "::";
    assert s[i..i + 2] == sep;
    assert s == s[..i] + s[i..i + 2] + s[i + 2..];
  }

  // ---------- Migration ----------

  ghost function Migrated(member: string, known: set<Known>): string {
    if Qualified(member) || |Named(known, member)| != 1 then member
    else MakeMemberKey(Only(Named(known, member)).cluster, member)
  }

  ghost function MigratedAll(members: seq<string>, known: set<Known>): (r: seq<string>)
    ensures |r| == |members| && forall i :: 0 <= i < |r| ==> r[i] == Migrated(members[i], known)
  {
    seq(|members|, i requires 0 <= i < |members| => Migrated(members[i], known))
  }

  class Group {
    const isVm: bool
    var members: seq<string>

    constructor (isVm: bool, members: seq<string>)
      ensures this.isVm == isVm && this.members == members
    {
      this.isVm, this.members := isVm, members;
    }
  }

  method MigrateMember(member: string, known: set<Known>) returns (r: string)
    ensures r == Migrated(member, known)
  {
    r := member;
    if SeparatorAt(member) == |member| {
      var candidates := Named(known, member);
      if |candidates| == 1 {
        ghost var only := Only(candidates);
        assert only in candidates;
        var k :| k in candidates;
        r := MakeMemberKey(k.cluster, member);
      }
    }
  }

  method MigrateList(members: seq<string>, known: set<Known>) returns (changed: seq<string>)
    ensures changed == MigratedAll(members, known)
  {
    changed := [];
    var k := 0;
    while k < |members|
      invariant 0 <= k <= |members| && |changed| == k
      invariant forall j :: 0 <= j < k ==> changed[j] == Migrated(members[j], known)
    {
      var m := MigrateMember(members[k], known);
      changed := changed + [m];
      k := k + 1;
    }
  }

  /** One group; its members are written only if they change. */
  method MigrateGroup(g: Group, known: set<Known>) returns (changed: bool)
    modifies g`members
    ensures g.members == MigratedAll(old(g.members), known)
    ensures changed <==> g.members != old(g.members)
  {
    var members := MigrateList(g.members, known);
    changed := members != g.members;
    if changed {
      g.members := members;
    }
  }

  /** Every group's members are migrated with the names of its scope; the result
      says whether anything has to be written. */
  method MigrateMembers(groups: seq<Group>, vms: set<Known>, csvs: set<Known>) returns (dirty: bool)
    requires forall i, j :: 0 <= i < j < |groups| ==> groups[i] != groups[j]
    modifies groups
    ensures forall i :: 0 <= i < |groups| ==>
              groups[i].members == MigratedAll(old(groups[i].members), if groups[i].isVm then vms else csvs)
    ensures dirty <==> exists i :: 0 <= i < |groups| && groups[i].members != old(groups[i].members)
  {
    dirty := false;
    var i := 0;
    while i < |groups|
      invariant 0 <= i <= |groups|
      invariant forall j :: 0 <= j < i ==>
                  groups[j].members == MigratedAll(old(groups[j].members), if groups[j].isVm then vms else csvs)
      invariant forall j :: i <= j < |groups| ==> groups[j].members == old(groups[j].members)
      invariant dirty <==> exists j :: 0 <= j < i && groups[j].members != old(groups[j].members)
    {
      var changed := MigrateGroup(groups[i], if groups[i].isVm then vms else csvs);
      dirty := dirty || changed;
      i := i + 1;
    }
  }

  /** Migration changes what a member resolves to only if its one candidate has an
      unclean cluster identifier. */
  lemma {:induction false} MigrationKeepsMeaning(member: string, known: set<Known>)
    ensures ResolveMemberKey(Migrated(member, known), known) == ResolveMemberKey(member, known)
      <==> Qualified(member) || |Named(known, member)| != 1 || CleanId(Only(Named(known, member)).cluster)
  {
    if !Qualified(member) && |Named(known, member)| == 1 {
      var k := Only(Named(known, member));
      assert k in Named(known, member);
      var m := MakeMemberKey(k.cluster, member);
      assert m[|k.cluster|] == ':' && m[|k.cluster| + 1] == ':';
      assert Qualified(m);
      ParseUndoesMake(k.cluster, member);
      MakeUndoesParse(m);
    }
  }

  /** A migrated member keeps resolving to the same machine or volume when others
      of its name appear. */
  lemma {:induction false} MigratedMembersStayResolved(member: string, known: set<Known>, later: set<Known>)
    requires !Qualified(member) && |Named(known, member)| == 1 && CleanId(Only(Named(known, member)).cluster)
    requires known <= later
    ensures ResolveMemberKey(Migrated(member, known), later) == Some(Only(Named(known, member)))
  {
    var k := Only(Named(known, member));
    assert k in Named(known, member);
    ParseUndoesMake(k.cluster, member);
  }

  /** Migrating again, with whatever names are known then, leaves a migrated
      member alone. */
  lemma {:induction false} MigrationIsRepeatable(member: string, known: set<Known>, later: set<Known>)
    requires Migrated(member, known) != member
    ensures Migrated(Migrated(member, known), later) == Migrated(member, known)
  {
    var k := Only(Named(known, member));
    var m := MakeMemberKey(k.cluster, member);
    assert m[|k.cluster|] == ':' && m[|k.cluster| + 1] == ':';
  }

  // ---------- What a member stands for ----------

  ghost predicate HasSeparator(s: string) {
    exists i :: 0 <= i < |s| - 1 && s[i] == ':' && s[i + 1] == ':'
  }

  lemma {:induction false} QualifiedIff(s: string)
    ensures Qualified(s) <==> HasSeparator(s)
  {
    if Qualified(s) { assert s[SeparatorAt(s)] == ':' && s[SeparatorAt(s) + 1] == ':'; }
  }

  /** One known object has the name. */
  ghost predicate IsOnlyNamed(known: set<Known>, name: string, k: Known) {
    k in known && k.name == name && forall other :: other in known && other.name == name ==> other == k
  }

  lemma {:induction false} OnlyNamedIff(known: set<Known>, name: string, k: Known)
    ensures |Named(known, name)| == 1 && Only(Named(known, name)) == k <==> IsOnlyNamed(known, name, k)
  {
    var named := Named(known, name);
    if |named| == 1 {
      assert named == {Only(named)};
      assert Only(named) in named;
      forall other | other in known && other.name == name ensures other == Only(named) { assert other in named; }
    }
    if IsOnlyNamed(known, name, k) { assert named == {k}; }
  }

  lemma {:induction false} SplitsIntoKnown(member: string, k: Known)
    requires Qualified(member)
    ensures ParseMemberKey(member) == Parsed(Some(k.cluster), k.name)
       <==> member == k.cluster + "::" + k.name && CleanId(k.cluster)
  {
    MakeUndoesParse(member);
    ParseUndoesMake(k.cluster, k.name);
  }

  /** A member with a separator stands for the known object whose cluster and name
      stand around its first one; one without stands for the only known object of its
      name, if there is just one. */
  lemma {:induction false} ResolvesTo(member: string, known: set<Known>, k: Known)
    ensures ResolveMemberKey(member, known) == Some(k)
       <==> if HasSeparator(member)
            then k in known && member == k.cluster + "::" + k.name && !HasSeparator(k.cluster)
                 && (k.cluster != "" ==> k.cluster[|k.cluster| - 1] != ':')
            else IsOnlyNamed(known, member, k)
  {
    QualifiedIff(member);
    QualifiedIff(k.cluster);
    if Qualified(member) { SplitsIntoKnown(member, k); } else { OnlyNamedIff(known, member, k); }
  }

  /** Migration puts the cluster before a name that only one known object has. */
  lemma {:induction false} MigratedIs(member: string, known: set<Known>, k: Known)
    ensures !HasSeparator(member) && IsOnlyNamed(known, member, k) ==>
            Migrated(member, known) == k.cluster + "::" + member
    ensures HasSeparator(member) || (forall other :: !IsOnlyNamed(known, member, other)) ==>
              Migrated(member, known) == member
  {
    QualifiedIff(member);
    OnlyNamedIff(known, member, k);
    if |Named(known, member)| == 1 { OnlyNamedIff(known, member, Only(Named(known, member))); }
  }
}
