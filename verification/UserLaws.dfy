/** What merging users, roles and assignments keeps, and what it promises. */
module UserLaws {
  import opened ConfigTransfer
  import opened UserMerge
  import opened ConfigLaws
  import opened Texts

  ghost predicate HasId(rows: seq<Row>, id: Value) {
    exists i :: 0 <= i < |rows| && Get(rows[i], "id") == id
  }

  lemma {:induction false} InsertedHasId(rows: seq<Row>, row: Row, columns: set<string>, id: Value)
    requires "id" in columns && "id" in row
    ensures |Inserted(rows, row, columns)| == |rows| + 1
    ensures HasId(Inserted(rows, row, columns), Get(row, "id"))
    ensures HasId(rows, id) ==> HasId(Inserted(rows, row, columns), id)
  {
    assert "id" in row.Keys * columns;
    var after := Inserted(rows, row, columns);
    assert Get(after[|rows|], "id") == Get(row, "id");
    if HasId(rows, id) {
      var i :| 0 <= i < |rows| && Get(rows[i], "id") == id;
      assert after[i] == rows[i];
    }
  }

  // ---------- Roles ----------

  lemma {:induction false} RoleIdsArePresent(rows: seq<Row>, name: Value)
    requires name in RoleIds(rows)
    ensures exists i :: 0 <= i < |rows| && Get(rows[i], "id") == RoleIds(rows)[name] && Get(rows[i], "name") == name
  {
    var n := |rows| - 1;
    if Get(rows[n], "name") != name {
      RoleIdsArePresent(rows[..n], name);
      var i :| 0 <= i < n && Get(rows[..n][i], "id") == RoleIds(rows)[name] && Get(rows[..n][i], "name") == name;
      assert Get(rows[i], "id") == RoleIds(rows)[name];
    }
  }

  /** The columns of a role that an import may change. */
  ghost predicate SameRole(before: Row, after: Row) {
    && (forall k :: k in before ==> k in after)
    && (forall k :: k in after && k != "description" && k != "permissions" ==> k in before && after[k] == before[k])
  }

  lemma {:induction false} RewrittenIsSame(before: Row, row: Row, id: Value, from: Row)
    requires SameRole(before, row)
    ensures SameRole(before, Rewritten(row, id, from))
  {}

  lemma {:induction false} SameRoleSameId(before: Row, after: Row)
    requires SameRole(before, after)
    ensures Get(after, "id") == Get(before, "id") && Get(after, "name") == Get(before, "name")
  {
    assert "id" in after ==> "id" in before && after["id"] == before["id"];
    assert "name" in after ==> "name" in before && after["name"] == before["name"];
    assert "id" in before ==> "id" in after;
    assert "name" in before ==> "name" in after;
  }

  ghost predicate RolesKept(before: seq<Row>, after: seq<Row>) {
    |before| <= |after| && forall i :: 0 <= i < |before| ==> SameRole(before[i], after[i])
  }

  lemma {:induction false} KeptIds(before: seq<Row>, after: seq<Row>, id: Value)
    requires RolesKept(before, after) && HasId(before, id)
    ensures HasId(after, id)
  {
    var i :| 0 <= i < |before| && Get(before[i], "id") == id;
    SameRoleSameId(before[i], after[i]);
  }

  /** All roles that were there keep identifier, name and place; only their
      description and permissions may change, and only through an exported role
      that is no system role. */
  lemma {:induction false} ExistingRolesAreKept(exported: seq<Row>, existing: map<Value, Value>, rows: seq<Row>,
                                                columns: set<string>)
    ensures RolesKept(rows, MergedRoles(exported, existing, rows, columns).rows)
    ensures (forall i :: 0 <= i < |exported| && Get(exported[i], "name") in existing ==>
             !Falsy(Get(exported[i], "is_system_role")))
            ==> rows <= MergedRoles(exported, existing, rows, columns).rows
  {
    if exported != [] {
      var n := |exported| - 1;
      var row := exported[n];
      ExistingRolesAreKept(exported[..n], existing, rows, columns);
      var before, name := MergedRoles(exported[..n], existing, rows, columns).rows, Get(row, "name");
      if name in existing {
        forall i | 0 <= i < |rows| ensures SameRole(rows[i], Rewritten(before[i], existing[name], row)) {
          RewrittenIsSame(rows[i], before[i], existing[name], row);
        }
      }
    }
  }

  lemma {:induction false} RewrittenIds(rows: seq<Row>, id: Value, from: Row, x: Value)
    requires HasId(rows, x)
    ensures HasId(RewrittenAll(rows, id, from), x)
  {
    var i :| 0 <= i < |rows| && Get(rows[i], "id") == x;
    assert Get(RewrittenAll(rows, id, from)[i], "id") == x;
  }

  /** Every exported role leads to a role that is there afterwards. */
  lemma {:induction false} RolesResolve(exported: seq<Row>, current: seq<Row>, columns: set<string>, id: Value)
    requires "id" in columns && HaveIds(exported)
    ensures
      var m := MergedRoles(exported, RoleIds(current), current, columns);
      && (id in m.ids <==> HasId(exported, id))
      && (id in m.ids ==> HasId(m.rows, m.ids[id]))
  {
    var existing := RoleIds(current);
    if exported != [] {
      var n := |exported| - 1;
      var row := exported[n];
      RolesResolve(exported[..n], current, columns, id);
      assert exported == exported[..n] + [row];
      HasIdOfAppended(exported[..n], row, id);
      var before := MergedRoles(exported[..n], existing, current, columns);
      var m := MergedRoles(exported, existing, current, columns);
      if Get(row, "name") in existing {
        RoleIdsArePresent(current, Get(row, "name"));
        ExistingRolesAreKept(exported, existing, current, columns);
        KeptIds(current, m.rows, existing[Get(row, "name")]);
        if id in before.ids { RewrittenIds(before.rows, existing[Get(row, "name")], row, before.ids[id]); }
      } else {
        InsertedHasId(before.rows, row, columns, if id in before.ids then before.ids[id] else Null);
      }
    }
  }

  lemma {:induction false} HasIdOfAppended(rows: seq<Row>, row: Row, id: Value)
    ensures HasId(rows + [row], id) <==> HasId(rows, id) || Get(row, "id") == id
  {
    var all := rows + [row];
    if HasId(rows, id) {
      var i :| 0 <= i < |rows| && Get(rows[i], "id") == id;
      assert all[i] == rows[i];
    }
    assert all[|rows|] == row;
  }

  // ---------- Users ----------

  lemma {:induction false} UserIdsArePresent(rows: seq<Row>, key: string)
    requires key in UserIds(rows)
    ensures HasId(rows, UserIds(rows)[key])
  {
    var n := |rows| - 1;
    if UserKey(rows[n]) != key {
      UserIdsArePresent(rows[..n], key);
      HasIdOfAppended(rows[..n], rows[n], UserIds(rows)[key]);
      assert rows == rows[..n] + [rows[n]];
    }
  }

  /** Users that were there stay exactly as they are, and every exported user is
      either added or counted as skipped. */
  lemma {:induction false} UsersAreCounted(exported: seq<Row>, existing: map<string, Value>, current: seq<Row>,
                                           columns: set<string>)
    requires "id" in columns && HaveIds(exported)
    ensures
      var m := MergedUsers(exported, existing, current, columns);
      && current <= m.rows
      && |m.rows| - |current| + |m.skipped| == |exported|
  {
    if exported != [] {
      var n := |exported| - 1;
      UsersAreCounted(exported[..n], existing, current, columns);
      CleaningKeeps(exported[n]);
      var row, before := Cleaned(Users, exported[n]), MergedUsers(exported[..n], existing, current, columns);
      if UserKey(row) !in existing { InsertedHasId(before.rows, row, columns, Null); }
    }
  }

  lemma {:induction false} NextUserResolves(before: UserImport, row: Row, existing: map<string, Value>,
                                            current: seq<Row>, columns: set<string>, id: Value)
    requires "id" in columns && "id" in row && current <= before.rows && existing == UserIds(current)
    requires id in before.ids ==> HasId(before.rows, before.ids[id])
    ensures
      var rows := if UserKey(row) in existing then before.rows else Inserted(before.rows, row, columns);
      && (UserKey(row) in existing ==> HasId(rows, existing[UserKey(row)]))
      && (UserKey(row) !in existing ==> HasId(rows, Get(row, "id")))
      && (id in before.ids ==> HasId(rows, before.ids[id]))
  {
    if UserKey(row) in existing {
      UserIdsArePresent(current, UserKey(row));
      PrefixHasId(current, before.rows, existing[UserKey(row)]);
    } else {
      InsertedHasId(before.rows, row, columns, if id in before.ids then before.ids[id] else Null);
    }
  }

  lemma {:induction false} ExactlyExportedIdsAreMapped(exported: seq<Row>, existing: map<string, Value>,
                                                       current: seq<Row>, columns: set<string>, id: Value)
    requires HaveIds(exported)
    ensures id in MergedUsers(exported, existing, current, columns).ids <==> HasId(exported, id)
  {
    if exported != [] {
      var n := |exported| - 1;
      ExactlyExportedIdsAreMapped(exported[..n], existing, current, columns, id);
      assert exported == exported[..n] + [exported[n]];
      HasIdOfAppended(exported[..n], exported[n], id);
      CleaningKeeps(exported[n]);
    }
  }

  lemma {:induction false} MappedUsersArePresent(exported: seq<Row>, current: seq<Row>, columns: set<string>, id: Value)
    requires "id" in columns && HaveIds(exported)
    ensures
      var m := MergedUsers(exported, UserIds(current), current, columns);
      id in m.ids ==> HasId(m.rows, m.ids[id])
  {
    if exported != [] {
      var n := |exported| - 1;
      MappedUsersArePresent(exported[..n], current, columns, id);
      CleaningKeeps(exported[n]);
      UsersAreCounted(exported[..n], UserIds(current), current, columns);
      NextUserResolves(MergedUsers(exported[..n], UserIds(current), current, columns), Cleaned(Users, exported[n]),
                       UserIds(current), current, columns, id);
    }
  }

  /** Every exported user leads to a user that is there afterwards. */
  lemma {:induction false} UsersResolve(exported: seq<Row>, current: seq<Row>, columns: set<string>, id: Value)
    requires "id" in columns && HaveIds(exported)
    ensures
      var m := MergedUsers(exported, UserIds(current), current, columns);
      && (id in m.ids <==> HasId(exported, id))
      && (id in m.ids ==> HasId(m.rows, m.ids[id]))
  {
    ExactlyExportedIdsAreMapped(exported, UserIds(current), current, columns, id);
    MappedUsersArePresent(exported, current, columns, id);
  }

  lemma {:induction false} PrefixHasId(a: seq<Row>, b: seq<Row>, id: Value)
    requires a <= b && HasId(a, id)
    ensures HasId(b, id)
  {
    var i :| 0 <= i < |a| && Get(a[i], "id") == id;
    assert b[i] == a[i];
  }

  // ---------- Assignments ----------

  ghost predicate GrantColumns(columns: set<string>) {
    "user_id" in columns && "role_id" in columns && "scope_type" in columns
  }

  lemma {:induction false} InsertedGrant(rows: seq<Row>, row: Row, columns: set<string>)
    requires GrantColumns(columns) && "user_id" in row
    ensures Inserted(rows, row, columns) == rows + [Stored(row, columns)]
    ensures GrantOf(Stored(row, columns)) == GrantOf(row)
    ensures Grants(Inserted(rows, row, columns)) == Grants(rows) + {GrantOf(row)}
  {
    assert "user_id" in row.Keys * columns;
    var after := rows + [Stored(row, columns)];
    forall g ensures g in Grants(after) <==> g in Grants(rows) || g == GrantOf(row) {
      if g in Grants(rows) {
        var i :| 0 <= i < |rows| && GrantOf(rows[i]) == g;
        assert GrantOf(after[i]) == g;
      }
      assert GrantOf(after[|rows|]) == GrantOf(row);
    }
  }

  /** The grant an exported assignment stands for here. */
  ghost function TargetGrant(row: Row, users: map<Value, Value>, roles: map<Value, Value>): Grant {
    Grant(Lookup(users, Get(row, "user_id")), Lookup(roles, Get(row, "role_id")), Get(row, "scope_type"))
  }

  /** The assignment's user and role are known here, and this is what it grants. */
  ghost predicate StandsFor(row: Row, users: map<Value, Value>, roles: map<Value, Value>, g: Grant) {
    var user, role := Get(row, "user_id"), Get(row, "role_id");
    && user in users && role in roles && !IsFalse(users[user]) && !IsFalse(roles[role])
    && g.user == users[user] && g.role == roles[role] && g.scope == Get(row, "scope_type")
  }

  lemma {:induction false} GrantsWhatItTargets(row: Row, users: map<Value, Value>, roles: map<Value, Value>, g: Grant)
    ensures Resolved(row, users, roles) && TargetGrant(row, users, roles) == g <==> StandsFor(row, users, roles, g)
  {
    FalseIs(Lookup(users, Get(row, "user_id")));
    FalseIs(Lookup(roles, Get(row, "role_id")));
  }

  ghost predicate Granted(exported: seq<Row>, users: map<Value, Value>, roles: map<Value, Value>, g: Grant) {
    exists i :: 0 <= i < |exported| && StandsFor(exported[i], users, roles, g)
  }

  lemma {:induction false} GrantedOfAppended(exported: seq<Row>, row: Row, users: map<Value, Value>,
                                             roles: map<Value, Value>, g: Grant)
    ensures Granted(exported + [row], users, roles, g)
      <==> Granted(exported, users, roles, g) || (Resolved(row, users, roles) && TargetGrant(row, users, roles) == g)
  {
    var all := exported + [row];
    GrantsWhatItTargets(row, users, roles, g);
    if Granted(exported, users, roles, g) {
      var i :| 0 <= i < |exported| && StandsFor(exported[i], users, roles, g);
      assert all[i] == exported[i];
    }
    assert all[|exported|] == row;
  }

  ghost predicate AddedOnce(rows: seq<Row>, from: nat) {
    forall i, j | 0 <= i < j < |rows| && from <= j :: GrantOf(rows[i]) != GrantOf(rows[j])
  }

  /** The assignments that were there stay; each added one is new, however many
      exported users or roles were merged into one; and afterwards a grant exists
      exactly if it existed before or an exported assignment stands for it. */
  lemma {:induction false} AssignmentsAreMerged(exported: seq<Row>, users: map<Value, Value>, roles: map<Value, Value>,
                                                current: seq<Row>, columns: set<string>, g: Grant)
    requires GrantColumns(columns)
    ensures
      var m := MergedAssignments(exported, users, roles, current, columns);
      && current <= m.rows && |m.rows| == |current| + m.imported
      && AddedOnce(m.rows, |current|)
      && m.grants == Grants(m.rows)
      && (g in Grants(m.rows) <==> g in Grants(current) || Granted(exported, users, roles, g))
  {
    if exported != [] {
      var n := |exported| - 1;
      var row := exported[n];
      AssignmentsAreMerged(exported[..n], users, roles, current, columns, g);
      assert exported == exported[..n] + [row];
      GrantedOfAppended(exported[..n], row, users, roles, g);
      var before := MergedAssignments(exported[..n], users, roles, current, columns);
      var target := Remapped(row, users, roles);
      assert GrantOf(target) == TargetGrant(row, users, roles);
      if Resolved(row, users, roles) && GrantOf(target) !in before.grants {
        InsertedGrant(before.rows, target, columns);
        AddedStaysOnce(before.rows, Stored(target, columns), |current|);
      } else if Resolved(row, users, roles) {
        AssignmentsAreMerged(exported[..n], users, roles, current, columns, GrantOf(target));
      }
    }
  }

  lemma {:induction false} AddedStaysOnce(rows: seq<Row>, row: Row, from: nat)
    requires AddedOnce(rows, from) && GrantOf(row) !in Grants(rows)
    ensures AddedOnce(rows + [row], from)
  {
    var after := rows + [row];
    forall i | 0 <= i < |rows| ensures GrantOf(after[i]) != GrantOf(row) {
      assert GrantOf(rows[i]) in Grants(rows);
    }
  }

  /** Every assignment the import adds names a user and a role that are there. */
  lemma {:induction false} AddedAssignmentsResolve(exported: seq<Row>, exportedUsers: seq<Row>, exportedRoles: seq<Row>,
                                                   users: seq<Row>, roles: seq<Row>, current: seq<Row>,
                                                   userColumns: set<string>, roleColumns: set<string>,
                                                   columns: set<string>, i: nat)
    requires GrantColumns(columns) && "id" in userColumns && "id" in roleColumns
    requires HaveIds(exportedUsers) && HaveIds(exportedRoles)
    requires
      var u, r := MergedUsers(exportedUsers, UserIds(users), users, userColumns),
          MergedRoles(exportedRoles, RoleIds(roles), roles, roleColumns);
      |current| <= i < |MergedAssignments(exported, u.ids, r.ids, current, columns).rows|
    ensures
      var u, r := MergedUsers(exportedUsers, UserIds(users), users, userColumns),
          MergedRoles(exportedRoles, RoleIds(roles), roles, roleColumns);
      var row := MergedAssignments(exported, u.ids, r.ids, current, columns).rows[i];
      && HasId(u.rows, Get(row, "user_id"))
      && HasId(r.rows, Get(row, "role_id"))
  {
    var u, r := MergedUsers(exportedUsers, UserIds(users), users, userColumns),
        MergedRoles(exportedRoles, RoleIds(roles), roles, roleColumns);
    var k := AddedFrom(exported, u.ids, r.ids, current, columns, i);
    UsersResolve(exportedUsers, users, userColumns, Get(exported[k], "user_id"));
    RolesResolve(exportedRoles, roles, roleColumns, Get(exported[k], "role_id"));
  }

  /** Where an added assignment comes from. */
  lemma {:induction false} AddedFrom(exported: seq<Row>, users: map<Value, Value>, roles: map<Value, Value>,
                                     current: seq<Row>, columns: set<string>, i: nat) returns (k: nat)
    requires GrantColumns(columns) &&
             |current| <= i < |MergedAssignments(exported, users, roles, current, columns).rows|
    ensures k < |exported| && Resolved(exported[k], users, roles)
    ensures GrantOf(MergedAssignments(exported, users, roles, current, columns).rows[i])
          == TargetGrant(exported[k], users, roles)
  {
    var n := |exported| - 1;
    var before := MergedAssignments(exported[..n], users, roles, current, columns);
    if i < |before.rows| {
      k := AddedFrom(exported[..n], users, roles, current, columns, i);
      InsertedGrant(before.rows, Remapped(exported[n], users, roles), columns);
    } else {
      k := n;
      InsertedGrant(before.rows, Remapped(exported[n], users, roles), columns);
    }
  }

  // ---------- By name ----------

  /** Some row has the identifier and the value in the column. */
  ghost predicate HasBoth(rows: seq<Row>, id: Value, column: string, v: Value) {
    exists i :: 0 <= i < |rows| && Get(rows[i], "id") == id && Get(rows[i], column) == v
  }

  lemma {:induction false} InsertedHasBoth(rows: seq<Row>, row: Row, columns: set<string>, column: string, id: Value,
                                           v: Value)
    requires "id" in columns && column in columns && "id" in row
    ensures HasBoth(Inserted(rows, row, columns), Get(row, "id"), column, Get(row, column))
    ensures HasBoth(rows, id, column, v) ==> HasBoth(Inserted(rows, row, columns), id, column, v)
  {
    assert "id" in row.Keys * columns;
    var after := Inserted(rows, row, columns);
    assert Get(after[|rows|], "id") == Get(row, "id") && Get(after[|rows|], column) == Get(row, column);
    if i :| 0 <= i < |rows| && Get(rows[i], "id") == id && Get(rows[i], column) == v { assert after[i] == rows[i]; }
  }

  lemma {:induction false} RewrittenHasBoth(rows: seq<Row>, id: Value, from: Row, x: Value, v: Value)
    requires HasBoth(rows, x, "name", v)
    ensures HasBoth(RewrittenAll(rows, id, from), x, "name", v)
  {
    var i :| 0 <= i < |rows| && Get(rows[i], "id") == x && Get(rows[i], "name") == v;
    var after := RewrittenAll(rows, id, from);
    assert Get(after[i], "id") == x && Get(after[i], "name") == v;
  }

  lemma {:induction false} KeptHasBoth(before: seq<Row>, after: seq<Row>, id: Value, v: Value)
    requires RolesKept(before, after) && HasBoth(before, id, "name", v)
    ensures HasBoth(after, id, "name", v)
  {
    var i :| 0 <= i < |before| && Get(before[i], "id") == id && Get(before[i], "name") == v;
    SameRoleSameId(before[i], after[i]);
  }

  /** No later exported row has the identifier. */
  ghost predicate IsLastWithId(exported: seq<Row>, k: nat) {
    k < |exported| && forall j :: k < j < |exported| ==> Get(exported[j], "id") != Get(exported[k], "id")
  }

  lemma {:induction false} NextRoleByName(before: Merge, row: Row, existing: map<Value, Value>, columns: set<string>,
                                          id: Value, v: Value)
    requires "id" in columns && "name" in columns && "id" in row && HasBoth(before.rows, id, "name", v)
    ensures HasBoth(WithRole(before, row, existing, columns).rows, id, "name", v)
  {
    var name := Get(row, "name");
    if name in existing {
      RewrittenHasBoth(before.rows, existing[name], row, id, v);
    } else {
      InsertedHasBoth(before.rows, row, columns, "name", id, v);
    }
  }

  /** The row just imported leads to a role of its name. */
  lemma {:induction false} ThisRoleByName(before: Merge, row: Row, current: seq<Row>, columns: set<string>)
    requires "id" in columns && "name" in columns && "id" in row && RolesKept(current, before.rows)
    ensures
      var m := WithRole(before, row, RoleIds(current), columns);
      Get(row, "id") in m.ids && HasBoth(m.rows, m.ids[Get(row, "id")], "name", Get(row, "name"))
  {
    var existing, name := RoleIds(current), Get(row, "name");
    if name in existing {
      RoleIdsArePresent(current, name);
      KeptHasBoth(current, before.rows, existing[name], name);
      NextRoleByName(before, row, existing, columns, existing[name], name);
    } else {
      InsertedHasBoth(before.rows, row, columns, "name", Get(row, "id"), name);
    }
  }

  lemma {:induction false} EarlierRoleByName(before: Merge, row: Row, existing: map<Value, Value>, columns: set<string>,
                                             other: Row)
    requires "id" in columns && "name" in columns && "id" in row && Get(row, "id") != Get(other, "id")
    requires Get(other, "id") in before.ids
             && HasBoth(before.rows, before.ids[Get(other, "id")], "name", Get(other, "name"))
    ensures
      var m := WithRole(before, row, existing, columns);
      Get(other, "id") in m.ids && HasBoth(m.rows, m.ids[Get(other, "id")], "name", Get(other, "name"))
  {
    NextRoleByName(before, row, existing, columns, before.ids[Get(other, "id")], Get(other, "name"));
  }

  /** The roles and identifiers after the exported ones. */
  ghost predicate RolesAreMerged(m: Merge, exported: seq<Row>, current: seq<Row>, columns: set<string>) {
    m == MergedRoles(exported, RoleIds(current), current, columns)
  }

  lemma {:induction false} MergedRolesNext(before: Merge, exported: seq<Row>, current: seq<Row>, columns: set<string>)
    requires exported != [] && RolesAreMerged(before, exported[..|exported| - 1], current, columns)
    ensures RolesAreMerged(WithRole(before, exported[|exported| - 1], RoleIds(current), columns), exported, current,
                           columns)
  {
  }

  ghost predicate RoleResolves(m: Merge, row: Row) {
    Get(row, "id") in m.ids && HasBoth(m.rows, m.ids[Get(row, "id")], "name", Get(row, "name"))
  }

  /** An exported role leads to one of its name: the one that was here, or itself. */
  lemma {:induction false} RolesResolveByName(exported: seq<Row>, current: seq<Row>, columns: set<string>, k: nat,
                                              m: Merge)
    requires "id" in columns && "name" in columns && HaveIds(exported) && IsLastWithId(exported, k)
    requires RolesAreMerged(m, exported, current, columns)
    ensures RoleResolves(m, exported[k])
  {
    var n := |exported| - 1;
    var row, front := exported[n], exported[..n];
    var before := MergedRoles(front, RoleIds(current), current, columns);
    MergedRolesNext(before, exported, current, columns);
    if k < n {
      RolesResolveByName(front, current, columns, k, before);
      EarlierRoleByName(before, row, RoleIds(current), columns, exported[k]);
    } else {
      ExistingRolesAreKept(front, RoleIds(current), current, columns);
      ThisRoleByName(before, row, current, columns);
    }
  }

  // ---------- What an exported role changes ----------

  /** Description and permissions are those of the exported role; a missing description
      is the empty text, missing permissions are none. */
  ghost predicate TakesOver(row: Row, from: Row) {
    && "description" in row && "permissions" in row
    && row["description"] == (if IsFalse(Get(from, "description")) then Text("") else Get(from, "description"))
    && row["permissions"] == (if Get(from, "permissions").Text? then Get(from, "permissions") else Text("[]"))
  }

  ghost predicate IsSystemRole(row: Row) { "is_system_role" in row && !IsFalse(row["is_system_role"]) }

  /** The exported row is of another role, or of a system role. */
  ghost predicate LeavesAlone(row: Row, existing: map<Value, Value>, id: Value) {
    Get(row, "name") in existing && existing[Get(row, "name")] == id ==> IsSystemRole(row)
  }

  lemma {:induction false} RewrittenTakesOver(row: Row, id: Value, from: Row)
    ensures Get(row, "id") == id ==> TakesOver(Rewritten(row, id, from), from)
    ensures Get(row, "id") != id ==> Rewritten(row, id, from) == row
    ensures Get(Rewritten(row, id, from), "id") == Get(row, "id")
  {
    FalseIs(Get(from, "description"));
  }

  /** Row i of the roles is updated by the exported row. */
  ghost predicate IsUpdated(rows: seq<Row>, i: nat, id: Value, from: Row) {
    i < |rows| && TakesOver(rows[i], from) && Get(rows[i], "id") == id
  }

  lemma {:induction false} ThisRoleUpdates(before: Merge, row: Row, existing: map<Value, Value>, columns: set<string>,
                                           i: nat)
    requires i < |before.rows| && Get(row, "name") in existing && !IsSystemRole(row)
    requires Get(before.rows[i], "id") == existing[Get(row, "name")]
    ensures IsUpdated(WithRole(before, row, existing, columns).rows, i, existing[Get(row, "name")], row)
  {
    FalseIs(Get(row, "is_system_role"));
    RewrittenTakesOver(before.rows[i], existing[Get(row, "name")], row);
  }

  lemma {:induction false} OtherRoleLeaves(before: Merge, row: Row, existing: map<Value, Value>, columns: set<string>,
                                           i: nat, id: Value, from: Row)
    requires IsUpdated(before.rows, i, id, from) && LeavesAlone(row, existing, id)
    ensures IsUpdated(WithRole(before, row, existing, columns).rows, i, id, from)
  {
    FalseIs(Get(row, "is_system_role"));
    if Get(row, "name") in existing { RewrittenTakesOver(before.rows[i], existing[Get(row, "name")], row); }
  }

  /** A role that is here takes over description and permissions of the last exported
      role of its name that is no system role. */
  lemma {:induction false} NamesakeIsUpdated(exported: seq<Row>, current: seq<Row>, columns: set<string>, k: nat,
                                             i: nat, m: Merge)
    requires k < |exported| && i < |current| && !IsSystemRole(exported[k])
    requires Get(exported[k], "name") in RoleIds(current)
             && Get(current[i], "id") == RoleIds(current)[Get(exported[k], "name")]
    requires forall j :: k < j < |exported| ==> LeavesAlone(exported[j], RoleIds(current), Get(current[i], "id"))
    requires RolesAreMerged(m, exported, current, columns)
    ensures IsUpdated(m.rows, i, Get(current[i], "id"), exported[k])
  {
    var n := |exported| - 1;
    var front, row := exported[..n], exported[n];
    var before := MergedRoles(front, RoleIds(current), current, columns);
    MergedRolesNext(before, exported, current, columns);
    if k < n {
      assert LeavesAlone(row, RoleIds(current), Get(current[i], "id"));
      NamesakeIsUpdated(front, current, columns, k, i, before);
      OtherRoleLeaves(before, row, RoleIds(current), columns, i, Get(current[i], "id"), exported[k]);
    } else {
      ExistingRolesAreKept(front, RoleIds(current), current, columns);
      SameRoleSameId(current[i], before.rows[i]);
      ThisRoleUpdates(before, row, RoleIds(current), columns, i);
    }
  }

  // ---------- Who is added ----------

  /** A user of the installation has the name, in any case. */
  ghost predicate NameTaken(current: seq<Row>, row: Row) {
    exists i :: && 0 <= i < |current| && Get(current[i], "username").Text? && Get(row, "username").Text?
                && Lower(Get(current[i], "username").s) == Lower(Get(row, "username").s)
  }

  lemma {:induction false} TakenIsKnown(current: seq<Row>, row: Row)
    requires NamedByText(current) && Get(row, "username").Text?
    ensures UserKey(row) in UserIds(current) <==> NameTaken(current, row)
  {
    if current != [] {
      var n := |current| - 1;
      TakenIsKnown(current[..n], row);
      assert current == current[..n] + [current[n]];
    }
  }

  /** How an exported user is stored: without password hash, its last login empty. */
  ghost predicate IsNewUser(x: Row, row: Row, columns: set<string>) {
    && x.Keys == columns
    && forall k :: k in columns ==>
         x[k] == if k == "hashed_password" || k == "last_login_at" then Null else Get(row, k)
  }

  lemma {:induction false} StoredUser(row: Row, columns: set<string>, x: Row)
    ensures x == Stored(Cleaned(Users, row), columns) <==> IsNewUser(x, row, columns)
  {
    var stored := Stored(Cleaned(Users, row), columns);
    forall k | k in columns
      ensures stored[k] == if k == "hashed_password" || k == "last_login_at" then Null else Get(row, k)
    {
      CleanedColumn(Users, row, k);
      UserNeutralsAre(k);
      SecretsAre(Users, k);
    }
    if IsNewUser(x, row, columns) { assert x == stored; }
  }

  ghost predicate SomeAdded(exported: seq<Row>, current: seq<Row>, columns: set<string>, x: Row) {
    exists i :: 0 <= i < |exported| && !NameTaken(current, exported[i]) && IsNewUser(x, exported[i], columns)
  }

  ghost predicate SomeSkipped(exported: seq<Row>, current: seq<Row>, v: Value) {
    exists i :: 0 <= i < |exported| && NameTaken(current, exported[i]) && v == Get(exported[i], "username")
  }

  lemma {:induction false} SomeOfAppended(exported: seq<Row>, row: Row, current: seq<Row>, columns: set<string>, x: Row,
                                          v: Value)
    ensures SomeAdded(exported + [row], current, columns, x)
       <==> SomeAdded(exported, current, columns, x) || (!NameTaken(current, row) && IsNewUser(x, row, columns))
    ensures SomeSkipped(exported + [row], current, v)
       <==> SomeSkipped(exported, current, v) || (NameTaken(current, row) && v == Get(row, "username"))
  {
    var all := exported + [row];
    assert all[|exported|] == row && forall i :: 0 <= i < |exported| ==> all[i] == exported[i];
  }

  ghost predicate AddedByName(m: UserImport, exported: seq<Row>, current: seq<Row>, columns: set<string>, x: Row,
                              v: Value)
  {
    && |current| <= |m.rows|
    && (x in m.rows[|current|..] <==> SomeAdded(exported, current, columns, x))
    && (v in m.skipped <==> SomeSkipped(exported, current, v))
  }

  /** The users added are the exported ones whose name is free; the names skipped are
      those of the others. */
  lemma {:induction false} UsersAreAddedByName(exported: seq<Row>, current: seq<Row>, columns: set<string>, x: Row,
                                               v: Value, m: UserImport)
    requires "id" in columns && HaveIds(exported) && NamedByText(exported) && NamedByText(current)
    requires AreMerged(m, exported, current, columns)
    ensures AddedByName(m, exported, current, columns, x, v)
  {
    if exported == [] {
      NobodyAdded(current, columns, x, v);
    } else {
      var n := |exported| - 1;
      var front, row := exported[..n], exported[n];
      var before := MergedUsers(front, UserIds(current), current, columns);
      FrontOfExported(exported, n);
      UsersAreAddedByName(front, current, columns, x, v, before);
      OneMoreByName(before, front, row, current, columns, x, v);
      MergedIs(before, m, exported, front, row, current, columns);
    }
  }

  lemma {:induction false} MergedIs(before: UserImport, m: UserImport, exported: seq<Row>, front: seq<Row>, row: Row,
                                    current: seq<Row>, columns: set<string>)
    requires exported != [] && front == exported[..|exported| - 1] && row == exported[|exported| - 1]
    requires AreMerged(before, front, current, columns) && AreMerged(m, exported, current, columns)
    ensures exported == front + [row] && m == WithUser(before, Cleaned(Users, row), UserIds(current), columns)
  {
  }

  lemma {:induction false} NobodyAdded(current: seq<Row>, columns: set<string>, x: Row, v: Value)
    ensures AddedByName(UserImport(current, map[], []), [], current, columns, x, v)
  {
    assert current[|current|..] == [];
  }

  lemma {:induction false} OneMoreByName(before: UserImport, front: seq<Row>, row: Row, current: seq<Row>,
                                         columns: set<string>, x: Row, v: Value)
    requires "id" in columns && "id" in row && Get(row, "username").Text? && NamedByText(current)
    requires AddedByName(before, front, current, columns, x, v)
    ensures AddedByName(WithUser(before, Cleaned(Users, row), UserIds(current), columns), front + [row], current,
                        columns, x, v)
  {
    NextUserByName(before, row, current, columns, x, v);
    SomeOfAppended(front, row, current, columns, x, v);
  }

  lemma {:induction false} NextUserByName(before: UserImport, row: Row, current: seq<Row>, columns: set<string>, x: Row,
                                          v: Value)
    requires "id" in columns && "id" in row && Get(row, "username").Text? && NamedByText(current)
    requires |current| <= |before.rows|
    ensures
      var m, c := WithUser(before, Cleaned(Users, row), UserIds(current), columns), |current|;
      && |before.rows| <= |m.rows|
      && (x in m.rows[c..] <==> x in before.rows[c..] || (!NameTaken(current, row) && IsNewUser(x, row, columns)))
      && (v in m.skipped <==> v in before.skipped || (NameTaken(current, row) && v == Get(row, "username")))
  {
    CleaningKeeps(row);
    TakenIsKnown(current, row);
    StoredUser(row, columns, x);
    var cleaned := Cleaned(Users, row);
    assert UserKey(cleaned) == UserKey(row);
    assert "id" in cleaned.Keys * columns;
    var longer := before.rows + [Stored(cleaned, columns)];
    assert longer[|current|..] == before.rows[|current|..] + [Stored(cleaned, columns)];
  }

  lemma {:induction false} NextUserNamesake(before: UserImport, row: Row, existing: map<string, Value>,
                                            columns: set<string>, id: Value, other: Row)
    requires "id" in columns && "username" in columns && "id" in row && Get(row, "username").Text?
    requires HasNamesake(before.rows, id, other)
    ensures HasNamesake(WithUser(before, row, existing, columns).rows, id, other)
  {
    if UserKey(row) !in existing { InsertedNamesake(before.rows, row, columns, id, other); }
  }

  lemma {:induction false} ThisUserNamesake(before: UserImport, row: Row, current: seq<Row>, columns: set<string>)
    requires "id" in columns && "username" in columns && "id" in row && Get(row, "username").Text?
    requires NamedByText(current) && current <= before.rows
    ensures
      var m := WithUser(before, row, UserIds(current), columns);
      Get(row, "id") in m.ids && HasNamesake(m.rows, m.ids[Get(row, "id")], row)
  {
    var existing := UserIds(current);
    if UserKey(row) in existing {
      UserIdsAreNamesakes(current, row);
      var i :| 0 <= i < |current| && IsNamesake(current[i], existing[UserKey(row)], row);
      assert before.rows[i] == current[i];
    } else {
      InsertedNamesake(before.rows, row, columns, Null, row);
    }
  }

  lemma {:induction false} CleanedNamesake(rows: seq<Row>, id: Value, row: Row)
    requires HasNamesake(rows, id, Cleaned(Users, row))
    ensures HasNamesake(rows, id, row)
  {
    CleaningKeeps(row);
    var i :| 0 <= i < |rows| && IsNamesake(rows[i], id, Cleaned(Users, row));
    assert IsNamesake(rows[i], id, row);
  }

  lemma {:induction false} ImportedUserResolves(before: UserImport, row: Row, current: seq<Row>, columns: set<string>)
    requires "id" in columns && "username" in columns && "id" in row && Get(row, "username").Text?
    requires NamedByText(current) && current <= before.rows
    ensures
      var m := WithUser(before, Cleaned(Users, row), UserIds(current), columns);
      Get(row, "id") in m.ids && HasNamesake(m.rows, m.ids[Get(row, "id")], row)
  {
    CleaningKeeps(row);
    var m := WithUser(before, Cleaned(Users, row), UserIds(current), columns);
    ThisUserNamesake(before, Cleaned(Users, row), current, columns);
    CleanedNamesake(m.rows, m.ids[Get(row, "id")], row);
  }

  lemma {:induction false} EarlierUserResolves(before: UserImport, row: Row, existing: map<string, Value>,
                                               columns: set<string>, other: Row)
    requires "id" in columns && "username" in columns && "id" in row && Get(row, "username").Text?
    requires Get(other, "id") in before.ids && HasNamesake(before.rows, before.ids[Get(other, "id")], other)
    requires Get(row, "id") != Get(other, "id")
    ensures
      var m := WithUser(before, Cleaned(Users, row), existing, columns);
      Get(other, "id") in m.ids && HasNamesake(m.rows, m.ids[Get(other, "id")], other)
  {
    CleaningKeeps(row);
    NextUserNamesake(before, Cleaned(Users, row), existing, columns, before.ids[Get(other, "id")], other);
  }

  ghost predicate Resolves(m: UserImport, row: Row) {
    Get(row, "id") in m.ids && HasNamesake(m.rows, m.ids[Get(row, "id")], row)
  }

  lemma {:induction false} FrontOfExported(exported: seq<Row>, k: nat)
    requires HaveIds(exported) && NamedByText(exported) && k < |exported|
    ensures
      var n := |exported| - 1;
      && HaveIds(exported[..n]) && NamedByText(exported[..n])
      && "id" in exported[n] && Get(exported[n], "username").Text?
      && (IsLastWithId(exported, k) && k < n ==>
            && IsLastWithId(exported[..n], k) && exported[..n][k] == exported[k]
            && Get(exported[n], "id") != Get(exported[k], "id"))
  {
  }

  /** The users and identifiers after the exported ones. */
  ghost predicate AreMerged(m: UserImport, exported: seq<Row>, current: seq<Row>, columns: set<string>) {
    m == MergedUsers(exported, UserIds(current), current, columns)
  }

  /** An exported user leads to one of its name: the one that was here, or itself. */
  lemma {:induction false} UsersResolveByName(exported: seq<Row>, current: seq<Row>, columns: set<string>, k: nat,
                                              m: UserImport)
    requires "id" in columns && "username" in columns && HaveIds(exported) && NamedByText(exported)
    requires NamedByText(current) && IsLastWithId(exported, k) && AreMerged(m, exported, current, columns)
    ensures Resolves(m, exported[k])
  {
    var n := |exported| - 1;
    var front := exported[..n];
    var before := MergedUsers(front, UserIds(current), current, columns);
    FrontOfExported(exported, k);
    MergedIs(before, m, exported, front, exported[n], current, columns);
    if k < n {
      UsersResolveByName(front, current, columns, k, before);
      EarlierUserResolves(before, exported[n], UserIds(current), columns, exported[k]);
    } else {
      UsersAreCounted(front, UserIds(current), current, columns);
      ImportedUserResolves(before, exported[n], current, columns);
    }
  }

  ghost predicate IsNamesake(x: Row, id: Value, row: Row) {
    && Get(x, "id") == id && Get(x, "username").Text? && Get(row, "username").Text?
    && Lower(Get(x, "username").s) == Lower(Get(row, "username").s)
  }

  ghost predicate HasNamesake(rows: seq<Row>, id: Value, row: Row) {
    exists i :: 0 <= i < |rows| && IsNamesake(rows[i], id, row)
  }

  lemma {:induction false} UserIdsAreNamesakes(current: seq<Row>, row: Row)
    requires NamedByText(current) && Get(row, "username").Text? && UserKey(row) in UserIds(current)
    ensures HasNamesake(current, UserIds(current)[UserKey(row)], row)
  {
    var n := |current| - 1;
    if UserKey(current[n]) == UserKey(row) {
      assert IsNamesake(current[n], UserIds(current)[UserKey(row)], row);
    } else {
      UserIdsAreNamesakes(current[..n], row);
      var i :| 0 <= i < n && IsNamesake(current[..n][i], UserIds(current)[UserKey(row)], row);
      assert IsNamesake(current[i], UserIds(current)[UserKey(row)], row);
    }
  }

  lemma {:induction false} InsertedNamesake(rows: seq<Row>, row: Row, columns: set<string>, id: Value, other: Row)
    requires "id" in columns && "username" in columns && "id" in row && Get(row, "username").Text?
    ensures HasNamesake(Inserted(rows, row, columns), Get(row, "id"), row)
    ensures HasNamesake(rows, id, other) ==> HasNamesake(Inserted(rows, row, columns), id, other)
  {
    assert "id" in row.Keys * columns;
    var after := Inserted(rows, row, columns);
    assert IsNamesake(after[|rows|], Get(row, "id"), row);
    if i :| 0 <= i < |rows| && IsNamesake(rows[i], id, other) { assert after[i] == rows[i]; }
  }
}
