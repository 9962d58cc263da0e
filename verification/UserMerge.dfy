/** Merging exported users, roles and assignments into an installation that has
    some already: backend/app/core/config_transfer.py:396-451. */
module UserMerge {
  import opened Wrappers
  import opened Texts
  import opened ConfigTransfer

  // ---------- Roles ----------

  /** Identifiers by role name; of two equal names the later row counts. */
  function RoleIds(rows: seq<Row>): map<Value, Value> {
    if rows == [] then map[]
    else
      var row := rows[|rows| - 1];
      RoleIds(rows[..|rows| - 1])[Get(row, "name") := Get(row, "id")]
  }

  /** The row with identifier `id` takes over description and permissions. */
  function Rewritten(row: Row, id: Value, from: Row): Row {
    if Get(row, "id") != id then row
    else
      row["description" := if Falsy(Get(from, "description")) then Text("") else Get(from, "description")]
         ["permissions" := if Get(from, "permissions").Text? then Get(from, "permissions") else Text("[]")]
  }

  function RewrittenAll(rows: seq<Row>, id: Value, from: Row): (r: seq<Row>)
    ensures |r| == |rows| && forall i :: 0 <= i < |r| ==> r[i] == Rewritten(rows[i], id, from)
  {
    seq(|rows|, i requires 0 <= i < |rows| => Rewritten(rows[i], id, from))
  }

  datatype Merge = Merge(rows: seq<Row>, ids: map<Value, Value>)

  /** One more exported role. */
  function WithRole(before: Merge, row: Row, existing: map<Value, Value>, columns: set<string>): Merge {
    var id, name := Get(row, "id"), Get(row, "name");
    if name in existing then
      Merge(if Falsy(Get(row, "is_system_role")) then RewrittenAll(before.rows, existing[name], row) else before.rows,
            before.ids[id := existing[name]])
    else Merge(Inserted(before.rows, row, columns), before.ids[id := id])
  }

  function MergedRoles(exported: seq<Row>, existing: map<Value, Value>, rows: seq<Row>, columns: set<string>): Merge {
    if exported == [] then Merge(rows, map[])
    else
      WithRole(MergedRoles(exported[..|exported| - 1], existing, rows, columns), exported[|exported| - 1], existing,
               columns)
  }

  /** Permissions are stored as text; a missing value stands for none. */
  predicate PermissionsAreText(exported: seq<Row>) {
    forall i :: 0 <= i < |exported| ==> Get(exported[i], "permissions").Text? || Get(exported[i], "permissions") == Null
  }

  predicate HaveIds(rows: seq<Row>) { forall i :: 0 <= i < |rows| ==> "id" in rows[i] }

  method ImportRoles(exported: seq<Row>, current: seq<Row>, columns: set<string>)
    returns (rows: seq<Row>, ids: map<Value, Value>)
    requires HaveIds(exported) && PermissionsAreText(exported)
    ensures Merge(rows, ids) == MergedRoles(exported, RoleIds(current), current, columns)
  {
    var existing := RoleIds(current);
    rows, ids := current, map[];
    var i := 0;
    while i < |exported|
      invariant 0 <= i <= |exported|
      invariant Merge(rows, ids) == MergedRoles(exported[..i], existing, current, columns)
    {
      var row := exported[i];
      assert exported[..i + 1][..i] == exported[..i];
      var name := Get(row, "name");
      if name in existing {
        ids := ids[row["id"] := existing[name]];
        if Falsy(Get(row, "is_system_role")) { rows := RewrittenAll(rows, existing[name], row); }
      } else {
        rows := Inserted(rows, row, columns);
        ids := ids[row["id"] := row["id"]];
      }
      i := i + 1;
    }
    assert exported[..i] == exported;
  }

  // ---------- Users ----------

  predicate NamedByText(rows: seq<Row>) { forall i :: 0 <= i < |rows| ==> Get(rows[i], "username").Text? }

  function UserKey(row: Row): string { if Get(row, "username").Text? then Lower(Get(row, "username").s) else "" }

  function UserIds(rows: seq<Row>): map<string, Value> {
    if rows == [] then map[]
    else UserIds(rows[..|rows| - 1])[UserKey(rows[|rows| - 1]) := Get(rows[|rows| - 1], "id")]
  }

  datatype UserImport = UserImport(rows: seq<Row>, ids: map<Value, Value>, skipped: seq<Value>)

  function MergedUsers(exported: seq<Row>, existing: map<string, Value>, rows: seq<Row>,
                       columns: set<string>): UserImport
  {
    if exported == [] then UserImport(rows, map[], [])
    else
      WithUser(MergedUsers(exported[..|exported| - 1], existing, rows, columns),
               Cleaned(Users, exported[|exported| - 1]), existing, columns)
  }

  /** One more exported user, cleaned. */
  function WithUser(before: UserImport, row: Row, existing: map<string, Value>, columns: set<string>): UserImport {
    var id, key := Get(row, "id"), UserKey(row);
    if key in existing then
      UserImport(before.rows, before.ids[id := existing[key]], before.skipped + [Get(row, "username")])
    else UserImport(Inserted(before.rows, row, columns), before.ids[id := id], before.skipped)
  }

  method ImportUsers(exported: seq<Row>, current: seq<Row>, columns: set<string>)
    returns (rows: seq<Row>, ids: map<Value, Value>, skipped: seq<Value>)
    requires HaveIds(exported) && NamedByText(exported) && NamedByText(current)
    ensures UserImport(rows, ids, skipped) == MergedUsers(exported, UserIds(current), current, columns)
  {
    var existing := UserIds(current);
    var cleaned := Clean(Users, exported);
    rows, ids, skipped := current, map[], [];
    var i := 0;
    while i < |cleaned|
      invariant 0 <= i <= |cleaned|
      invariant UserImport(rows, ids, skipped) == MergedUsers(exported[..i], existing, current, columns)
    {
      var row := cleaned[i];
      assert exported[..i + 1][..i] == exported[..i];
      CleaningKeeps(exported[i]);
      var key := UserKey(row);
      if key in existing {
        ids := ids[row["id"] := existing[key]];
        skipped := skipped + [row["username"]];
      } else {
        rows := Inserted(rows, row, columns);
        ids := ids[row["id"] := row["id"]];
      }
      i := i + 1;
    }
    assert exported[..i] == exported;
  }

  lemma {:induction false} CleaningKeeps(row: Row)
    ensures Get(Cleaned(Users, row), "id") == Get(row, "id") && ("id" in Cleaned(Users, row) <==> "id" in row)
    ensures Get(Cleaned(Users, row), "username") == Get(row, "username")
    ensures "username" in Cleaned(Users, row) <==> "username" in row
  {
    assert ResetTo(Reset(Users)[..0], "id") == None && ResetTo(Reset(Users)[..0], "username") == None;
  }

  // ---------- Assignments ----------

  datatype Grant = Grant(user: Value, role: Value, scope: Value)

  function GrantOf(row: Row): Grant { Grant(Get(row, "user_id"), Get(row, "role_id"), Get(row, "scope_type")) }

  function Grants(rows: seq<Row>): set<Grant> { set i | 0 <= i < |rows| :: GrantOf(rows[i]) }

  function Lookup(ids: map<Value, Value>, id: Value): Value { if id in ids then ids[id] else Null }

  /** An exported assignment, pointed at the users and roles of this installation. */
  function Remapped(row: Row, users: map<Value, Value>, roles: map<Value, Value>): Row {
    row["user_id" := Lookup(users, Get(row, "user_id"))]["role_id" := Lookup(roles, Get(row, "role_id"))]
  }

  /** Whether both sides are known here. */
  predicate Resolved(row: Row, users: map<Value, Value>, roles: map<Value, Value>) {
    !Falsy(Lookup(users, Get(row, "user_id"))) && !Falsy(Lookup(roles, Get(row, "role_id")))
  }

  datatype AssignmentImport = AssignmentImport(rows: seq<Row>, grants: set<Grant>, imported: nat)

  function MergedAssignments(exported: seq<Row>, users: map<Value, Value>, roles: map<Value, Value>, rows: seq<Row>,
                             columns: set<string>): AssignmentImport
  {
    if exported == [] then AssignmentImport(rows, Grants(rows), 0)
    else
      var row := exported[|exported| - 1];
      var before := MergedAssignments(exported[..|exported| - 1], users, roles, rows, columns);
      var target := Remapped(row, users, roles);
      if !Resolved(row, users, roles) || GrantOf(target) in before.grants then before
      else
        AssignmentImport(Inserted(before.rows, target, columns), before.grants + {GrantOf(target)}, before.imported + 1)
  }

  method ImportAssignments(exported: seq<Row>, users: map<Value, Value>, roles: map<Value, Value>, current: seq<Row>,
                           columns: set<string>)
    returns (rows: seq<Row>, imported: nat)
    ensures rows == MergedAssignments(exported, users, roles, current, columns).rows
    ensures imported == MergedAssignments(exported, users, roles, current, columns).imported
  {
    rows, imported := current, 0;
    var grants := Grants(current);
    var i := 0;
    while i < |exported|
      invariant 0 <= i <= |exported|
      invariant AssignmentImport(rows, grants, imported)
              == MergedAssignments(exported[..i], users, roles, current, columns)
    {
      var row := exported[i];
      assert exported[..i + 1][..i] == exported[..i];
      i := i + 1;
      var userId, roleId := Lookup(users, Get(row, "user_id")), Lookup(roles, Get(row, "role_id"));
      if Falsy(userId) || Falsy(roleId) { continue; }
      var grant := Grant(userId, roleId, Get(row, "scope_type"));
      if grant in grants { continue; }
      grants := grants + {grant};
      rows := Inserted(rows, row["user_id" := userId]["role_id" := roleId], columns);
      imported := imported + 1;
    }
    assert exported[..i] == exported;
  }
}
