/** The import as a whole: backend/app/core/config_transfer.py:172-181 and 317-393. */
module ConfigImport {
  import opened ConfigTransfer
  import opened UserMerge

  datatype Plan = Plan(file: Tables, blockers: seq<(Table, nat)>)

  datatype Outcome =
    | Refused(blockers: seq<(Table, nat)>)
    | Done(pausedGroups: seq<Value>, skippedUsers: seq<Value>, importedUsers: int, importedAssignments: nat)

  function ConfigOrder(): seq<Table> { ConfigTables() + CatalogTables() }

  function RolesMerged(file: Tables, tables: Tables, schema: Schema): Merge {
    MergedRoles(RowsOf(file, Roles), RoleIds(RowsOf(tables, Roles)), RowsOf(tables, Roles), ColumnsOf(schema, Roles))
  }

  function UsersMerged(file: Tables, tables: Tables, schema: Schema): UserImport {
    MergedUsers(RowsOf(file, Users), UserIds(RowsOf(tables, Users)), RowsOf(tables, Users), ColumnsOf(schema, Users))
  }

  function AssignmentsMerged(file: Tables, tables: Tables, schema: Schema): AssignmentImport {
    MergedAssignments(RowsOf(file, RoleAssignments), UsersMerged(file, tables, schema).ids,
                      RolesMerged(file, tables, schema).ids,
                      RowsOf(tables, RoleAssignments), ColumnsOf(schema, RoleAssignments))
  }

  /** The three tables merged, all others as they are. */
  function AfterMerge(file: Tables, tables: Tables, schema: Schema): Tables {
    tables[Roles := RolesMerged(file, tables, schema).rows]
          [Users := UsersMerged(file, tables, schema).rows]
          [RoleAssignments := AssignmentsMerged(file, tables, schema).rows]
  }

  function AfterImport(file: Tables, tables: Tables, schema: Schema, now: string): Tables {
    AfterMerge(file, AfterTables(ConfigOrder(), tables, schema, file, now), schema)
  }

  /** What the merge needs of exported and present rows: the columns it reads are
      there and hold text where it treats them as text. */
  predicate Mergeable(file: Tables, tables: Tables) {
    && HaveIds(RowsOf(file, Roles)) && PermissionsAreText(RowsOf(file, Roles))
    && HaveIds(RowsOf(file, Users)) && NamedByText(RowsOf(file, Users)) && NamedByText(RowsOf(tables, Users))
  }

  lemma {:induction false} OtherTablesStay(list: seq<Table>, tables: Tables, schema: Schema, file: Tables, now: string,
                                           t: Table)
    requires t !in list
    ensures RowsOf(AfterTables(list, tables, schema, file, now), t) == RowsOf(tables, t)
  {
    if list != [] {
      assert list[|list| - 1] in list;
      OtherTablesStay(list[..|list| - 1], tables, schema, file, now, t);
    }
  }

  lemma {:induction false} UserTablesApart(t: Table)
    requires t in {Roles, Users, RoleAssignments}
    ensures t !in ConfigOrder()
  {}

  /** Groups are paused and noted, report schedules start anew. */
  method StampRow(t: Table, cleaned: Row, now: string) returns (row: Row, paused: seq<Value>)
    ensures row == Stamped(t, cleaned, now)
    ensures paused == PausedName(t, cleaned)
  {
    row, paused := cleaned, [];
    if t == ResourceGroups && Falsy(Get(row, "paused")) {
      paused := [Get(row, "name")];
      row := row["paused" := Integer(1)]["paused_since" := Text(now)];
    }
    if t == ReportDefinitions { row := row["last_scheduled_for" := Text(now)]; }
  }

  lemma {:induction false} OneMoreRow(t: Table, rows: seq<Row>, prepared: seq<Row>, columns: set<string>, i: nat)
    requires i < |rows| == |prepared|
    ensures InsertedAll(prepared[..i + 1], columns)
          == Inserted(InsertedAll(prepared[..i], columns), prepared[i], columns)
    ensures PausedNames(t, rows[..i + 1]) == PausedNames(t, rows[..i]) + PausedName(t, Cleaned(t, rows[i]))
  {
    assert rows[..i + 1][..i] == rows[..i] && prepared[..i + 1][..i] == prepared[..i];
  }

  method InsertRows(t: Table, rows: seq<Row>, cleaned: seq<Row>, columns: set<string>, now: string)
    returns (stored: seq<Row>, paused: seq<Value>)
    requires cleaned == CleanedRows(t, rows)
    ensures stored == Imported(t, rows, columns, now)
    ensures paused == PausedNames(t, rows)
  {
    ghost var prepared := Prepared(t, rows, now);
    stored, paused := [], [];
    var i := 0;
    while i < |cleaned|
      invariant 0 <= i <= |cleaned|
      invariant stored == InsertedAll(prepared[..i], columns)
      invariant paused == PausedNames(t, rows[..i])
    {
      OneMoreRow(t, rows, prepared, columns, i);
      var row, name := StampRow(t, cleaned[i], now);
      paused := paused + name;
      stored := Inserted(stored, row, columns);
      i := i + 1;
    }
    assert rows[..i] == rows && prepared[..i] == prepared;
    assert stored == InsertedAll(prepared, columns);
  }

  class Installation {
    const schema: Schema
    var tables: Tables

    constructor (schema: Schema, tables: Tables)
      ensures this.schema == schema && this.tables == tables
    {
      this.schema, this.tables := schema, tables;
    }

    method PlanImport(file: Tables) returns (plan: Plan)
      ensures plan == Plan(file, Blockers(EmptinessTables(), tables, schema))
    {
      var list, blockers := EmptinessTables(), [];
      var i := 0;
      while i < |list|
        invariant 0 <= i <= |list|
        invariant blockers == Blockers(list[..i], tables, schema)
      {
        assert list[..i + 1][..i] == list[..i];
        var count := |RowsOf(tables, list[i])|;
        if ColumnsOf(schema, list[i]) != {} && count > 0 { blockers := blockers + [(list[i], count)]; }
        i := i + 1;
      }
      assert list[..i] == list;
      plan := Plan(file, blockers);
    }

    /** Replaces one table by the exported rows. */
    method ReplaceTable(t: Table, rows: seq<Row>, now: string) returns (paused: seq<Value>)
      modifies this`tables
      ensures tables == old(tables)[t := Imported(t, rows, ColumnsOf(schema, t), now)]
      ensures paused == PausedNames(t, rows)
    {
      var cleaned := Clean(t, rows);
      var stored, names := InsertRows(t, rows, cleaned, ColumnsOf(schema, t), now);
      paused := names;
      tables := tables[t := stored];
    }

    method ImportTables(file: Tables, now: string) returns (paused: seq<Value>)
      modifies this`tables
      ensures tables == AfterTables(ConfigOrder(), old(tables), schema, file, now)
      ensures paused == PausedBy(ConfigOrder(), schema, file)
    {
      var list := ConfigOrder();
      paused := [];
      var i := 0;
      while i < |list|
        invariant 0 <= i <= |list|
        invariant tables == AfterTables(list[..i], old(tables), schema, file, now)
        invariant paused == PausedBy(list[..i], schema, file)
      {
        var t := list[i];
        assert list[..i + 1][..i] == list[..i];
        if t in file && ColumnsOf(schema, t) != {} {
          var names := ReplaceTable(t, file[t], now);
          paused := paused + names;
        }
        i := i + 1;
      }
      assert list[..i] == list;
    }

    method ImportUsersAndRoles(file: Tables) returns (skipped: seq<Value>, granted: nat)
      requires Mergeable(file, tables)
      modifies this`tables
      ensures tables == AfterMerge(file, old(tables), schema)
      ensures skipped == UsersMerged(file, old(tables), schema).skipped
      ensures granted == AssignmentsMerged(file, old(tables), schema).imported
    {
      var roles, roleIds := ImportRoles(RowsOf(file, Roles), RowsOf(tables, Roles), ColumnsOf(schema, Roles));
      var users, userIds, names := ImportUsers(RowsOf(file, Users), RowsOf(tables, Users), ColumnsOf(schema, Users));
      var rows, imported := ImportAssignments(RowsOf(file, RoleAssignments), userIds, roleIds,
                                              RowsOf(tables, RoleAssignments), ColumnsOf(schema, RoleAssignments));
      tables := tables[Roles := roles][Users := users][RoleAssignments := rows];
      skipped, granted := names, imported;
    }

    /** Nothing happens unless the plan has no blockers. */
    method ApplyImport(plan: Plan, now: string) returns (result: Outcome)
      requires Mergeable(plan.file, tables)
      modifies this`tables
      ensures plan.blockers != [] ==> result == Refused(plan.blockers) && tables == old(tables)
      ensures plan.blockers == [] ==> result.Done? && tables == AfterImport(plan.file, old(tables), schema, now)
      ensures result.Done? ==> result.pausedGroups == PausedBy(ConfigOrder(), schema, plan.file)
      ensures result.Done? ==> result.skippedUsers == UsersMerged(plan.file, old(tables), schema).skipped
      ensures result.Done? ==> result.importedUsers == |RowsOf(plan.file, Users)| - |result.skippedUsers|
      ensures result.Done? ==> result.importedAssignments == AssignmentsMerged(plan.file, old(tables), schema).imported
    {
      if plan.blockers != [] { return Refused(plan.blockers); }
      ghost var before := tables;
      var paused := ImportTables(plan.file, now);
      forall t | t in {Roles, Users, RoleAssignments} ensures RowsOf(tables, t) == RowsOf(before, t) {
        UserTablesApart(t);
        OtherTablesStay(ConfigOrder(), before, schema, plan.file, now, t);
      }
      var skipped, granted := ImportUsersAndRoles(plan.file);
      result := Done(paused, skipped, |RowsOf(plan.file, Users)| - |skipped|, granted);
    }
  }
}
