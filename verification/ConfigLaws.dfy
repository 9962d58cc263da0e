/** What an export and an import preserve, and what they promise to change. */
module ConfigLaws {
  import opened Wrappers
  import opened ConfigTransfer
  import opened ConfigImport

  /** Every row of the table has its columns, and not secrets alone. */
  ghost predicate Shaped(rows: seq<Row>, columns: set<string>, t: Table) {
    columns - Scrub(t) != {} && forall i :: 0 <= i < |rows| ==> rows[i].Keys == columns
  }

  // ---------- Tables and columns, one by one ----------

  /** Passwords, and the paths of certificates. */
  ghost predicate IsSecret(t: Table, k: string) {
    || (k == "encrypted_password"
        && t in {HypervClusters, NetappClusters, RestoreProxyHost, EmailConfig, DbBackupConfig})
    || (k in {"client_cert_path", "client_key_path"} && t == NetappClusters)
    || (k == "encrypted_bind_password" && t == AdConfig)
    || (k == "hashed_password" && t == Users)
  }

  lemma {:induction false} SecretsAre(t: Table, k: string)
    ensures k in Scrub(t) <==> IsSecret(t, k)
  {
  }

  /** Columns that start anew with no value. */
  ghost predicate StartsEmpty(t: Table, k: string) {
    || (k in {"last_checked_at", "last_check_error"} && t in {HypervClusters, NetappClusters})
    || (k == "unreachable_nodes_json" && t == HypervClusters) || (k == "metrocluster_mode" && t == NetappClusters)
    || (k in {"last_attempt_at", "last_success_at", "last_file_name", "last_size_bytes", "last_error", "enabled_since"}
        && t == DbBackupConfig)
    || (k in {"bundle_path", "last_bundle_built_at"} && t == WinrmTrustState)
    || (k == "last_login_at" && t == Users)
  }

  /** What a column that tells of the old server starts with. */
  ghost function NeutralValue(t: Table, k: string): Option<Value> {
    if k == "health" && t in {HypervClusters, NetappClusters} then Some(Text("UNKNOWN"))
    else if k == "last_upload_failed" && t == DbBackupConfig then Some(Integer(0))
    else if k == "bundle_cert_count" && t == WinrmTrustState then Some(Integer(0))
    else if StartsEmpty(t, k) then Some(Null)
    else None
  }

  /** The value a list of resets without repetitions gives a column. */
  lemma {:induction false} ResetByMembership(entries: seq<(string, Value)>, k: string)
    requires forall i, j :: 0 <= i < j < |entries| ==> entries[i].0 != entries[j].0
    ensures forall i :: 0 <= i < |entries| && entries[i].0 == k ==> ResetTo(entries, k) == Some(entries[i].1)
    ensures (forall i :: 0 <= i < |entries| ==> entries[i].0 != k) ==> ResetTo(entries, k) == None
  {
    if entries != [] { ResetByMembership(entries[..|entries| - 1], k); }
  }

  lemma {:induction false} ClusterNeutralsAre(t: Table, k: string)
    requires t in {HypervClusters, NetappClusters}
    ensures ResetTo(Reset(t), k) == NeutralValue(t, k)
  {
    var e := Reset(t);
    ResetByMembership(e, k);
    assert e[0].0 == "health" && e[1].0 == "last_checked_at" && e[2].0 == "last_check_error" && |e| == 4;
    assert e[3].0 == if t == HypervClusters then "unreachable_nodes_json" else "metrocluster_mode";
  }

  lemma {:induction false} DbBackupNeutralsAre(k: string)
    ensures ResetTo(Reset(DbBackupConfig), k) == NeutralValue(DbBackupConfig, k)
  {
    var e := Reset(DbBackupConfig);
    ResetByMembership(e, k);
    assert e[0].0 == "last_attempt_at" && e[1].0 == "last_success_at" && e[2].0 == "last_file_name" && |e| == 7;
    assert e[3].0 == "last_size_bytes" && e[4].0 == "last_error" && e[5].0 == "last_upload_failed";
    assert e[6].0 == "enabled_since";
  }

  lemma {:induction false} TrustNeutralsAre(k: string)
    ensures ResetTo(Reset(WinrmTrustState), k) == NeutralValue(WinrmTrustState, k)
  {
    var e := Reset(WinrmTrustState);
    ResetByMembership(e, k);
    assert e[0].0 == "bundle_path" && e[1].0 == "last_bundle_built_at" && e[2].0 == "bundle_cert_count" && |e| == 3;
  }

  lemma {:induction false} UserNeutralsAre(k: string)
    ensures ResetTo(Reset(Users), k) == NeutralValue(Users, k)
  {
    ResetByMembership(Reset(Users), k);
  }

  lemma {:induction false} NeutralsAre(t: Table, k: string)
    ensures ResetTo(Reset(t), k) == NeutralValue(t, k)
  {
    match t {
      case HypervClusters | NetappClusters => ClusterNeutralsAre(t, k);
      case DbBackupConfig => DbBackupNeutralsAre(k);
      case WinrmTrustState => TrustNeutralsAre(k);
      case Users => UserNeutralsAre(k);
      case _ => assert Reset(t) == [];
    }
  }

  ghost predicate IsFalse(v: Value) { v in {Null, Integer(0), Number(0.0), Text("")} }

  lemma {:induction false} FalseIs(v: Value)
    ensures Falsy(v) <==> IsFalse(v)
  {
  }

  ghost predicate IsUserTable(t: Table) { t in {Roles, Users, RoleAssignments} }

  ghost predicate IsCatalogTable(t: Table) {
    t in {BackupRuns, BackupRunSnapshots, BackupRunSnapshotDestinations, BackupRunVmConfigs}
  }

  lemma {:induction false} OthersAreUserOrCatalog(t: Table)
    ensures t in UserTables() <==> IsUserTable(t)
    ensures t in CatalogTables() <==> IsCatalogTable(t)
  {
  }

  lemma {:induction false} ConfigIsApart(t: Table)
    requires t in ConfigTables()
    ensures !IsUserTable(t) && !IsCatalogTable(t)
  {
  }

  /** Where a table of the configuration stands in the list. */
  ghost function PlaceOf(t: Table): (i: nat)
  {
    match t
    case HypervClusters => 0 case NetappClusters => 1 case RestoreProxyHost => 2 case RestoreInfraConfigs => 3
    case SnapmirrorLabels => 4 case Schedules => 5 case BackupPolicies => 6 case ResourceGroups => 7
    case ResourceGroupPolicies => 8 case AllowedScheduleCollisions => 9 case ProtectionClasses => 10
    case ProtectionClassAssignments => 11 case ReportDefinitions => 12 case Sites => 13 case HypervNodeSites => 14
    case CsvSiteOverrides => 15 case AlertConfig => 16 case SchedulerConfig => 17 case StorageAccessConfig => 18
    case EmailConfig => 19 case KerberosConfig => 20 case AdConfig => 21 case WinrmHostCertificates => 22
    case DbBackupConfig => 23 case WinrmTrustState => 24
    case _ => 25
  }

  lemma {:induction false} PlacedInConfig(t: Table)
    requires !IsUserTable(t) && !IsCatalogTable(t)
    ensures PlaceOf(t) < 25 && |ConfigTables()| == 25 && ConfigTables()[PlaceOf(t)] == t
  {
  }

  /** Every table is of the configuration, of the users, or of the catalogue. */
  lemma {:induction false} TablesAre(t: Table)
    ensures t in UserTables() <==> IsUserTable(t)
    ensures t in CatalogTables() <==> IsCatalogTable(t)
    ensures t in ConfigTables() <==> !IsUserTable(t) && !IsCatalogTable(t)
  {
    OthersAreUserOrCatalog(t);
    if t in ConfigTables() { ConfigIsApart(t); }
    if !IsUserTable(t) && !IsCatalogTable(t) { PlacedInConfig(t); }
  }

  /** The file has every table, but the catalogue only on request. */
  lemma {:induction false} ExportedTablesAre(file: Tables, tables: Tables, includeCatalog: bool, t: Table)
    requires IsExport(file, tables, includeCatalog)
    ensures t in file <==> includeCatalog || !IsCatalogTable(t)
  {
    TablesAre(t);
    assert t in ExportedTables(includeCatalog)
      <==> t in ConfigTables() || t in UserTables() || (includeCatalog && t in CatalogTables());
  }

  // ---------- What arrives ----------

  /** What column `k` of a row becomes on its way through export and import. */
  ghost function Carried(t: Table, row: Row, k: string, now: string): Value
    requires k in row
  {
    if IsSecret(t, k) then Null
    else if NeutralValue(t, k).Some? then NeutralValue(t, k).value
    else if t == ResourceGroups && ("paused" in row ==> IsFalse(row["paused"])) && k == "paused" then Integer(1)
    else if t == ResourceGroups && ("paused" in row ==> IsFalse(row["paused"])) && k == "paused_since" then Text(now)
    else if t == ReportDefinitions && k == "last_scheduled_for" then Text(now)
    else row[k]
  }

  lemma {:induction false} CleanedColumn(t: Table, row: Row, k: string)
    ensures k in Cleaned(t, row) <==> k in row && k !in Scrub(t)
    ensures k in Cleaned(t, row) ==>
            Cleaned(t, row)[k] == if ResetTo(Reset(t), k).Some? then ResetTo(Reset(t), k).value else row[k]
  {}

  lemma {:induction false} GroupsAreNotReset(k: string)
    ensures k !in Scrub(ResourceGroups) && k !in Scrub(ReportDefinitions)
    ensures ResetTo(Reset(ResourceGroups), k) == None && ResetTo(Reset(ReportDefinitions), k) == None
  {}

  /** Cleaning what is clean changes nothing, so cleaning on export and again on
      import is cleaning once. */
  lemma {:induction false} CleanedTwice(t: Table, row: Row)
    ensures Cleaned(t, Cleaned(t, row)) == Cleaned(t, row)
  {
    var once, twice := Cleaned(t, row), Cleaned(t, Cleaned(t, row));
    forall k ensures k in once <==> k in twice { CleanedColumn(t, row, k); CleanedColumn(t, once, k); }
    forall k | k in once ensures once[k] == twice[k] { CleanedColumn(t, row, k); CleanedColumn(t, once, k); }
  }

  lemma {:induction false} CarriedColumn(t: Table, row: Row, columns: set<string>, k: string, now: string)
    requires row.Keys == columns && k in columns
    ensures Get(Stamped(t, Cleaned(t, row), now), k) == Carried(t, row, k, now)
  {
    CleanedColumn(t, row, k);
    CleanedColumn(t, row, "paused");
    SecretsAre(t, k);
    NeutralsAre(t, k);
    if t == ResourceGroups || t == ReportDefinitions {
      GroupsAreNotReset(k);
      GroupsAreNotReset("paused");
    }
  }

  lemma {:induction false} InsertedAt(rows: seq<Row>, columns: set<string>, i: nat)
    requires forall j :: 0 <= j < |rows| ==> rows[j].Keys * columns != {}
    requires i < |rows|
    ensures |InsertedAll(rows, columns)| == |rows| && InsertedAll(rows, columns)[i] == Stored(rows[i], columns)
  {
    var n := |rows| - 1;
    if i < n { InsertedAt(rows[..n], columns, i); } else if n > 0 { InsertedAt(rows[..n], columns, 0); }
  }

  lemma {:induction false} TableReplaced(list: seq<Table>, tables: Tables, schema: Schema, file: Tables, now: string,
                                         t: Table)
    requires t in list && t in file && ColumnsOf(schema, t) != {}
    ensures RowsOf(AfterTables(list, tables, schema, file, now), t) == Imported(t, file[t], ColumnsOf(schema, t), now)
  {
    var n := |list| - 1;
    if list[n] != t {
      assert list == list[..n] + [list[n]];
      TableReplaced(list[..n], tables, schema, file, now, t);
    }
  }

  lemma {:induction false} MergeLeaves(file: Tables, tables: Tables, schema: Schema, t: Table)
    requires t in ConfigOrder()
    ensures RowsOf(AfterMerge(file, tables, schema), t) == RowsOf(tables, t)
  {
    UserTablesApart(Roles);
    UserTablesApart(Users);
    UserTablesApart(RoleAssignments);
    MergeLeavesOthers(file, tables, schema, t);
  }

  lemma {:induction false} MergeLeavesOthers(file: Tables, tables: Tables, schema: Schema, t: Table)
    requires t != Roles && t != Users && t != RoleAssignments
    ensures RowsOf(AfterMerge(file, tables, schema), t) == RowsOf(tables, t)
  {
  }

  /** A table that is in the file holds the imported rows and nothing else. */
  lemma {:induction false} TableAfterImport(file: Tables, tables: Tables, schema: Schema, now: string, t: Table)
    requires t in ConfigOrder() && t in file && ColumnsOf(schema, t) != {}
    ensures RowsOf(AfterImport(file, tables, schema, now), t) == Imported(t, file[t], ColumnsOf(schema, t), now)
  {
    TableReplaced(ConfigOrder(), tables, schema, file, now, t);
    MergeLeaves(file, AfterTables(ConfigOrder(), tables, schema, file, now), schema, t);
  }

  lemma {:induction false} SomeColumnSurvives(t: Table, row: Row, columns: set<string>, now: string, k: string)
    requires row.Keys == columns && k in columns - Scrub(t)
    ensures k in Stamped(t, Cleaned(t, row), now).Keys * columns
  {
    CleanedColumn(t, row, k);
  }

  lemma {:induction false} AllRowsArrive(t: Table, before: seq<Row>, columns: set<string>, now: string, i: nat)
    requires Shaped(before, columns, t) && i < |before|
    ensures
      var after := Imported(t, CleanedRows(t, before), columns, now);
      |after| == |before| && after[i] == Stored(Stamped(t, Cleaned(t, before[i]), now), columns)
  {
    var c :| c in columns - Scrub(t);
    var cleaned := CleanedRows(t, before);
    var prepared := Prepared(t, cleaned, now);
    forall j | 0 <= j < |before| ensures prepared[j] == Stamped(t, Cleaned(t, before[j]), now) {
      CleanedTwice(t, before[j]);
    }
    forall j | 0 <= j < |before| ensures prepared[j].Keys * columns != {} {
      SomeColumnSurvives(t, before[j], columns, now, c);
    }
    InsertedAt(prepared, columns, i);
  }

  lemma {:induction false} ExportedAndReplaced(file: Tables, source: Tables, includeCatalog: bool, target: Tables,
                                               schema: Schema, now: string, t: Table)
    requires IsExport(file, source, includeCatalog) && t in ConfigTables() && ColumnsOf(schema, t) != {}
    ensures RowsOf(AfterImport(file, target, schema, now), t)
         == Imported(t, CleanedRows(t, RowsOf(source, t)), ColumnsOf(schema, t), now)
  {
    assert t in ConfigOrder() && t in ConfigTables() + UserTables();
    assert t in ExportedTables(includeCatalog);
    NotOfCatalog(source, t);
    TableAfterImport(file, target, schema, now, t);
  }

  lemma {:induction false} RowArrives(t: Table, before: seq<Row>, columns: set<string>, now: string, i: nat, k: string)
    requires Shaped(before, columns, t) && i < |before| && k in columns
    ensures
      var after := Imported(t, CleanedRows(t, before), columns, now);
      |after| == |before| && after[i].Keys == columns && after[i][k] == Carried(t, before[i], k, now)
  {
    AllRowsArrive(t, before, columns, now, i);
    CarriedColumn(t, before[i], columns, k, now);
  }

  /** Export and import into an installation with the same columns: every
      configuration row arrives, in its place, with every column as it was, except
      for secrets, the state of the old server, and the two deliberate stamps. */
  lemma {:induction false} ExportThenImport(file: Tables, source: Tables, includeCatalog: bool, target: Tables,
                                            schema: Schema, now: string, t: Table, i: nat, k: string)
    requires IsExport(file, source, includeCatalog) && t in ConfigTables()
    requires Shaped(RowsOf(source, t), ColumnsOf(schema, t), t)
    requires i < |RowsOf(source, t)| && k in ColumnsOf(schema, t)
    ensures
      var before, after := RowsOf(source, t), RowsOf(AfterImport(file, target, schema, now), t);
      && |after| == |before|
      && after[i].Keys == ColumnsOf(schema, t)
      && after[i][k] == Carried(t, before[i], k, now)
  {
    ExportedAndReplaced(file, source, includeCatalog, target, schema, now, t);
    RowArrives(t, RowsOf(source, t), ColumnsOf(schema, t), now, i, k);
  }

  lemma {:induction false} NoRowsAppear(file: Tables, source: Tables, includeCatalog: bool, target: Tables,
                                        schema: Schema, now: string, t: Table)
    requires IsExport(file, source, includeCatalog) && t in ConfigTables() && ColumnsOf(schema, t) != {}
    requires RowsOf(source, t) == []
    ensures RowsOf(AfterImport(file, target, schema, now), t) == []
  {
    ExportedAndReplaced(file, source, includeCatalog, target, schema, now, t);
  }

  // ---------- Secrets and pausing ----------

  /** No exported row has a secret column. */
  lemma {:induction false} SecretsStay(file: Tables, source: Tables, includeCatalog: bool, t: Table, i: nat, k: string)
    requires IsExport(file, source, includeCatalog) && t in ConfigTables() + UserTables()
    requires t in file && i < |file[t]| && IsSecret(t, k)
    ensures k !in file[t][i]
  {
    SecretsAre(t, k);
    NotOfCatalog(source, t);
    CleanedColumn(t, RowsOf(source, t)[i], k);
  }

  lemma {:induction false} EveryInserted(rows: seq<Row>, columns: set<string>, i: nat) returns (j: nat)
    requires i < |InsertedAll(rows, columns)|
    ensures j < |rows| && InsertedAll(rows, columns)[i] == Stored(rows[j], columns)
  {
    var n := |rows| - 1;
    if i < |InsertedAll(rows[..n], columns)| { j := EveryInserted(rows[..n], columns, i); } else { j := n; }
  }

  /** What a boolean column makes of a text: a number if the text reads as one. */
  type Affinity = string -> Value

  function Kept(affinity: Affinity, v: Value): Value {
    match v case Text(s) => affinity(s) case _ => v
  }

  /** Not empty, so the import takes it for true, but the column makes it false. */
  ghost predicate TextOfFalse(affinity: Affinity, v: Value) {
    v.Text? && v.s != "" && IsFalse(affinity(v.s))
  }

  lemma {:induction false} StoredIsSafe(t: Table, row: Row, columns: set<string>, now: string, k: string,
                                        affinity: Affinity)
    ensures IsSecret(t, k) ==> Get(Stored(Stamped(t, Cleaned(t, row), now), columns), k) == Null
    ensures t == ResourceGroups && "paused" in columns ==>
              (IsFalse(Kept(affinity, Get(Stored(Stamped(t, Cleaned(t, row), now), columns), "paused")))
               <==> TextOfFalse(affinity, Get(row, "paused")))
  {
    SecretsAre(t, k);
    CleanedColumn(t, row, k);
    CleanedColumn(t, row, "paused");
    if t == ResourceGroups || t == ReportDefinitions {
      GroupsAreNotReset(k);
      GroupsAreNotReset("paused");
    }
  }

  /** Whatever the file says, no secret is written, and every group is paused except
      where the file holds a text that the column reads as false. */
  lemma {:induction false} NothingStartsAfterImport(file: Tables, target: Tables, schema: Schema, now: string, t: Table,
                                                    i: nat, k: string, affinity: Affinity) returns (j: nat)
    requires t in ConfigOrder() && t in file && ColumnsOf(schema, t) != {}
    requires i < |RowsOf(AfterImport(file, target, schema, now), t)|
    ensures
      var row := RowsOf(AfterImport(file, target, schema, now), t)[i];
      && j < |file[t]| && row == Stored(Stamped(t, Cleaned(t, file[t][j]), now), ColumnsOf(schema, t))
      && (IsSecret(t, k) && k in row ==> row[k] == Null)
      && (t == ResourceGroups && "paused" in ColumnsOf(schema, t) ==>
            && "paused" in row
            && (IsFalse(Kept(affinity, row["paused"]))
                <==> "paused" in file[t][j] && TextOfFalse(affinity, file[t][j]["paused"])))
  {
    TableAfterImport(file, target, schema, now, t);
    var prepared := Prepared(t, file[t], now);
    j := EveryInserted(prepared, ColumnsOf(schema, t), i);
    StoredIsSafe(t, file[t][j], ColumnsOf(schema, t), now, k, affinity);
  }

  // ---------- The groups that were paused ----------

  lemma {:induction false} PausedNamesAre(rows: seq<Row>, v: Value)
    ensures v in PausedNames(ResourceGroups, rows)
       <==> exists i :: 0 <= i < |rows| && IsFalse(Get(rows[i], "paused")) && v == Get(rows[i], "name")
  {
    if rows != [] {
      var n := |rows| - 1;
      PausedNamesAre(rows[..n], v);
      GroupIsNotCleaned(rows[n]);
      assert rows == rows[..n] + [rows[n]];
    }
  }

  lemma {:induction false} GroupIsNotCleaned(row: Row)
    ensures Cleaned(ResourceGroups, row) == row
  {
    var r := Cleaned(ResourceGroups, row);
    forall k ensures k in r <==> k in row { CleanedColumn(ResourceGroups, row, k); GroupsAreNotReset(k); }
    forall k | k in row ensures r[k] == row[k] { CleanedColumn(ResourceGroups, row, k); GroupsAreNotReset(k); }
  }

  lemma {:induction false} OthersPauseNothing(t: Table, rows: seq<Row>)
    requires t != ResourceGroups
    ensures PausedNames(t, rows) == []
  {
    if rows != [] { OthersPauseNothing(t, rows[..|rows| - 1]); }
  }

  lemma {:induction false} PausedByGroups(list: seq<Table>, schema: Schema, file: Tables, v: Value)
    ensures v in PausedBy(list, schema, file)
       <==> && ResourceGroups in list && ResourceGroups in file && ColumnsOf(schema, ResourceGroups) != {}
            && v in PausedNames(ResourceGroups, file[ResourceGroups])
  {
    if list != [] {
      var n := |list| - 1;
      PausedByGroups(list[..n], schema, file, v);
      assert list == list[..n] + [list[n]];
      if list[n] != ResourceGroups && list[n] in file { OthersPauseNothing(list[n], file[list[n]]); }
    }
  }

  /** The import names as paused exactly the groups of the file that were not. */
  lemma {:induction false} PausedAreTheUnpaused(schema: Schema, file: Tables, v: Value)
    ensures v in PausedBy(ConfigOrder(), schema, file)
       <==> && ResourceGroups in file && ColumnsOf(schema, ResourceGroups) != {}
            && exists i :: && 0 <= i < |file[ResourceGroups]| && IsFalse(Get(file[ResourceGroups][i], "paused"))
                           && v == Get(file[ResourceGroups][i], "name")
  {
    TablesAre(ResourceGroups);
    assert ResourceGroups in ConfigOrder();
    PausedByGroups(ConfigOrder(), schema, file, v);
    if ResourceGroups in file { PausedNamesAre(file[ResourceGroups], v); }
  }

  // ---------- Only into an empty installation ----------

  /** There is a blocker exactly when one of the tables has a row. */
  lemma {:induction false} BlockedIffNotEmpty(list: seq<Table>, tables: Tables, schema: Schema)
    ensures Blockers(list, tables, schema) == []
      <==> forall i :: 0 <= i < |list| ==> ColumnsOf(schema, list[i]) == {} || RowsOf(tables, list[i]) == []
  {
    if list != [] { BlockedIffNotEmpty(list[..|list| - 1], tables, schema); }
  }

  /** The tables that make an installation count as set up. */
  ghost predicate IsCounted(t: Table) {
    t in {HypervClusters, NetappClusters, BackupPolicies, ResourceGroups, Schedules, BackupRuns}
  }

  lemma {:induction false} CountedTablesAre(t: Table)
    ensures t in EmptinessTables() <==> IsCounted(t)
  {
  }

  lemma {:induction false} BlockersAre(list: seq<Table>, tables: Tables, schema: Schema, t: Table, count: nat)
    ensures (t, count) in Blockers(list, tables, schema)
       <==> t in list && ColumnsOf(schema, t) != {} && count == |RowsOf(tables, t)| && count > 0
  {
    if list != [] {
      BlockersAre(list[..|list| - 1], tables, schema, t, count);
      assert list == list[..|list| - 1] + [list[|list| - 1]];
    }
  }

  /** The plan names exactly the counted tables that exist and have rows, each with
      their number. */
  lemma {:induction false} BlockersAreTheFilled(tables: Tables, schema: Schema, t: Table, count: nat)
    ensures (t, count) in Blockers(EmptinessTables(), tables, schema)
       <==> && IsCounted(t) && t in schema && schema[t] != {}
            && t in tables && count == |tables[t]| && count > 0
  {
    CountedTablesAre(t);
    BlockersAre(EmptinessTables(), tables, schema, t, count);
  }

  /** An import that is not blocked deletes no cluster, system, policy, group,
      schedule or backup run, because there is none. */
  lemma {:induction false} NothingIsOverwritten(tables: Tables, schema: Schema, t: Table)
    requires Blockers(EmptinessTables(), tables, schema) == []
    requires IsCounted(t) && ColumnsOf(schema, t) != {}
    ensures RowsOf(tables, t) == []
  {
    CountedTablesAre(t);
    BlockedIffNotEmpty(EmptinessTables(), tables, schema);
    var i :| 0 <= i < |EmptinessTables()| && EmptinessTables()[i] == t;
  }

  /** Having imported a configuration, the installation refuses another one. */
  lemma {:induction false} SecondImportIsRefused(file: Tables, source: Tables, includeCatalog: bool, target: Tables,
                                                 schema: Schema, now: string, t: Table)
    requires IsExport(file, source, includeCatalog) && t in ConfigTables() && IsCounted(t)
    requires Shaped(RowsOf(source, t), ColumnsOf(schema, t), t) && RowsOf(source, t) != []
    ensures Blockers(EmptinessTables(), AfterImport(file, target, schema, now), schema) != []
  {
    var after := AfterImport(file, target, schema, now);
    CountedTablesAre(t);
    ExportedAndReplaced(file, source, includeCatalog, target, schema, now, t);
    AllRowsArrive(t, RowsOf(source, t), ColumnsOf(schema, t), now, 0);
    RowMeansBlocker(EmptinessTables(), after, schema, t);
  }

  lemma {:induction false} RowMeansBlocker(list: seq<Table>, tables: Tables, schema: Schema, t: Table)
    requires t in list && ColumnsOf(schema, t) != {} && RowsOf(tables, t) != []
    ensures Blockers(list, tables, schema) != []
  {
    BlockedIffNotEmpty(list, tables, schema);
    var i :| 0 <= i < |list| && list[i] == t;
  }

  // ---------- The catalogue ----------

  /** The run has a status that is none of an unfinished one. */
  ghost predicate IsOver(run: Row) {
    "status" in run && run["status"] !in {Null, Text("PENDING"), Text("RUNNING"), Text("CLEANING_UP")}
  }

  lemma {:induction false} FinishedIsOver(run: Row)
    ensures Finished(run) <==> IsOver(run)
  {
  }

  lemma {:induction false} FinishedMembers(runs: seq<Row>, run: Row)
    ensures run in FinishedRuns(runs) <==> run in runs && IsOver(run)
  {
    if runs != [] {
      FinishedMembers(runs[..|runs| - 1], run);
      FinishedIsOver(runs[|runs| - 1]);
      assert runs == runs[..|runs| - 1] + [runs[|runs| - 1]];
    }
  }

  lemma {:induction false} ReferringMembers(rows: seq<Row>, column: string, ids: set<Value>, row: Row)
    ensures row in Referring(rows, column, ids) <==> row in rows && Get(row, column) in ids
  {
    if rows != [] {
      ReferringMembers(rows[..|rows| - 1], column, ids, row);
      assert rows == rows[..|rows| - 1] + [rows[|rows| - 1]];
    }
  }

  lemma {:induction false} RunsAreNotReset(row: Row)
    ensures Cleaned(BackupRuns, row) == row
  {
    var r := Cleaned(BackupRuns, row);
    forall k ensures k in r <==> k in row { CleanedColumn(BackupRuns, row, k); }
    forall k | k in row ensures r[k] == row[k] { CleanedColumn(BackupRuns, row, k); }
  }

  /** The exported runs are the finished ones, unchanged. */
  lemma {:induction false} ExportedRunsAreFinished(tables: Tables)
    ensures ExportedRuns(tables) == FinishedRuns(RowsOf(tables, BackupRuns))
  {
    var runs := FinishedRuns(RowsOf(tables, BackupRuns));
    forall i | 0 <= i < |runs| ensures ExportedRuns(tables)[i] == runs[i] { RunsAreNotReset(runs[i]); }
  }

  /** Whether the run a row belongs to is over. */
  ghost predicate OfFinishedRun(tables: Tables, row: Row) {
    exists run :: run in RowsOf(tables, BackupRuns) && IsOver(run) && Get(run, "id") == Get(row, "run_id")
  }

  ghost predicate OfFinishedSnapshot(tables: Tables, row: Row) {
    exists s :: s in RowsOf(tables, BackupRunSnapshots) && OfFinishedRun(tables, s) &&
                Get(s, "id") == Get(row, "backup_run_snapshot_id")
  }

  lemma {:induction false} RunIds(tables: Tables, row: Row)
    ensures Get(row, "run_id") in Ids(ExportedRuns(tables)) <==> OfFinishedRun(tables, row)
  {
    ExportedRunsAreFinished(tables);
    var runs := ExportedRuns(tables);
    if Get(row, "run_id") in Ids(runs) {
      var i :| 0 <= i < |runs| && Get(runs[i], "id") == Get(row, "run_id");
      var run := runs[i];
      FinishedMembers(RowsOf(tables, BackupRuns), run);
    }
    if OfFinishedRun(tables, row) {
      var run :| run in RowsOf(tables, BackupRuns) && IsOver(run) && Get(run, "id") == Get(row, "run_id");
      FinishedMembers(RowsOf(tables, BackupRuns), run);
      var i :| 0 <= i < |runs| && runs[i] == run;
    }
  }

  lemma {:induction false} SnapshotIds(tables: Tables, row: Row)
    ensures Get(row, "backup_run_snapshot_id") in Ids(ExportedSnapshots(tables)) <==> OfFinishedSnapshot(tables, row)
  {
    var snapshots, all, ids := ExportedSnapshots(tables), RowsOf(tables, BackupRunSnapshots), Ids(ExportedRuns(tables));
    if Get(row, "backup_run_snapshot_id") in Ids(snapshots) {
      var i :| 0 <= i < |snapshots| && Get(snapshots[i], "id") == Get(row, "backup_run_snapshot_id");
      var s := snapshots[i];
      ReferringMembers(all, "run_id", ids, s);
      RunIds(tables, s);
    }
    if OfFinishedSnapshot(tables, row) {
      var s :| s in all && OfFinishedRun(tables, s) && Get(s, "id") == Get(row, "backup_run_snapshot_id");
      ReferringMembers(all, "run_id", ids, s);
      RunIds(tables, s);
      var i :| 0 <= i < |snapshots| && snapshots[i] == s;
    }
  }

  lemma {:induction false} SnapshotsAreClosed(tables: Tables, row: Row)
    ensures row in ExportedRows(tables, BackupRunSnapshots)
      <==> row in RowsOf(tables, BackupRunSnapshots) && OfFinishedRun(tables, row)
  {
    RunIds(tables, row);
    ReferringMembers(RowsOf(tables, BackupRunSnapshots), "run_id", Ids(ExportedRuns(tables)), row);
  }

  lemma {:induction false} VmConfigsAreClosed(tables: Tables, row: Row)
    ensures row in ExportedRows(tables, BackupRunVmConfigs)
      <==> row in RowsOf(tables, BackupRunVmConfigs) && OfFinishedRun(tables, row)
  {
    RunIds(tables, row);
    ReferringMembers(RowsOf(tables, BackupRunVmConfigs), "run_id", Ids(ExportedRuns(tables)), row);
  }

  lemma {:induction false} DestinationsAreClosed(tables: Tables, row: Row)
    ensures row in ExportedRows(tables, BackupRunSnapshotDestinations)
      <==> row in RowsOf(tables, BackupRunSnapshotDestinations) && OfFinishedSnapshot(tables, row)
  {
    SnapshotIds(tables, row);
    ReferringMembers(RowsOf(tables, BackupRunSnapshotDestinations), "backup_run_snapshot_id",
                     Ids(ExportedSnapshots(tables)), row);
  }

  lemma {:induction false} RunsAreClosed(tables: Tables, row: Row)
    ensures row in ExportedRows(tables, BackupRuns) <==> row in RowsOf(tables, BackupRuns) && IsOver(row)
  {
    ExportedRunsAreFinished(tables);
    FinishedMembers(RowsOf(tables, BackupRuns), row);
  }

  /** The exported catalogue is closed and complete: of every table exactly the
      rows that lead, over snapshots and runs, to a finished run. */
  lemma {:induction false} CatalogIsClosed(file: Tables, tables: Tables, row: Row)
    requires IsExport(file, tables, true)
    ensures row in RowsOf(file, BackupRuns) <==> row in RowsOf(tables, BackupRuns) && IsOver(row)
    ensures row in RowsOf(file, BackupRunSnapshots)
      <==> row in RowsOf(tables, BackupRunSnapshots) && OfFinishedRun(tables, row)
    ensures row in RowsOf(file, BackupRunVmConfigs)
      <==> row in RowsOf(tables, BackupRunVmConfigs) && OfFinishedRun(tables, row)
    ensures row in RowsOf(file, BackupRunSnapshotDestinations)
      <==> row in RowsOf(tables, BackupRunSnapshotDestinations) && OfFinishedSnapshot(tables, row)
  {
    CatalogIsExported(file, tables);
    RunsAreClosed(tables, row);
    SnapshotsAreClosed(tables, row);
    VmConfigsAreClosed(tables, row);
    DestinationsAreClosed(tables, row);
  }

  lemma {:induction false} CatalogIsExported(file: Tables, tables: Tables)
    requires IsExport(file, tables, true)
    ensures forall t :: t in CatalogTables() ==> RowsOf(file, t) == ExportedRows(tables, t)
    ensures BackupRuns in CatalogTables() && BackupRunSnapshots in CatalogTables()
    ensures BackupRunVmConfigs in CatalogTables() && BackupRunSnapshotDestinations in CatalogTables()
  {
    forall t | t in CatalogTables() ensures t in ExportedTables(true) {}
  }

  lemma {:induction false} CatalogRowIsKept(t: Table, row: Row, columns: set<string>, now: string)
    requires t in CatalogTables() && row.Keys == columns
    ensures Stored(Stamped(t, Cleaned(t, row), now), columns) == row
  {
    var r := Cleaned(t, row);
    assert Scrub(t) == {} && Reset(t) == [];
    forall k ensures k in r <==> k in row { CleanedColumn(t, row, k); }
    forall k | k in row ensures r[k] == row[k] { CleanedColumn(t, row, k); }
    assert r == row;
  }

  lemma {:induction false} CatalogRowsAreKept(t: Table, rows: seq<Row>, columns: set<string>, now: string)
    requires t in CatalogTables() && Shaped(rows, columns, t)
    ensures Imported(t, rows, columns, now) == rows
  {
    var prepared := Prepared(t, rows, now);
    var c :| c in columns - Scrub(t);
    forall j | 0 <= j < |prepared| ensures prepared[j].Keys * columns != {} {
      SomeColumnSurvives(t, rows[j], columns, now, c);
    }
    AllInserted(prepared, columns);
    forall j | 0 <= j < |prepared| ensures Stored(prepared[j], columns) == rows[j] {
      CatalogRowIsKept(t, rows[j], columns, now);
    }
  }

  lemma {:induction false} AllInserted(rows: seq<Row>, columns: set<string>)
    requires forall j :: 0 <= j < |rows| ==> rows[j].Keys * columns != {}
    ensures |InsertedAll(rows, columns)| == |rows|
    ensures forall j :: 0 <= j < |rows| ==> InsertedAll(rows, columns)[j] == Stored(rows[j], columns)
  {
    if rows != [] { InsertedAt(rows, columns, 0); }
    forall j: nat | j < |rows|
      ensures InsertedAll(rows, columns)[j] == Stored(rows[j], columns)
    {
      InsertedAt(rows, columns, j);
    }
  }

  /** The catalogue arrives as it was exported, row by row. */
  lemma {:induction false} CatalogArrives(file: Tables, target: Tables, schema: Schema, now: string, t: Table)
    requires t in CatalogTables() && t in file && Shaped(file[t], ColumnsOf(schema, t), t)
    ensures RowsOf(AfterImport(file, target, schema, now), t) == file[t]
  {
    assert t in ConfigOrder();
    TableAfterImport(file, target, schema, now, t);
    CatalogRowsAreKept(t, file[t], ColumnsOf(schema, t), now);
  }
}
