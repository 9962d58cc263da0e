/** Exporting a configuration and importing it into an empty installation, after
    backend/app/core/config_transfer.py. Rows are the raw rows of the database. */
module ConfigTransfer {
  import opened Wrappers

  datatype Table =
    | HypervClusters | NetappClusters | RestoreProxyHost | RestoreInfraConfigs | SnapmirrorLabels | Schedules
    | BackupPolicies | ResourceGroups | ResourceGroupPolicies | AllowedScheduleCollisions | ProtectionClasses
    | ProtectionClassAssignments | ReportDefinitions | Sites | HypervNodeSites | CsvSiteOverrides | AlertConfig
    | SchedulerConfig | StorageAccessConfig | EmailConfig | KerberosConfig | AdConfig | WinrmHostCertificates
    | DbBackupConfig | WinrmTrustState
    | Roles | Users | RoleAssignments
    | BackupRuns | BackupRunSnapshots | BackupRunSnapshotDestinations | BackupRunVmConfigs

  datatype Value = Null | Integer(i: int) | Number(r: real) | Text(s: string)

  type Row = map<string, Value>

  type Tables = map<Table, seq<Row>>

  type Schema = map<Table, set<string>>

  function ConfigTables(): seq<Table> {
    [HypervClusters, NetappClusters, RestoreProxyHost, RestoreInfraConfigs, SnapmirrorLabels, Schedules,
     BackupPolicies, ResourceGroups, ResourceGroupPolicies, AllowedScheduleCollisions, ProtectionClasses,
     ProtectionClassAssignments, ReportDefinitions, Sites, HypervNodeSites, CsvSiteOverrides, AlertConfig,
     SchedulerConfig, StorageAccessConfig, EmailConfig, KerberosConfig, AdConfig, WinrmHostCertificates,
     DbBackupConfig, WinrmTrustState]
  }

  function UserTables(): seq<Table> { [Roles, Users, RoleAssignments] }

  function CatalogTables(): seq<Table> {
    [BackupRuns, BackupRunSnapshots, BackupRunSnapshotDestinations, BackupRunVmConfigs]
  }

  /** The tables whose content makes an installation count as set up. */
  function EmptinessTables(): seq<Table> {
    [HypervClusters, NetappClusters, BackupPolicies, ResourceGroups, Schedules, BackupRuns]
  }

  /** Columns that are never exported. */
  function Scrub(t: Table): set<string> {
    match t
    case HypervClusters | RestoreProxyHost | EmailConfig | DbBackupConfig => {"encrypted_password"}
    case NetappClusters => {"encrypted_password", "client_cert_path", "client_key_path"}
    case AdConfig => {"encrypted_bind_password"}
    case Users => {"hashed_password"}
    case _ => {}
  }

  /** Columns that describe the state of one server, with their neutral values. */
  function Reset(t: Table): seq<(string, Value)> {
    match t
    case HypervClusters =>
      [("health", Text("UNKNOWN")), ("last_checked_at", Null), ("last_check_error", Null),
       ("unreachable_nodes_json", Null)]
    case NetappClusters =>
      [("health", Text("UNKNOWN")), ("last_checked_at", Null), ("last_check_error", Null), ("metrocluster_mode", Null)]
    case DbBackupConfig =>
      [("last_attempt_at", Null), ("last_success_at", Null), ("last_file_name", Null), ("last_size_bytes", Null),
       ("last_error", Null), ("last_upload_failed", Integer(0)), ("enabled_since", Null)]
    case WinrmTrustState => [("bundle_path", Null), ("last_bundle_built_at", Null), ("bundle_cert_count", Integer(0))]
    case Users => [("last_login_at", Null)]
    case _ => []
  }

  /** The value a column is reset to; a later entry wins. */
  function ResetTo(entries: seq<(string, Value)>, column: string): Option<Value> {
    if entries == [] then None
    else if entries[|entries| - 1].0 == column then Some(entries[|entries| - 1].1)
    else ResetTo(entries[..|entries| - 1], column)
  }

  function Get(row: Row, column: string): Value { if column in row then row[column] else Null }

  predicate Falsy(v: Value) { v == Null || v == Integer(0) || v == Number(0.0) || v == Text("") }

  // ---------- Cleaning ----------

  /** A row after the given resets: only columns it has are touched. */
  function ResetRow(row: Row, entries: seq<(string, Value)>): Row {
    map k | k in row :: if ResetTo(entries, k).Some? then ResetTo(entries, k).value else row[k]
  }

  lemma {:induction false} ResetOneMore(row: Row, entries: seq<(string, Value)>, column: string, value: Value)
    ensures ResetRow(row, entries + [(column, value)])
         == if column in row then ResetRow(row, entries)[column := value] else ResetRow(row, entries)
  {
    assert (entries + [(column, value)])[..|entries|] == entries;
  }

  /** The columns that may leave the installation. */
  function WithoutSecrets(t: Table, row: Row): Row { map k | k in row && k !in Scrub(t) :: row[k] }

  function Cleaned(t: Table, row: Row): Row { ResetRow(WithoutSecrets(t, row), Reset(t)) }

  function CleanedRows(t: Table, rows: seq<Row>): (r: seq<Row>)
    ensures |r| == |rows| && forall i :: 0 <= i < |r| ==> r[i] == Cleaned(t, rows[i])
  {
    seq(|rows|, i requires 0 <= i < |rows| => Cleaned(t, rows[i]))
  }

  method CleanRow(t: Table, row: Row) returns (r: Row)
    ensures r == Cleaned(t, row)
  {
    var kept := WithoutSecrets(t, row);
    r := ResetAll(kept, Reset(t));
  }

  method ResetAll(row: Row, reset: seq<(string, Value)>) returns (r: Row)
    ensures r == ResetRow(row, reset)
  {
    r := row;
    assert r == ResetRow(row, []);
    var i := 0;
    while i < |reset|
      invariant 0 <= i <= |reset| && r == ResetRow(row, reset[..i])
    {
      ResetOneMore(row, reset[..i], reset[i].0, reset[i].1);
      assert reset[..i] + [(reset[i].0, reset[i].1)] == reset[..i + 1];
      if reset[i].0 in r { r := r[reset[i].0 := reset[i].1]; }
      i := i + 1;
    }
    assert reset[..i] == reset;
  }

  method Clean(t: Table, rows: seq<Row>) returns (r: seq<Row>)
    ensures r == CleanedRows(t, rows)
  {
    r := [];
    var i := 0;
    while i < |rows|
      invariant 0 <= i <= |rows| && |r| == i
      invariant forall j :: 0 <= j < i ==> r[j] == Cleaned(t, rows[j])
    {
      var row := CleanRow(t, rows[i]);
      r := r + [row];
      i := i + 1;
    }
  }

  // ---------- Export ----------

  function ColumnsOf(schema: Schema, t: Table): set<string> { if t in schema then schema[t] else {} }

  function RowsOf(tables: Tables, t: Table): seq<Row> { if t in tables then tables[t] else [] }

  /** The runs that are over; an unknown status does not count as over. */
  predicate Finished(run: Row) {
    var status := Get(run, "status");
    status != Null && status != Text("PENDING") && status != Text("RUNNING") && status != Text("CLEANING_UP")
  }

  function FinishedRuns(runs: seq<Row>): seq<Row> {
    if runs == [] then []
    else
      var run := runs[|runs| - 1];
      FinishedRuns(runs[..|runs| - 1]) + if Finished(run) then [run] else []
  }

  function Ids(rows: seq<Row>): set<Value> { set i | 0 <= i < |rows| :: Get(rows[i], "id") }

  /** The rows whose `column` refers to one of `ids`. */
  function Referring(rows: seq<Row>, column: string, ids: set<Value>): seq<Row> {
    if rows == [] then []
    else
      var row := rows[|rows| - 1];
      Referring(rows[..|rows| - 1], column, ids) + if Get(row, column) in ids then [row] else []
  }

  function ExportedRuns(tables: Tables): seq<Row> {
    CleanedRows(BackupRuns, FinishedRuns(RowsOf(tables, BackupRuns)))
  }

  function ExportedSnapshots(tables: Tables): seq<Row> {
    Referring(RowsOf(tables, BackupRunSnapshots), "run_id", Ids(ExportedRuns(tables)))
  }

  function ExportedRows(tables: Tables, t: Table): seq<Row> {
    match t
    case BackupRuns => ExportedRuns(tables)
    case BackupRunSnapshots => ExportedSnapshots(tables)
    case BackupRunSnapshotDestinations =>
      Referring(RowsOf(tables, t), "backup_run_snapshot_id", Ids(ExportedSnapshots(tables)))
    case BackupRunVmConfigs => Referring(RowsOf(tables, t), "run_id", Ids(ExportedRuns(tables)))
    case _ => CleanedRows(t, RowsOf(tables, t))
  }

  function ExportedTables(includeCatalog: bool): seq<Table> {
    ConfigTables() + UserTables() + if includeCatalog then CatalogTables() else []
  }

  predicate IsExport(file: Tables, tables: Tables, includeCatalog: bool) {
    && (forall t :: t in file ==> t in ExportedTables(includeCatalog))
    && (forall t :: t in ExportedTables(includeCatalog) ==> t in file)
    && forall t :: t in file ==> file[t] == ExportedRows(tables, t)
  }

  predicate OfCatalog(t: Table) {
    t.BackupRuns? || t.BackupRunSnapshots? || t.BackupRunSnapshotDestinations? || t.BackupRunVmConfigs?
  }

  lemma {:induction false} CatalogIsApart(t: Table)
    ensures t in CatalogTables() <==> OfCatalog(t)
    ensures t in ConfigTables() ==> !OfCatalog(t)
    ensures t in UserTables() ==> !OfCatalog(t)
  {}

  /** Every row of the configuration and of the users. */
  method ExportConfig(tables: Tables) returns (file: Tables)
    ensures forall t :: t in file <==> t in ConfigTables() + UserTables()
    ensures forall t :: t in file ==> file[t] == ExportedRows(tables, t)
  {
    var list := ConfigTables() + UserTables();
    file := CleanTables(list, tables);
    forall t | t in list ensures ExportedRows(tables, t) == CleanedRows(t, RowsOf(tables, t)) {
      NotOfCatalog(tables, t);
    }
  }

  method CleanTables(list: seq<Table>, tables: Tables) returns (file: Tables)
    ensures forall t :: t in file <==> t in list
    ensures forall t :: t in file ==> file[t] == CleanedRows(t, RowsOf(tables, t))
  {
    file := map[];
    var i := 0;
    while i < |list|
      invariant 0 <= i <= |list|
      invariant forall t :: t in file <==> t in list[..i]
      invariant forall t :: t in file ==> file[t] == CleanedRows(t, RowsOf(tables, t))
    {
      var rows := Clean(list[i], RowsOf(tables, list[i]));
      file := file[list[i] := rows];
      i := i + 1;
    }
    assert list[..i] == list;
  }

  lemma {:induction false} NotOfCatalog(tables: Tables, t: Table)
    requires t in ConfigTables() + UserTables()
    ensures ExportedRows(tables, t) == CleanedRows(t, RowsOf(tables, t))
  {
    CatalogIsApart(t);
    assert t in ConfigTables() || t in UserTables();
  }

  /** The catalogue: finished runs and what belongs to them. */
  method ExportCatalog(tables: Tables) returns (file: Tables)
    ensures file.Keys == {BackupRuns, BackupRunSnapshots, BackupRunSnapshotDestinations, BackupRunVmConfigs}
    ensures forall t :: t in file ==> file[t] == ExportedRows(tables, t)
  {
    var runs := Clean(BackupRuns, FinishedRuns(RowsOf(tables, BackupRuns)));
    var runIds := Ids(runs);
    var snapshots := Referring(RowsOf(tables, BackupRunSnapshots), "run_id", runIds);
    var snapshotIds := Ids(snapshots);
    file := map[
      BackupRuns := runs,
      BackupRunSnapshots := snapshots,
      BackupRunSnapshotDestinations := Referring(RowsOf(tables, BackupRunSnapshotDestinations),
                                                 "backup_run_snapshot_id", snapshotIds),
      BackupRunVmConfigs := Referring(RowsOf(tables, BackupRunVmConfigs), "run_id", runIds)
    ];
  }

  method BuildExport(tables: Tables, includeCatalog: bool) returns (file: Tables)
    ensures IsExport(file, tables, includeCatalog)
  {
    var list := ConfigTables() + UserTables();
    file := ExportConfig(tables);
    if includeCatalog {
      var catalog := ExportCatalog(tables);
      forall t ensures t in file.Keys + catalog.Keys <==> t in ExportedTables(true) { InCatalog(t, catalog.Keys); }
      file := file + catalog;
    } else {
      assert ExportedTables(false) == list;
    }
  }

  lemma {:induction false} InCatalog(t: Table, keys: set<Table>)
    requires keys == {BackupRuns, BackupRunSnapshots, BackupRunSnapshotDestinations, BackupRunVmConfigs}
    ensures t in keys <==> t in CatalogTables()
    ensures t in ExportedTables(true) <==> t in ConfigTables() + UserTables() || t in CatalogTables()
  {}

  // ---------- Import ----------

  /** A row as the import writes it: groups paused, report schedules started anew. */
  function Stamped(t: Table, row: Row, now: string): Row {
    if t == ResourceGroups && Falsy(Get(row, "paused")) then row["paused" := Integer(1)]["paused_since" := Text(now)]
    else if t == ReportDefinitions then row["last_scheduled_for" := Text(now)]
    else row
  }

  /** What the database holds after inserting a row: unknown fields are dropped,
      columns without a field get NULL. */
  function Stored(row: Row, columns: set<string>): Row { map k | k in columns :: Get(row, k) }

  function Inserted(rows: seq<Row>, row: Row, columns: set<string>): seq<Row> {
    if row.Keys * columns == {} then rows else rows + [Stored(row, columns)]
  }

  function InsertedAll(rows: seq<Row>, columns: set<string>): seq<Row> {
    if rows == [] then [] else Inserted(InsertedAll(rows[..|rows| - 1], columns), rows[|rows| - 1], columns)
  }

  function Prepared(t: Table, rows: seq<Row>, now: string): (r: seq<Row>)
    ensures |r| == |rows| && forall i :: 0 <= i < |r| ==> r[i] == Stamped(t, Cleaned(t, rows[i]), now)
  {
    seq(|rows|, i requires 0 <= i < |rows| => Stamped(t, Cleaned(t, rows[i]), now))
  }

  /** The rows a table holds after it has been replaced. */
  function Imported(t: Table, rows: seq<Row>, columns: set<string>, now: string): seq<Row> {
    InsertedAll(Prepared(t, rows, now), columns)
  }

  function PausedName(t: Table, row: Row): seq<Value> {
    if t == ResourceGroups && Falsy(Get(row, "paused")) then [Get(row, "name")] else []
  }

  /** The names of the groups the import pauses. */
  function PausedNames(t: Table, rows: seq<Row>): seq<Value> {
    if rows == [] then []
    else PausedNames(t, rows[..|rows| - 1]) + PausedName(t, Cleaned(t, rows[|rows| - 1]))
  }

  /** Every table the file has, replaced by what the file says. */
  function AfterTables(list: seq<Table>, tables: Tables, schema: Schema, file: Tables, now: string): Tables {
    if list == [] then tables
    else
      var t := list[|list| - 1];
      var before := AfterTables(list[..|list| - 1], tables, schema, file, now);
      if t !in file || ColumnsOf(schema, t) == {} then before
      else before[t := Imported(t, file[t], ColumnsOf(schema, t), now)]
  }

  function PausedBy(list: seq<Table>, schema: Schema, file: Tables): seq<Value> {
    if list == [] then []
    else
      var t := list[|list| - 1];
      PausedBy(list[..|list| - 1], schema, file)
      + if t !in file || ColumnsOf(schema, t) == {} then [] else PausedNames(t, file[t])
  }

  /** Why an installation does not count as empty. */
  function Blockers(list: seq<Table>, tables: Tables, schema: Schema): seq<(Table, nat)> {
    if list == [] then []
    else
      var t := list[|list| - 1];
      Blockers(list[..|list| - 1], tables, schema)
      + if ColumnsOf(schema, t) != {} && RowsOf(tables, t) != [] then [(t, |RowsOf(tables, t)|)] else []
  }
}
