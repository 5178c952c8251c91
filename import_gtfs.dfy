/** src/import-gtfs.ts: `maybeImportGtfs`, which reimports the GTFS dataset once the
    recorded import is a week old, moving the previous database aside first and
    restoring it when the import fails. The filesystem is a map from path to
    content; the `gtfs` library's import is a parameter describing its outcome. */
module ImportGtfs {
  import opened Wrappers
  import opened Types

  /** What `JSON.parse(contents)[lastUpdate]` yields for the last-update file:
      - `Unparsable`: parsing or the property read throws;
      - `NoStamp`: the key is absent or falsy;
      - `Stamp(instant)`: a truthy value, with `instant` its milliseconds since the
        epoch, or `None` when `new Date(...)` cannot read it (`NaN`). */
  datatype LastUpdateRecord = Unparsable | NoStamp | Stamp(instant: Option<int>)

  datatype FileContent = Database(image: nat) | LastUpdateJson(record: LastUpdateRecord)

  type Files = map<string, FileContent>

  /** Why a step of `maybeImportGtfs` rejects: `link` onto an existing path (EEXIST), or
      a last-update file that is not valid JSON. */
  datatype IoError = AlreadyExists(path: string) | InvalidJson(path: string)

  /** The opaque `importGtfs(config)`: whether it resolves, and what it leaves at the
      database path (a new database, a partial one, or nothing). */
  datatype ImportBehaviour = ImportBehaviour(succeeds: bool, leaves: Option<FileContent>)

  /** How the promise returned by `maybeImportGtfs` settles. `ImportFailed` is a failed
      import whose error was logged and swallowed. */
  datatype ImportResult = UpToDate | Reimported | ImportFailed | Rejected(error: IoError)

  datatype Run = Run(files: Files, result: ImportResult)

  const LastUpdateConfigFile: string := "./last-update.json"
  const FreshnessWindowMs: int := 1000 * 60 * 60 * 24 * 7

  function DbPath(config: GtfsConfig): string {
    "./" + config.sqlitePath
  }

  function BackupPath(config: GtfsConfig): string {
    "./" + config.sqlitePath + ".old"
  }

  /** The database is not configured at the last-update file's own path. */
  predicate DistinctPaths(config: GtfsConfig) {
    LastUpdateConfigFile != DbPath(config)
  }

  lemma BackupPathIsSeparate(config: GtfsConfig)
    ensures DbPath(config) != BackupPath(config)
    ensures LastUpdateConfigFile != BackupPath(config)
  {
    assert |DbPath(config)| < |BackupPath(config)|;
    var b := BackupPath(config);
    if |b| == |LastUpdateConfigFile| {
      assert b[|b| - 1] == 'd';
      assert LastUpdateConfigFile[|b| - 1] == 'n';
    }
  }

  // ---------------------------------------------------------------------------
  // Filesystem steps, as values

  function ParseLastUpdate(content: FileContent): Result<LastUpdateRecord, IoError> {
    if content.LastUpdateJson? && !content.record.Unparsable? then Success(content.record)
    else Failure(InvalidJson(LastUpdateConfigFile))
  }

  /** `link(existing, newPath)`: `newPath` gets `existing`'s content; EEXIST when taken. */
  function Linked(files: Files, existing: string, newPath: string): (r: Result<Files, IoError>)
    requires existing in files
    ensures r.Success? <==> newPath !in files
  {
    if newPath in files then Failure(AlreadyExists(newPath))
    else Success(files[newPath := files[existing]])
  }

  /** The freshness check: `Success(true)` when the run may stop at once. */
  function Freshness(files: Files, config: GtfsConfig, now: int): Result<bool, IoError> {
    if LastUpdateConfigFile in files && DbPath(config) in files then
      match ParseLastUpdate(files[LastUpdateConfigFile])
      case Failure(e) => Failure(e)
      case Success(record) =>
        Success(record.Stamp? && record.instant.Some? && now - record.instant.value < FreshnessWindowMs)
    else Success(false)
  }

  /** Hard-link the database to the backup path and unlink the original. */
  function MoveAside(files: Files, config: GtfsConfig): Result<Files, IoError> {
    if DbPath(config) in files then
      match Linked(files, DbPath(config), BackupPath(config))
      case Failure(e) => Failure(e)
      case Success(linked) => Success(linked - {DbPath(config)})
    else Success(files)
  }

  /** The database path after the import, which starts with that path absent. */
  function Imported(files: Files, config: GtfsConfig, importer: ImportBehaviour): Files {
    if importer.leaves.Some? then files[DbPath(config) := importer.leaves.value] else files
  }

  /** The `.then` and `.catch` handlers. */
  function Settle(files: Files, config: GtfsConfig, importer: ImportBehaviour, completedAt: int): Run {
    var backup := BackupPath(config);
    if importer.succeeds then
      var cleaned := if backup in files then files - {backup} else files;
      Run(cleaned[LastUpdateConfigFile := LastUpdateJson(Stamp(Some(completedAt)))], Reimported)
    else if backup in files then
      match Linked(files, backup, DbPath(config))
      case Failure(e) => Run(files, Rejected(e))
      case Success(restored) => Run(restored - {backup}, ImportFailed)
    else Run(files, ImportFailed)
  }

  /** One call of `maybeImportGtfs` at instant `now` (ms), with the import completing at
      `completedAt`. */
  function ImportRun(files: Files, config: GtfsConfig, now: int, completedAt: int, importer: ImportBehaviour): Run {
    match Freshness(files, config, now)
    case Failure(e) => Run(files, Rejected(e))
    case Success(current) =>
      if current then Run(files, UpToDate)
      else
        match MoveAside(files, config)
        case Failure(e) => Run(files, Rejected(e))
        case Success(moved) => Settle(Imported(moved, config, importer), config, importer, completedAt)
  }

  // ---------------------------------------------------------------------------
  // The filesystem, as state

  class FileSystem {
    var files: Files

    constructor (initial: Files)
      ensures files == initial
    {
      files := initial;
    }

    /** `existsSync(path)`. */
    predicate Exists(path: string)
      reads this
    {
      path in files
    }

    /** `link(existing, newPath)`, resolving (`Pass`) or rejecting with EEXIST. */
    method Link(existing: string, newPath: string) returns (r: Outcome<IoError>)
      requires existing in files
      modifies this
      ensures Linked(old(files), existing, newPath) == if r.Pass? then Success(files) else Failure(r.error)
      ensures r.Fail? ==> files == old(files)
    {
      if newPath in files {
        return Fail(AlreadyExists(newPath));
      }
      files := files[newPath := files[existing]];
      r := Pass;
    }

    /** `unlink(path)` on a path that exists. */
    method Unlink(path: string)
      requires path in files
      modifies this
      ensures files == old(files) - {path}
      ensures path !in files
    {
      files := files - {path};
    }

    /** `writeFile(path, content)`. */
    method WriteFile(path: string, content: FileContent)
      modifies this
      ensures files == old(files)[path := content]
    {
      files := files[path := content];
    }
  }

  /** `maybeImportGtfs(config)`. */
  method MaybeImportGtfs(fs: FileSystem, config: GtfsConfig, now: int, completedAt: int, importer: ImportBehaviour)
    returns (r: ImportResult)
    modifies fs
    ensures Run(fs.files, r) == ImportRun(old(fs.files), config, now, completedAt, importer)
  {
    var db, backup := DbPath(config), BackupPath(config);
    BackupPathIsSeparate(config);
    if fs.Exists(LastUpdateConfigFile) && fs.Exists(db) {
      var record := ParseLastUpdate(fs.files[LastUpdateConfigFile]);
      if record.Failure? {
        return Rejected(record.error);
      }
      if record.value.Stamp? && record.value.instant.Some? && now - record.value.instant.value < FreshnessWindowMs {
        return UpToDate;
      }
    }

    if fs.Exists(db) {
      var linked := fs.Link(db, backup);
      if linked.Fail? {
        return Rejected(linked.error);
      }
      fs.Unlink(db);
    }

    // importGtfs(config)
    if importer.leaves.Some? {
      fs.WriteFile(db, importer.leaves.value);
    }

    if importer.succeeds {
      if fs.Exists(backup) {
        fs.Unlink(backup);
      }
      fs.WriteFile(LastUpdateConfigFile, LastUpdateJson(Stamp(Some(completedAt))));
      return Reimported;
    }
    if fs.Exists(backup) {
      var restored := fs.Link(backup, db);
      if restored.Fail? {
        return Rejected(restored.error);
      }
      fs.Unlink(backup);
    }
    return ImportFailed;
  }

  // ---------------------------------------------------------------------------
  // Properties of a run

  /** The recorded import is less than a week old and the database is present. */
  ghost predicate IsFresh(files: Files, config: GtfsConfig, now: int) {
    && DbPath(config) in files
    && LastUpdateConfigFile in files
    && exists ms :: files[LastUpdateConfigFile] == LastUpdateJson(Stamp(Some(ms))) && now - ms < FreshnessWindowMs
  }

  /** The run stops without touching any file exactly when the dataset is fresh. */
  lemma UpToDateIffFresh(files: Files, config: GtfsConfig, now: int, completedAt: int, importer: ImportBehaviour)
    ensures ImportRun(files, config, now, completedAt, importer).result == UpToDate <==> IsFresh(files, config, now)
    ensures IsFresh(files, config, now) ==> ImportRun(files, config, now, completedAt, importer).files == files
  {
    var run := ImportRun(files, config, now, completedAt, importer);
    if run.result == UpToDate {
      assert Freshness(files, config, now) == Success(true);
      var record := files[LastUpdateConfigFile].record;
      assert files[LastUpdateConfigFile] == LastUpdateJson(Stamp(Some(record.instant.value)));
    }
  }

  /** A last-update file that is not valid JSON rejects the run before anything changes. */
  lemma UnreadableLastUpdateRejects(files: Files, config: GtfsConfig, now: int, completedAt: int, importer: ImportBehaviour)
    requires LastUpdateConfigFile in files && DbPath(config) in files
    requires files[LastUpdateConfigFile].Database? || files[LastUpdateConfigFile].record.Unparsable?
    ensures ImportRun(files, config, now, completedAt, importer) == Run(files, Rejected(InvalidJson(LastUpdateConfigFile)))
  {
  }

  /** Moving aside: the backup holds the previous database, the database path is empty,
      and no other path changes. */
  lemma MoveAsideKeepsPreviousDatabase(files: Files, config: GtfsConfig)
    requires DbPath(config) in files && BackupPath(config) !in files
    ensures MoveAside(files, config).Success?
    ensures var moved := MoveAside(files, config).value;
      && DbPath(config) !in moved
      && BackupPath(config) in moved && moved[BackupPath(config)] == files[DbPath(config)]
      && forall p :: p != DbPath(config) && p != BackupPath(config) ==>
           (p in moved <==> p in files) && (p in moved ==> moved[p] == files[p])
  {
    BackupPathIsSeparate(config);
  }

  /** A backup left at the backup path blocks any reimport of an existing database:
      the first `link` rejects and nothing changes. */
  lemma StaleBackupBlocksReimport(files: Files, config: GtfsConfig, now: int, completedAt: int, importer: ImportBehaviour)
    requires Freshness(files, config, now) == Success(false)
    requires DbPath(config) in files && BackupPath(config) in files
    ensures ImportRun(files, config, now, completedAt, importer) == Run(files, Rejected(AlreadyExists(BackupPath(config))))
  {
  }

  /** A successful import records its completion instant, removes the backup, and
      leaves at the database path what the import wrote; nothing else changes. */
  lemma SuccessfulImportRecordsCompletion(files: Files, config: GtfsConfig, now: int, completedAt: int, importer: ImportBehaviour)
    requires DistinctPaths(config)
    requires Freshness(files, config, now) == Success(false)
    requires !(DbPath(config) in files && BackupPath(config) in files)
    requires importer.succeeds
    ensures var run := ImportRun(files, config, now, completedAt, importer);
      && run.result == Reimported
      && run.files[LastUpdateConfigFile] == LastUpdateJson(Stamp(Some(completedAt)))
      && BackupPath(config) !in run.files
      && (DbPath(config) in run.files <==> importer.leaves.Some?)
      && (importer.leaves.Some? ==> run.files[DbPath(config)] == importer.leaves.value)
      && forall p :: p !in {LastUpdateConfigFile, DbPath(config), BackupPath(config)} ==>
           (p in run.files <==> p in files) && (p in run.files ==> run.files[p] == files[p])
  {
    BackupPathIsSeparate(config);
  }

  /** A failed import that leaves nothing behind restores the filesystem exactly. */
  lemma FailedImportRestoresFiles(files: Files, config: GtfsConfig, now: int, completedAt: int)
    requires Freshness(files, config, now) == Success(false)
    requires BackupPath(config) !in files
    ensures ImportRun(files, config, now, completedAt, ImportBehaviour(false, None)) == Run(files, ImportFailed)
  {
    BackupPathIsSeparate(config);
    var db, backup := DbPath(config), BackupPath(config);
    if db in files {
      var moved := MoveAside(files, config).value;
      assert moved == files[backup := files[db]] - {db};
      var restored := moved[db := moved[backup]];
      assert restored - {backup} == files;
    }
  }

  /** A failed import that leaves a partial database behind: restoring the backup
      rejects with EEXIST, the partial database stays, and the backup is kept. */
  lemma PartialDatabaseKeepsBackup(files: Files, config: GtfsConfig, now: int, completedAt: int, partial: FileContent)
    requires Freshness(files, config, now) == Success(false)
    requires DbPath(config) in files && BackupPath(config) !in files
    ensures var run := ImportRun(files, config, now, completedAt, ImportBehaviour(false, Some(partial)));
      && run.result == Rejected(AlreadyExists(DbPath(config)))
      && run.files[DbPath(config)] == partial
      && run.files[BackupPath(config)] == files[DbPath(config)]
  {
    BackupPathIsSeparate(config);
  }

  /** A failed import never writes the last-update file. */
  lemma FailureNeverWritesTimestamp(files: Files, config: GtfsConfig, now: int, completedAt: int, importer: ImportBehaviour)
    requires DistinctPaths(config)
    requires !importer.succeeds
    ensures var run := ImportRun(files, config, now, completedAt, importer);
      && (LastUpdateConfigFile in run.files <==> LastUpdateConfigFile in files)
      && (LastUpdateConfigFile in files ==> run.files[LastUpdateConfigFile] == files[LastUpdateConfigFile])
  {
    BackupPathIsSeparate(config);
  }

  /** Without a database or a backup there is nothing to roll back: a failed import
      leaves whatever it wrote. */
  lemma NoDatabaseNoRollback(files: Files, config: GtfsConfig, now: int, completedAt: int, importer: ImportBehaviour)
    requires DbPath(config) !in files && BackupPath(config) !in files
    requires !importer.succeeds
    ensures ImportRun(files, config, now, completedAt, importer) == Run(Imported(files, config, importer), ImportFailed)
  {
    BackupPathIsSeparate(config);
  }

  /** A backup left by an earlier run while the database is missing is moved back into
      place by a failed import that wrote nothing. */
  lemma StaleBackupRestoredOnFailure(files: Files, config: GtfsConfig, now: int, completedAt: int)
    requires DbPath(config) !in files && BackupPath(config) in files
    ensures var run := ImportRun(files, config, now, completedAt, ImportBehaviour(false, None));
      && run.result == ImportFailed
      && DbPath(config) in run.files && run.files[DbPath(config)] == files[BackupPath(config)]
      && BackupPath(config) !in run.files
  {
    BackupPathIsSeparate(config);
  }

  /** A reimport that installed a database makes the next run, within a week of its
      completion, stop at once. */
  lemma ReimportThenUpToDate(
    files: Files, config: GtfsConfig, now: int, completedAt: int, importer: ImportBehaviour,
    later: int, laterCompletedAt: int, laterImporter: ImportBehaviour)
    requires DistinctPaths(config)
    requires ImportRun(files, config, now, completedAt, importer).result == Reimported
    requires importer.leaves.Some?
    requires later - completedAt < FreshnessWindowMs
    ensures var after := ImportRun(files, config, now, completedAt, importer).files;
      ImportRun(after, config, later, laterCompletedAt, laterImporter) == Run(after, UpToDate)
  {
    BackupPathIsSeparate(config);
  }
}
