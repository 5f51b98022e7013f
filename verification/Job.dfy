/**
 * The script body from top to bottom: safe-mode startup, the connection,
 * the backup set, the dump loop and the retention sweep, run against the
 * history table.
 */
module Job {
  import opened Wrappers
  import opened Php
  import opened Naming
  import opened Config
  import opened Catalog
  import opened History

  /** Why the job stopped early: a fatal configuration error, or no database connection. */
  datatype JobError = Fatal(reason: ConfigError) | ConnectionFailed

  /** What a completed run leaves behind: the dump files it wrote, and the entries left in the directory. */
  datatype Outcome = Outcome(written: seq<string>, kept: seq<Entry>)

  /**
   * One run of the job. `directories` are the paths is_dir accepts and
   * `connected` whether mysqli connected; `catalog` and `excluded` are what
   * SHOW DATABASES and backup_exclude return; `obs` holds what each dump
   * observed, one per database of the backup set; `dir` is what glob lists
   * under the location when the sweep starts, `stuck` the paths unlink fails
   * on, `now` the clock in seconds and
   * `limitDays` the retention limit as a number of days. Returns the paths
   * of the dump files written and what is left in the directory.
   */
  method Run(table: Table, c: Settings, directories: set<string>, connected: bool,
             catalog: seq<string>, excluded: seq<string>, obs: seq<Observation>,
             dir: seq<Entry>, stuck: set<string>, now: int, limitDays: int)
    returns (r: Result<Outcome, JobError>)
    requires table.Valid()
    requires |obs| == |BackupSet(catalog, excluded)|
    modifies table, table.rows
    ensures table.Valid()
    ensures Startup(c, directories).Err? ==>
      r == Err(Fatal(Startup(c, directories).error)) && table.Contents() == old(table.Contents())
    ensures Startup(c, directories).Ok? && !connected ==>
      r == Err(ConnectionFailed) && table.Contents() == old(table.Contents())
    ensures Startup(c, directories).Ok? && connected ==>
      var s := Startup(c, directories).value.settings;
      var dumped := old(table.Contents()) + DumpRows(BackupSet(catalog, excluded), obs, Truthy(s.compressed));
      && r.Ok?
      && r.value.written == DumpPaths(s.location, BackupSet(catalog, excluded), obs, Truthy(s.compressed))
      && (Truthy(s.retention) ==>
            r.value.kept == Survivors(dir, stuck, now, limitDays)
            && table.Contents() == Marked(dumped, RemovedKeys(dir, p => Decode(p, s.location), now, limitDays)))
      && (!Truthy(s.retention) ==> r.value.kept == dir && table.Contents() == dumped)
  {
    var started := Startup(c, directories);
    if started.Err? {
      return Err(Fatal(started.error));
    }
    if !connected {
      return Err(ConnectionFailed);
    }
    var s := started.value.settings;
    var names := BackupSet(catalog, excluded);
    var written := table.RecordDumps(s.location, Truthy(s.compressed), names, obs);
    var kept := table.Sweep(dir, stuck, p => Decode(p, s.location), now, limitDays, Truthy(s.retention));
    return Ok(Outcome(written, kept));
  }
}
