/**
 The RPC calls of the agent over its whole state: the host, the association table and
 the file that persists the table.
 */
module Agent {
  import opened Common
  import opened QemuInfo
  import opened Volumes
  import A = Association

  datatype State = State(host: Host, table: A.Table, file: A.Content)

  datatype StartEnv = StartEnv(
    valid: bool, parse: bool, hardware: bool, flavor: bool, manifest: bool,
    report: bool, save: A.SaveFaults)

  /** Start counts the VM only for an image below the mount directory, after every check has passed. */
  function StartCall(a: State, d: Domain, e: StartEnv): (State, bool) {
    if !e.valid || !e.parse then (a, false)
    else if !HasPrefix(d.imagePath, MOUNT_PATH) then (a, true)
    else if !e.hardware || !e.flavor || !e.manifest || !e.report then (a, false)
    else
      var table := A.Created(a.table, d.img, d.imagePath);
      (State(a.host, table, A.Saved(a.file, table, e.save)), e.save.Clean())
  }

  /** Prepare found no image path and asks the association table. */
  predicate ConsultsTable(h: Host, d: Domain, e: PrepareEnv) {
    && e.parse
    && (if IsSymlink(h, d.vmPath) then d.imagePath == ""
        else e.diskInfo.Some? && Scanned(e.diskInfo.value, QEMU_FIELDS.backingFile, d.imagePath) == "")
  }

  /** The table after the lookup: an empty one is loaded from the file first. */
  function TableForLookup(a: State, readFails: bool): A.Table {
    if a.table == map[] && !readFails then A.Decode(a.file) else a.table
  }

  function SavedPath(a: State, d: Domain, readFails: bool, e: PrepareEnv): string {
    if ConsultsTable(a.host, d, e) then A.PathOf(TableForLookup(a, readFails), d.img) else ""
  }

  function PrepareCall(a: State, d: Domain, valid: bool, readFails: bool, e: PrepareEnv): (State, Outcome) {
    if !valid then (a, Returned(false))
    else
      var table := if ConsultsTable(a.host, d, e) then TableForLookup(a, readFails) else a.table;
      var prepared := Prepare(a.host, d, e.(savedPath := SavedPath(a, d, readFails, e)));
      (State(prepared.0, table, a.file), prepared.1)
  }

  /** Stop on a host whose VM volume has been dealt with. */
  function AfterQuestion(a: State, d: Domain, e: StopEnv, save: A.SaveFaults): State {
    var verdict := A.Judge(a.table, d.img);
    var path := if verdict == A.Missing then "" else A.PathOf(a.table, d.img);
    var table := A.Deleted(a.table, d.img);
    State(
      if path == "" || verdict == A.Shared then a.host else TearDownImage(a.host, d, path, e),
      table,
      if verdict == A.Missing then a.file else A.Saved(a.file, table, save))
  }

  function StopCall(a: State, d: Domain, valid: bool, e: StopEnv, save: A.SaveFaults): (State, bool) {
    if !valid || !StopProceeds(a.host, d, e) then (a, false)
    else (AfterQuestion(a.(host := CloseVm(a.host, d, e)), d, e, save), true)
  }
}
