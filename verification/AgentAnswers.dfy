/**
 What Start, Stop and Prepare answer and leave behind, over the whole state of the agent:
 counts, paths, the association file, devices and mounts, written out for every case.
 */
module AgentAnswers {
  import opened Common
  import opened QemuInfo
  import opened Volumes
  import opened VolumeTheorems
  import opened Agent
  import opened AgentRuns
  import opened PrepareAnswers
  import A = Association
  import H = HostRuns

  // ----- the table and its file -----

  /** The file after an attempt to save the table: as before, cut off, or the table. */
  function FileAfter(file: A.Content, table: A.Table, f: A.SaveFaults): A.Content {
    if f.marshalFails || f.badPermissions || f.openFails then file
    else if f.writeFails then A.Blank
    else A.Encoded(table)
  }

  predicate NothingFails(f: A.SaveFaults) {
    f == A.SaveFaults(false, false, false, false)
  }

  /** One more VM: a new image enters with the path, a known one keeps its own. */
  ghost predicate OneMore(t: A.Table, after: A.Table, img: string, path: string) {
    && after.Keys == t.Keys + {img}
    && after[img] == (if img in t then A.Entry(t[img].path, t[img].count + 1) else A.Entry(path, 1))
    && forall other | other in t && other != img :: after[other] == t[other]
  }

  /** One VM less: the entry stays, also at zero. */
  ghost predicate OneLess(t: A.Table, after: A.Table, img: string)
    requires img in t
  {
    && after.Keys == t.Keys && after[img] == A.Entry(t[img].path, t[img].count - 1)
    && forall other | other in t && other != img :: after[other] == t[other]
  }

  predicate Counted(t: A.Table, img: string) {
    img in t && t[img].count > 0
  }

  // ----- Start -----

  /** A valid request for an image below the mount directory, and every check passes. */
  predicate StartCounts(d: Domain, e: StartEnv) {
    && e.valid && e.parse && HasPrefix(d.imagePath, MOUNT_PATH)
    && e.hardware && e.flavor && e.manifest && e.report
  }

  /**
   Start counts the VM exactly when its image lies below the mount directory and every
   check passes, and then its reply is that of the save. In every other case nothing
   changes, and it succeeds exactly for a valid request on an ordinary image.
   */
  ghost predicate StartIs(a: State, after: State, reply: bool, d: Domain, e: StartEnv) {
    if StartCounts(d, e) then
      && after.host == a.host && OneMore(a.table, after.table, d.img, d.imagePath)
      && after.file == FileAfter(a.file, after.table, e.save) && (reply <==> NothingFails(e.save))
    else after == a && (reply <==> e.valid && e.parse && !HasPrefix(d.imagePath, MOUNT_PATH))
  }

  lemma StartAnswer(a: State, d: Domain, e: StartEnv)
    ensures StartIs(a, StartCall(a, d, e).0, StartCall(a, d, e).1, d, e)
    ensures Apply(a, Starts(d, e)) == StartCall(a, d, e).0
  {
  }

  // ----- Stop -----

  /** The VM's disk is there: a regular file, or a link whose target is there. */
  predicate DiskIsThere(h: Host, d: Domain) {
    d.vmPath in h.root && (h.root[d.vmPath].Symlink? ==> Lookup(h, h.root[d.vmPath].target).Some?)
  }

  predicate Proceeds(h: Host, d: Domain, valid: bool, e: StopEnv) {
    valid && e.parse && e.status && (e.statFails || DiskIsThere(h, d))
  }

  lemma ProceedsIs(site: Site, h: Host, d: Domain, e: StopEnv)
    requires HostInv(site, h) && !HasPrefix(d.vmPath, MOUNT_PATH)
    ensures StopProceeds(h, d, e) <==> Proceeds(h, d, true, e)
  {
    OutsideMounts(site, h, d.vmPath);
  }

  /** The devices without those that a close takes away: it works on a device whose unmount has worked too. */
  function Closed(devices: map<string, string>, mounts: map<string, string>, id: string, unmount: bool, close: bool)
    : map<string, string>
  {
    if close && (unmount || MountDir(id) !in mounts) then devices - {id} else devices
  }

  function Unmounted(mounts: map<string, string>, id: string, unmount: bool): map<string, string> {
    if unmount then mounts - {MountDir(id)} else mounts
  }

  lemma CloseVmAnswer(site: Site, h: Host, d: Domain, e: StopEnv)
    requires site.WellFormed() && HostInv(site, h) && d.vm in site.vms
    ensures CloseVm(h, d, e) == h.(devices := Closed(h.devices, h.mounts, d.vm, e.unmountVm, e.closeVm),
                                   mounts := Unmounted(h.mounts, d.vm, e.unmountVm))
  {
    var dir := MountDir(d.vm);
    if dir in h.mounts {
      MountDirInjective(d.vm, h.mounts[dir]);
    }
    if d.vm in h.devices {
      CloseAnswer(site, h, d.vm, dir, e.unmountVm, e.closeVm) by {
        if dir !in h.mounts {
          ParentIsNotMounted(site, h, d.vm);
          assert forall m | m in h.mounts :: m == MountDir(h.mounts[m]);
          assert DirOf(dir) !in h.mounts;
        }
      }
    } else {
      assert h.devices - {d.vm} == h.devices && h.mounts - {dir} == h.mounts;
    }
  }

  /** Unmounting a path that stands for the mount of a device, then closing the device. */
  lemma CloseAnswer(site: Site, h: Host, id: string, path: string, unmount: bool, close: bool)
    requires HostInv(site, h)
    requires path == MountDir(id) || (path !in h.mounts && DirOf(path) == MountDir(id))
    requires path == MountDir(id) && path !in h.mounts ==> DirOf(path) !in h.mounts
    ensures DeleteVolume(Unmount(h, path, unmount), id, close)
      == h.(devices := Closed(h.devices, h.mounts, id, unmount, close), mounts := Unmounted(h.mounts, id, unmount))
  {
    var unmounted := Unmount(h, path, unmount);
    assert unmounted.mounts == Unmounted(h.mounts, id, unmount) by {
      if unmount && path !in h.mounts {
        assert h.mounts - {DirOf(path)} == h.mounts - {MountDir(id)};
      }
    }
    StillMounted(site, h, id, unmount);
    if id !in h.devices {
      assert h.devices - {id} == h.devices;
    }
  }

  lemma StillMounted(site: Site, h: Host, id: string, unmount: bool)
    requires HostInv(site, h)
    ensures var mounts := Unmounted(h.mounts, id, unmount);
      (exists dir | dir in mounts :: mounts[dir] == id) <==> !unmount && MountDir(id) in h.mounts
  {
    var mounts := Unmounted(h.mounts, id, unmount);
    if dir :| dir in mounts && mounts[dir] == id {
      assert dir == MountDir(id);
    }
    if !unmount && MountDir(id) in h.mounts {
      MountDirInjective(id, h.mounts[MountDir(id)]);
      assert mounts[MountDir(id)] == id;
    }
  }

  lemma TearDownAnswer(site: Site, h: Host, d: Domain, e: StopEnv)
    requires site.WellFormed() && HostInv(site, h) && d.img in site.imgs
    ensures TearDownImage(h, d, DecryptedPath(d.img), e)
      == h.(devices := Closed(h.devices, h.mounts, d.img, e.unmountImage, e.closeImage),
            mounts := Unmounted(h.mounts, d.img, e.unmountImage))
  {
    UnderMount(d.img, d.img);
    H.FilesAreNoMountPoints(site, h, d.img);
    CloseAnswer(site, h, d.img, DecryptedPath(d.img), e.unmountImage, e.closeImage);
  }

  /** The last counted VM of its image. */
  predicate IsLast(t: A.Table, img: string) {
    img in t && t[img].count == 1
  }

  /**
   The host after a Stop that proceeds: the VM's mount and device are gone as far as their
   unmount and close work, whatever the table says, and so are the image's for the last VM.
   */
  function HostStopped(h: Host, d: Domain, last: bool, e: StopEnv): Host {
    var devices := Closed(h.devices, h.mounts, d.vm, e.unmountVm, e.closeVm);
    var mounts := Unmounted(h.mounts, d.vm, e.unmountVm);
    if last then h.(devices := Closed(devices, mounts, d.img, e.unmountImage, e.closeImage),
                    mounts := Unmounted(mounts, d.img, e.unmountImage))
    else h.(devices := devices, mounts := mounts)
  }

  /**
   Stop: when it does not proceed nothing changes. Otherwise it succeeds, the count falls by
   one if it was positive, and the file is saved only then.
   */
  ghost predicate StopIs(a: State, after: State, reply: bool, d: Domain, valid: bool, e: StopEnv, save: A.SaveFaults) {
    if !Proceeds(a.host, d, valid, e) then after == a && !reply
    else
      && reply && after.host == HostStopped(a.host, d, IsLast(a.table, d.img), e)
      && (if Counted(a.table, d.img)
          then OneLess(a.table, after.table, d.img) && after.file == FileAfter(a.file, after.table, save)
          else after.table == a.table && after.file == a.file)
  }

  lemma StopAnswer(site: Site, a: State, d: Domain, valid: bool, e: StopEnv, save: A.SaveFaults)
    requires site.WellFormed() && AgentInv(site, a) && d.vm in site.vms && d.img in site.imgs
    requires !HasPrefix(d.vmPath, MOUNT_PATH)
    ensures var (after, reply) := StopCall(a, d, valid, e, save);
      StopIs(a, after, reply, d, valid, e, save) && Apply(a, Stops(d, valid, e, save)) == after
  {
    ProceedsIs(site, a.host, d, e);
    if Proceeds(a.host, d, valid, e) {
      var closed := CloseVm(a.host, d, e);
      CloseVmAnswer(site, a.host, d, e);
      H.CloseVmShrinks(site, a.host, d, e);
      TearDownAnswer(site, closed, d, e);
    }
  }

  /** Unmount and close of the VM work: afterwards its mount and its device are gone, for every verdict of the table. */
  lemma StoppedVmIsClosed(site: Site, a: State, d: Domain, e: StopEnv, save: A.SaveFaults)
    requires site.WellFormed() && AgentInv(site, a) && d.vm in site.vms && d.img in site.imgs
    requires !HasPrefix(d.vmPath, MOUNT_PATH)
    requires Proceeds(a.host, d, true, e) && e.unmountVm && e.closeVm
    ensures var after := Apply(a, Stops(d, true, e, save));
      MountDir(d.vm) !in after.host.mounts && d.vm !in after.host.devices
  {
    StopAnswer(site, a, d, true, e, save);
  }

  /** The host after a Stop is that of a Stop with the verdict and the path of the table. */
  lemma StopHost(a: State, d: Domain, e: StopEnv, save: A.SaveFaults)
    ensures StopCall(a, d, true, e, save).0.host ==
      Stop(a.host, d, !Counted(a.table, d.img) || IsLast(a.table, d.img),
           if Counted(a.table, d.img) then a.table[d.img].path else "", e)
  {
  }

  // ----- Prepare -----

  /** The table that a lookup meets: an empty one is loaded from the file if that can be read. */
  function TableMet(a: State, readFails: bool): A.Table {
    if a.table == map[] && !readFails && a.file.Encoded? then a.file.table else a.table
  }

  /** Neither the disk's info nor the domain has a path. */
  predicate HasNoPath(h: Host, d: Domain, e: PrepareEnv) {
    if Linked(h, d) then d.imagePath == ""
    else e.diskInfo.Some? && Scanned(e.diskInfo.value, QEMU_FIELDS.backingFile, d.imagePath) == ""
  }

  predicate Asks(h: Host, d: Domain, valid: bool, e: PrepareEnv) {
    valid && e.parse && HasNoPath(h, d, e)
  }

  /**
   Prepare asks the table exactly when it has found no path, and then, if the table is
   empty, loads the file first; counts and file never change otherwise, and the path that
   it goes on with is the stored one.
   */
  ghost predicate PrepareIs(a: State, after: State, reply: Outcome, d: Domain, valid: bool, readFails: bool,
                            e: PrepareEnv)
  {
    if !valid then after == a && reply == Returned(false)
    else
      var met := TableMet(a, readFails);
      var asks := Asks(a.host, d, valid, e);
      var sure := e.(savedPath := if asks && d.img in met then met[d.img].path else "");
      var outcome := PrepareOutcome(a.host, d, sure);
      && after.file == a.file && after.table == (if asks then met else a.table)
      && after.host == outcome.0 && reply == outcome.1
  }

  lemma PrepareCallAnswer(site: Site, a: State, d: Domain, valid: bool, readFails: bool, e: PrepareEnv)
    requires site.WellFormed() && HostInv(site, a.host) && Placed(site, a, Prepares(d, valid, readFails, e))
    ensures var (after, reply) := PrepareCall(a, d, valid, readFails, e);
      && PrepareIs(a, after, reply, d, valid, readFails, e)
      && Apply(a, Prepares(d, valid, readFails, e)) == after
  {
    LinkedIsSymlink(site, a.host, d);
    PrepareAnswer(site, a.host, d, e.(savedPath := SavedPath(a, d, readFails, e)));
  }

  /** A VM from shutoff without a path in its domain: it goes on with the stored path, or it is refused. */
  lemma StoredPathIsUsed(site: Site, a: State, d: Domain, readFails: bool, e: PrepareEnv)
    requires site.WellFormed() && AgentInv(site, a) && Placed(site, a, Prepares(d, true, readFails, e))
    requires Linked(a.host, d) && d.imagePath == "" && e.parse
    ensures var met := TableMet(a, readFails);
      var (after, reply) := PrepareCall(a, d, true, readFails, e);
      if d.img in met then
        var sure := e.(savedPath := DecryptedPath(d.img));
        && ImagePath(a.host, d, sure) == Some(DecryptedPath(d.img))
        && (after.host, reply) == (PrepareOutcome(a.host, d, sure).0, PrepareOutcome(a.host, d, sure).1)
      else after.host == a.host && reply == Returned(false)
  {
    var met := TableMet(a, readFails);
    PrepareCallAnswer(site, a, d, true, readFails, e);
    PathOfPrepare(site, a.host, d, e.(savedPath := if d.img in met then met[d.img].path else ""));
  }
}
