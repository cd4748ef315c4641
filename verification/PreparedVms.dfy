/**
 The life of a VM's disk: the first Prepare that succeeds puts it into the VM's volume,
 later calls keep it there, and every later Prepare that succeeds shows it again.
 */
module PreparedVms {
  import opened Common
  import opened Volumes
  import opened VolumeTheorems
  import opened HostRuns
  import opened PrepareAnswers
  import opened VolumeAnswers
  import Text

  // ----- a prepared VM stays prepared -----

  /** The VM's disk is the link into its mount, and its volume holds `data` as the disk. */
  ghost predicate Settled(site: Site, h: Host, vm: string, vmPath: string, data: Bytes) {
    var sparse := VmSparsePath(vm, vmPath);
    && site.IsVm(vm, vmPath)
    && vmPath in h.root && h.root[vmPath] == Symlink(Under(MountDir(vm), "disk"))
    && IsVolume(h, sparse) && "disk" in h.root[sparse].files && h.root[sparse].files["disk"] == data
    && (forall id | id in h.devices :: h.devices[id] == sparse <==> id == vm)
  }

  /** Other VMs use other files, a VM keeps its disk path, and the VM's disk.info is not removed. */
  ghost predicate Apart(h: Host, vm: string, vmPath: string, ev: Event) {
    match ev
    case Prepares(d, _) =>
      if d.vm == vm then d.vmPath == vmPath
      else d.vmPath != vmPath && VmSparsePath(d.vm, d.vmPath) != VmSparsePath(vm, vmPath)
    case Stops(_, _, _, _) => true
    case Writes(_, _) => true
    case Removes(file) => file in h.watched ==> h.watched[file] != vm
  }

  /** The disk content after an event: a guest write through the mount counts, nothing else does. */
  function DiskAfter(h: Host, vm: string, ev: Event, data: Bytes): Bytes {
    if ev.Writes? && ev.vm == vm && MountDir(vm) in h.mounts then ev.data else data
  }

  lemma SettledPrepare(site: Site, h: Host, vm: string, vmPath: string, data: Bytes, d: Domain, e: PrepareEnv)
    requires site.WellFormed() && HostInv(site, h) && Settled(site, h, vm, vmPath, data)
    requires PreparePlaced(site, h, d, e) && Apart(h, vm, vmPath, Prepares(d, e))
    ensures Settled(site, Prepare(h, d, e).0, vm, vmPath, data)
  {
    var sparse := VmSparsePath(vm, vmPath);
    var after := Prepare(h, d, e).0;
    PrepareKeeps(site, h, d, e);
    OutsideMounts(site, h, vmPath);
    assert IsSymlink(h, vmPath);
    assert vmPath !in OwnFiles(h, d) + site.imgSparse;
    assert !HasPrefix(vmPath, MOUNT_PATH);
    forall id | id in after.devices ensures after.devices[id] == sparse <==> id == vm {
      if id !in h.devices {
        assert id == d.vm || id == d.img;
      }
    }
  }

  lemma SettledStep(site: Site, h: Host, vm: string, vmPath: string, data: Bytes, ev: Event)
    requires site.WellFormed() && HostInv(site, h) && Settled(site, h, vm, vmPath, data)
    requires Placed(site, h, ev) && Apart(h, vm, vmPath, ev)
    ensures Settled(site, Apply(h, ev), vm, vmPath, DiskAfter(h, vm, ev, data))
  {
    match ev
    case Prepares(d, e) => SettledPrepare(site, h, vm, vmPath, data, d, e);
    case Stops(d, isLastVm, imagePath, e) => StopKeeps(site, h, d, isLastVm, imagePath, e);
    case Writes(writer, written) =>
      GuestWriteKeeps(site, h, writer, written);
    case Removes(file) =>
      RemovalKeeps(site, h, file);
      assert !HasPrefix(vmPath, MOUNT_PATH);
  }

  ghost predicate ApartRun(site: Site, h: Host, vm: string, vmPath: string, evs: seq<Event>) {
    PlacedRun(site, h, evs) && forall k | 0 <= k < |evs| :: Apart(Run(h, evs[..k]), vm, vmPath, evs[k])
  }

  /** What the VM last wrote during the run, or what it had before. */
  function LastWritten(h: Host, vm: string, evs: seq<Event>, data: Bytes): Bytes {
    if evs == [] then data
    else
      var init := evs[..|evs| - 1];
      DiskAfter(Run(h, init), vm, evs[|evs| - 1], LastWritten(h, vm, init, data))
  }

  /**
   Over any number of Prepares and Stops, successful or not, of this VM and of others,
   until its disk.info is removed: the VM's disk stays the link into its mount, no call
   recreates or recopies it, and its volume holds exactly what the VM last wrote.
   */
  lemma {:induction false} PreparedStaysPrepared(site: Site, h: Host, vm: string, vmPath: string, data: Bytes,
                                                 evs: seq<Event>)
    requires site.WellFormed() && HostInv(site, h) && Settled(site, h, vm, vmPath, data)
    requires ApartRun(site, h, vm, vmPath, evs)
    ensures Settled(site, Run(h, evs), vm, vmPath, LastWritten(h, vm, evs, data))
  {
    if evs != [] {
      var init := evs[..|evs| - 1];
      PlacedInit(site, h, evs);
      assert forall k | 0 <= k < |init| :: init[k] == evs[k] && init[..k] == evs[..k];
      PreparedStaysPrepared(site, h, vm, vmPath, data, init);
      EveryRunKeepsHostInv(site, h, init);
      SettledStep(site, Run(h, init), vm, vmPath, LastWritten(h, vm, init, data), evs[|evs| - 1]);
    }
  }

  /** A first vmVolumeManager call without a failed removal settles the VM with its disk. */
  lemma FirstCallSettles(site: Site, h: Host, vm: string, vmPath: string, e: VmEnv, data: Bytes)
    requires site.WellFormed() && HostInv(site, h) && site.IsVm(vm, vmPath) && BaseOf(vmPath) == "disk"
    requires vmPath in h.root && h.root[vmPath] == Regular(data)
    requires VmSparsePath(vm, vmPath) !in h.root && !e.statFails && e.link.remove
    requires VmVolumeManager(h, vm, vmPath, e).1
    ensures Settled(site, VmVolumeManager(h, vm, vmPath, e).0, vm, vmPath, data)
  {
    var h2 := HostForCopy(h, vm, vmPath, e);
    SuccessCopiesIfNew(h, vm, vmPath, e);
    FreshVolume(site, h, vm, vmPath, e);
    assert vmPath != VmSparsePath(vm, vmPath) && !HasPrefix(vmPath, MOUNT_PATH);
    CopyAndLinkContent(site, h2, vm, vmPath, e, data);
    CopyAndLinkKeeps(site, h2, vm, vmPath, e);
  }

  // ----- opening again -----

  lemma ReopenedVolume(site: Site, h: Host, vm: string, vmPath: string, e: VmEnv)
    requires site.WellFormed() && HostInv(site, h) && site.IsVm(vm, vmPath)
    requires VmSparsePath(vm, vmPath) in h.root && VmVolumeManager(h, vm, vmPath, e).1
    ensures var sparse := VmSparsePath(vm, vmPath);
      var after := VmVolumeManager(h, vm, vmPath, e).0;
      && MountDir(vm) in after.mounts && after.mounts[MountDir(vm)] == vm
      && vm in after.devices && after.devices[vm] == sparse && VolumesKept(h, after) && FilesKept(h, after, {sparse})
  {
    OpenAndMount(site, h, VmSparsePath(vm, vmPath), vm, "disk", e.create, e.mount);
  }

  /** After any successful vmVolumeManager call a prepared VM reads through its disk path exactly its disk. */
  lemma PreparedVmReadsItsDisk(site: Site, h: Host, vm: string, vmPath: string, e: VmEnv, data: Bytes)
    requires site.WellFormed() && HostInv(site, h) && Settled(site, h, vm, vmPath, data)
    requires VmVolumeManager(h, vm, vmPath, e).1
    ensures Read(VmVolumeManager(h, vm, vmPath, e).0, vmPath) == Some(data)
  {
    var after := VmVolumeManager(h, vm, vmPath, e).0;
    VmManagerKeeps(site, h, vm, vmPath, e);
    ReopenedVolume(site, h, vm, vmPath, e);
    assert vmPath != VmSparsePath(vm, vmPath);
    LinkedVmReads(site, after, vm, vmPath, data);
  }

  lemma LinkedVmReads(site: Site, h: Host, vm: string, vmPath: string, data: Bytes)
    requires site.WellFormed() && HostInv(site, h) && Settled(site, h, vm, vmPath, data)
    requires MountDir(vm) in h.mounts && h.mounts[MountDir(vm)] == vm
    requires vm in h.devices && h.devices[vm] == VmSparsePath(vm, vmPath)
    ensures Read(h, vmPath) == Some(data)
  {
    assert !HasPrefix(vmPath, MOUNT_PATH);
    OutsideMounts(site, h, vmPath);
    UnderMount(vm, "disk");
  }

  // ----- from one Prepare to another -----

  /** The image-volume part of Prepare leaves the VM's disk, volume and sparse file as they were. */
  lemma ImageWorkKeeps(site: Site, h: Host, d: Domain, path: string, e: PrepareEnv)
    requires site.WellFormed() && HostInv(site, h) && site.IsVm(d.vm, d.vmPath) && d.img in site.imgs && e.header.Some?
    requires e.header.value ==> ImageSparsePath(path) in site.imgSparse
    ensures var (h1, _, _) := if e.header.value then PrepareImage(h, d, path, e) else (h, true, "");
      && Kept(site, h, h1, d, site.imgSparse) && IsSymlink(h1, d.vmPath) == IsSymlink(h, d.vmPath)
      && (VmSparsePath(d.vm, d.vmPath) in h1.root <==> VmSparsePath(d.vm, d.vmPath) in h.root)
  {
    assert VmSparsePath(d.vm, d.vmPath) !in site.imgSparse && !HasPrefix(VmSparsePath(d.vm, d.vmPath), MOUNT_PATH);
    if e.header.value {
      PrepareImageKeeps(site, h, d, path, e);
      DiskLookup(site, h, PrepareImage(h, d, path, e).0, d.vmPath);
    }
  }

  /** The disk part of Prepare, for a disk that is not linked. */
  lemma FreshDiskSettles(site: Site, h: Host, d: Domain, backing: string, backingFormat: string, e: PrepareEnv)
    requires site.WellFormed() && HostInv(site, h) && site.IsVm(d.vm, d.vmPath) && BaseOf(d.vmPath) == "disk"
    requires VmSparsePath(d.vm, d.vmPath) !in h.root && !e.vm.statFails && e.vm.link.remove && !IsSymlink(h, d.vmPath)
    requires PrepareVm(h, d, true, backing, backingFormat, e).1 == Returned(true)
    ensures var (after, _, ran) := PrepareVm(h, d, true, backing, backingFormat, e);
      |ran| == 2 && Settled(site, after, d.vm, d.vmPath, e.resizedDisk(ran[1]))
  {
    var (h1, _, ran) := RecreateDisk(h, d, backing, backingFormat, e);
    RecreateKeeps(site, h, d, backing, backingFormat, e);
    RecreatedIsRegular(site, h, d, backing, backingFormat, e);
    assert VmSparsePath(d.vm, d.vmPath) != d.vmPath && !HasPrefix(VmSparsePath(d.vm, d.vmPath), MOUNT_PATH);
    FirstCallSettles(site, h1, d.vm, d.vmPath, e.vm, e.resizedDisk(ran[1]));
  }

  /**
   The first Prepare that succeeds for a VM with no volume yet: it recreates the disk,
   and afterwards the disk is the link and the VM's volume holds what the resize left.
   */
  lemma FirstPrepareSettles(site: Site, h: Host, d: Domain, e: PrepareEnv)
    requires site.WellFormed() && HostInv(site, h) && PreparePlaced(site, h, d, e) && BaseOf(d.vmPath) == "disk"
    requires VmSparsePath(d.vm, d.vmPath) !in h.root && !e.vm.statFails && e.vm.link.remove && !IsSymlink(h, d.vmPath)
    requires Prepare(h, d, e).1 == Returned(true) && GetsVolume(ImagePath(h, d, e).value, e)
    ensures var (after, _, ran) := Prepare(h, d, e);
      |ran| == 2 && Settled(site, after, d.vm, d.vmPath, e.resizedDisk(ran[1]))
  {
    var path := ImagePath(h, d, e).value;
    var (h1, _, backingFormat) := if e.header.value then PrepareImage(h, d, path, e) else (h, true, "");
    ImageWorkKeeps(site, h, d, path, e);
    FreshDiskSettles(site, h1, d, BackingFile(d, e), backingFormat, e);
  }

  lemma SettledThroughImage(site: Site, h: Host, d: Domain, path: string, e: PrepareEnv, data: Bytes)
    requires site.WellFormed() && HostInv(site, h) && Settled(site, h, d.vm, d.vmPath, data) && d.img in site.imgs
    requires e.header.Some?
    requires e.header.value ==> ImageSparsePath(path) in site.imgSparse
    ensures var (h1, _, _) := if e.header.value then PrepareImage(h, d, path, e) else (h, true, "");
      HostInv(site, h1) && Settled(site, h1, d.vm, d.vmPath, data)
  {
    var sparse := VmSparsePath(d.vm, d.vmPath);
    var (h1, _, _) := if e.header.value then PrepareImage(h, d, path, e) else (h, true, "");
    ImageWorkKeeps(site, h, d, path, e);
    assert d.vmPath !in site.imgSparse && !HasPrefix(d.vmPath, MOUNT_PATH);
    forall id | id in h1.devices ensures h1.devices[id] == sparse <==> id == d.vm {}
  }

  /** A linked disk is not recreated. */
  lemma LinkedDiskIsKept(h: Host, d: Domain, backing: string, backingFormat: string, e: PrepareEnv)
    ensures var (after, r, ran) := PrepareVm(h, d, false, backing, backingFormat, e);
      var (managed, ok) := VmVolumeManager(h, d.vm, d.vmPath, e.vm);
      after == managed && r == Returned(ok) && ran == []
  {
  }

  /**
   A later Prepare of a VM whose disk is in its volume makes no qemu-img call; if it
   succeeds and gives the VM a volume at all, the VM reads exactly its disk through its
   path, and otherwise reads what it read before.
   */
  lemma LaterPrepareReads(site: Site, h: Host, d: Domain, e: PrepareEnv, data: Bytes)
    requires site.WellFormed() && HostInv(site, h) && PreparePlaced(site, h, d, e)
    requires Settled(site, h, d.vm, d.vmPath, data)
    requires Prepare(h, d, e).1 == Returned(true)
    ensures var (after, _, ran) := Prepare(h, d, e);
      && ran == []
      && (if GetsVolume(ImagePath(h, d, e).value, e) then Read(after, d.vmPath) == Some(data) else after == h)
  {
    var path := ImagePath(h, d, e).value;
    var (h1, _, backingFormat) := if e.header.value then PrepareImage(h, d, path, e) else (h, true, "");
    OutsideMounts(site, h, d.vmPath);
    assert !HasPrefix(d.vmPath, MOUNT_PATH);
    if GetsVolume(path, e) {
      SettledThroughImage(site, h, d, path, e, data);
      LinkedDiskIsKept(h1, d, BackingFile(d, e), backingFormat, e);
      PreparedVmReadsItsDisk(site, h1, d.vm, d.vmPath, e.vm, data);
    }
  }

  /** What follows a first Prepare: any events of other VMs and of this one, then a Prepare of this VM. */
  ghost predicate ThenAgain(site: Site, h: Host, d: Domain, evs: seq<Event>, again: Domain, e: PrepareEnv) {
    && ApartRun(site, h, d.vm, d.vmPath, evs)
    && again.vm == d.vm && again.vmPath == d.vmPath && PreparePlaced(site, Run(h, evs), again, e)
    && Prepare(Run(h, evs), again, e).1 == Returned(true)
    && GetsVolume(ImagePath(Run(h, evs), again, e).value, e)
  }

  /**
   The whole life of a disk: after a first Prepare that succeeds, any number of Prepares,
   Stops, guest writes and failures, and a last Prepare that succeeds, the VM reads exactly
   what it last wrote, or what the first Prepare's resize left if it never wrote.
   */
  lemma {:induction false} DiskSurvives(site: Site, h: Host, d: Domain, first: PrepareEnv, evs: seq<Event>,
                                        again: Domain, last: PrepareEnv)
    requires site.WellFormed() && HostInv(site, h) && PreparePlaced(site, h, d, first) && BaseOf(d.vmPath) == "disk"
    requires VmSparsePath(d.vm, d.vmPath) !in h.root && !first.vm.statFails && first.vm.link.remove
    requires !IsSymlink(h, d.vmPath)
    requires Prepare(h, d, first).1 == Returned(true) && GetsVolume(ImagePath(h, d, first).value, first)
    requires ThenAgain(site, Prepare(h, d, first).0, d, evs, again, last)
    ensures var (h1, _, ran) := Prepare(h, d, first);
      && |ran| == 2
      && Read(Prepare(Run(h1, evs), again, last).0, d.vmPath)
           == Some(LastWritten(h1, d.vm, evs, first.resizedDisk(ran[1])))
  {
    var (h1, _, ran) := Prepare(h, d, first);
    FirstPrepareSettles(site, h, d, first);
    PrepareKeeps(site, h, d, first);
    var data := LastWritten(h1, d.vm, evs, first.resizedDisk(ran[1]));
    PreparedStaysPrepared(site, h1, d.vm, d.vmPath, first.resizedDisk(ran[1]), evs);
    EveryRunKeepsHostInv(site, h1, evs);
    LaterPrepareReads(site, Run(h1, evs), again, last, data);
  }

  // ----- the removal of disk.info -----

  /** The disk.info of other VMs is another file. */
  ghost predicate OwnInfo(vm: string, file: string, ev: Event) {
    ev.Prepares? && ev.d.vm != vm ==> DiskInfoPath(ev.d.vmPath) != file
  }

  lemma WatchedStep(site: Site, h: Host, ev: Event, vm: string, file: string)
    requires site.WellFormed() && HostInv(site, h) && Placed(site, h, ev) && OwnInfo(vm, file, ev)
    requires file in h.watched && h.watched[file] == vm
    ensures file in Apply(h, ev).watched && Apply(h, ev).watched[file] == vm
  {
    match ev
    case Prepares(d, e) => WatchedAfterPrepare(site, h, d, e);
    case Stops(d, isLastVm, imagePath, e) => StopKeeps(site, h, d, isLastVm, imagePath, e);
    case Writes(writer, data) => GuestWriteKeeps(site, h, writer, data);
    case Removes(removed) => RemovalKeeps(site, h, removed);
  }

  lemma {:induction false} WatchedStays(site: Site, h: Host, evs: seq<Event>, vm: string, file: string)
    requires site.WellFormed() && HostInv(site, h) && PlacedRun(site, h, evs)
    requires forall k | 0 <= k < |evs| :: OwnInfo(vm, file, evs[k])
    requires file in h.watched && h.watched[file] == vm
    ensures file in Run(h, evs).watched && Run(h, evs).watched[file] == vm
  {
    if evs != [] {
      var init := evs[..|evs| - 1];
      PlacedInit(site, h, evs);
      assert forall k | 0 <= k < |init| :: init[k] == evs[k];
      WatchedStays(site, h, init, vm, file);
      EveryRunKeepsHostInv(site, h, init);
      WatchedStep(site, Run(h, init), evs[|evs| - 1], vm, file);
    }
  }

  /**
   The end of a VM's life, any events after its first Prepare: the handler that this Prepare
   has registered is still in force when the watched file is removed, and it empties the
   VM's volume if and only if the VM is then mounted. A VM that is deleted after its Stop
   leaves the disk that it last wrote in its volume.
   */
  lemma {:induction false} RemovalEmptiesExactlyIfMounted(site: Site, h: Host, d: Domain, first: PrepareEnv,
                                                          evs: seq<Event>)
    requires site.WellFormed() && HostInv(site, h) && PreparePlaced(site, h, d, first) && BaseOf(d.vmPath) == "disk"
    requires VmSparsePath(d.vm, d.vmPath) !in h.root && !IsSymlink(h, d.vmPath)
    requires !first.vm.statFails && first.vm.link.remove && first.vm.watch
    requires Prepare(h, d, first).1 == Returned(true) && GetsVolume(ImagePath(h, d, first).value, first)
    requires ApartRun(site, Prepare(h, d, first).0, d.vm, d.vmPath, evs)
    requires forall k | 0 <= k < |evs| :: OwnInfo(d.vm, DiskInfoPath(d.vmPath), evs[k])
    ensures var (h1, _, ran) := Prepare(h, d, first);
      var last := Run(h1, evs);
      var gone := DiskInfoRemoved(last, DiskInfoPath(d.vmPath));
      var sparse := VmSparsePath(d.vm, d.vmPath);
      && |ran| == 2 && IsVolume(gone, sparse)
      && (MountDir(d.vm) in last.mounts ==> gone.root[sparse] == Sparse(map[]))
      && (MountDir(d.vm) !in last.mounts ==>
            "disk" in gone.root[sparse].files
            && gone.root[sparse].files["disk"] == LastWritten(h1, d.vm, evs, first.resizedDisk(ran[1])))
  {
    var (h1, _, ran) := Prepare(h, d, first);
    var last, file := Run(h1, evs), DiskInfoPath(d.vmPath);
    FirstPrepareSettles(site, h, d, first);
    PrepareKeeps(site, h, d, first);
    WatchedAfterPrepare(site, h, d, first);
    WatchedStays(site, h1, evs, d.vm, file);
    PreparedStaysPrepared(site, h1, d.vm, d.vmPath, first.resizedDisk(ran[1]), evs);
    EveryRunKeepsHostInv(site, h1, evs);
    EndOfSettled(site, last, d.vm, d.vmPath, file, LastWritten(h1, d.vm, evs, first.resizedDisk(ran[1])));
  }

  lemma EndOfSettled(site: Site, h: Host, vm: string, vmPath: string, file: string, data: Bytes)
    requires site.WellFormed() && HostInv(site, h) && Settled(site, h, vm, vmPath, data)
    requires file in h.watched && h.watched[file] == vm
    ensures var sparse := VmSparsePath(vm, vmPath);
      var gone := DiskInfoRemoved(h, file);
      && IsVolume(gone, sparse)
      && gone.root[sparse].files == if MountDir(vm) in h.mounts then map[] else h.root[sparse].files
  {
    RemovalAnswer(site, h, file);
    if MountDir(vm) !in h.mounts {
      var sparse := VmSparsePath(vm, vmPath);
      assert !HasPrefix(sparse, MOUNT_PATH) && DirOf(sparse) <= sparse;
      assert MOUNT_PATH <= MountDir(vm);
    }
  }

  /**
   The file whose removal ends the VM's life lies beside its disk, as disk.info, if and only
   if the directory's path has no "disk" in it. Otherwise the removal of the disk.info beside
   the disk is not seen, and the VM still reads its disk.
   */
  lemma DiskInfoBesideTheDisk(site: Site, h: Host, d: Domain, first: PrepareEnv, dir: string)
    requires site.WellFormed() && HostInv(site, h) && PreparePlaced(site, h, d, first)
    requires d.vmPath == Under(dir, "disk") && BaseOf(d.vmPath) == "disk"
    requires VmSparsePath(d.vm, d.vmPath) !in h.root && !IsSymlink(h, d.vmPath)
    requires !first.vm.statFails && first.vm.link.remove && first.vm.watch
    requires Prepare(h, d, first).1 == Returned(true) && GetsVolume(ImagePath(h, d, first).value, first)
    requires Under(dir, "disk.info") !in h.watched
    ensures var (h1, _, ran) := Prepare(h, d, first);
      var gone := DiskInfoRemoved(h1, Under(dir, "disk.info"));
      && |ran| == 2
      && Read(gone, d.vmPath) ==
           if Text.Contains(dir, "disk") then Some(first.resizedDisk(ran[1])) else None
  {
    var (h1, _, ran) := Prepare(h, d, first);
    FirstPrepareSettles(site, h, d, first);
    PrepareKeeps(site, h, d, first);
    WatchedAfterPrepare(site, h, d, first);
    FilesBesideTheDisk(d.vm, dir);
    MountedAfterPrepare(site, h, d, first);
    if Text.Contains(dir, "disk") {
      LinkedVmReads(site, h1, d.vm, d.vmPath, first.resizedDisk(ran[1]));
    } else {
      EmptiedVmReads(site, h1, d.vm, d.vmPath, Under(dir, "disk.info"), first.resizedDisk(ran[1]));
    }
  }

  lemma EmptiedVmReads(site: Site, h: Host, vm: string, vmPath: string, file: string, data: Bytes)
    requires site.WellFormed() && HostInv(site, h) && Settled(site, h, vm, vmPath, data)
    requires file in h.watched && h.watched[file] == vm && MountDir(vm) in h.mounts
    ensures Read(DiskInfoRemoved(h, file), vmPath) == None
  {
    RemovalAnswer(site, h, file);
    RemovalKeeps(site, h, file);
    MountDirInjective(vm, h.mounts[MountDir(vm)]);
    assert h.devices[vm] == VmSparsePath(vm, vmPath) && vmPath != VmSparsePath(vm, vmPath);
    assert !HasPrefix(vmPath, MOUNT_PATH);
    OutsideMounts(site, DiskInfoRemoved(h, file), vmPath);
    UnderMount(vm, "disk");
  }
}
