/**
 What Prepare and Stop keep of the host's volumes, files and mounts, whatever system
 call fails: no volume that existed is ever overwritten, a disk is never lost, and a
 prepared VM stays prepared.
 */
module VolumeTheorems {
  import opened Common
  import opened Volumes

  /**
   The identifiers and paths in use on a host. VM disks and sparse files are kept
   outside the mount directory, and no path has two roles.
   */
  datatype Site = Site(
    vms: set<string>, imgs: set<string>, vmPaths: set<string>, vmSparse: set<string>,
    imgSparse: set<string>) {
    ghost predicate WellFormed() {
      && vms !! imgs && vmPaths !! vmSparse && vmPaths !! imgSparse && vmSparse !! imgSparse
      && (forall p | p in vmPaths + vmSparse + imgSparse :: !HasPrefix(p, MOUNT_PATH))
      && (forall id | id in vms + imgs :: '/' !in id)
    }

    ghost predicate IsVm(vm: string, vmPath: string) {
      vm in vms && vmPath in vmPaths && VmSparsePath(vm, vmPath) in vmSparse
    }
  }

  /** Mounted implies device open, at the device's own mount point; open devices have a sparse file of their kind. */
  ghost predicate HostInv(site: Site, h: Host) {
    && (forall dir | dir in h.mounts :: h.mounts[dir] in h.devices && dir == MountDir(h.mounts[dir]))
    && (forall id | id in h.devices ::
      id in site.vms + site.imgs && h.devices[id] in h.root && h.root[h.devices[id]].Sparse?)
    && (forall id | id in h.devices :: h.devices[id] in if id in site.vms then site.vmSparse else site.imgSparse)
    && (forall p | p in h.root && h.root[p].Sparse? :: p in site.vmSparse + site.imgSparse)
    && (forall file | file in h.watched :: h.watched[file] in site.vms)
  }

  predicate IsVolume(h: Host, p: string) {
    p in h.root && h.root[p].Sparse?
  }

  /** Every volume of the first host is in the second, with the same files. */
  ghost predicate VolumesKept(h: Host, after: Host) {
    forall p | IsVolume(h, p) :: p in after.root && after.root[p] == h.root[p]
  }

  /** No mount goes away or changes. */
  ghost predicate MountsKept(h: Host, after: Host) {
    forall dir | dir in h.mounts :: dir in after.mounts && after.mounts[dir] == h.mounts[dir]
  }

  // ----- paths and mounts -----

  lemma MountDirInjective(a: string, b: string)
    requires MountDir(a) == MountDir(b)
    ensures a == b
  {
    assert MountDir(a)[|MOUNT_PATH|..] == a && MountDir(b)[|MOUNT_PATH|..] == b;
  }

  /** A path outside the mount directory is never hidden by a mount. */
  lemma OutsideMounts(site: Site, h: Host, p: string)
    requires HostInv(site, h) && !HasPrefix(p, MOUNT_PATH)
    ensures DirOf(p) !in h.mounts
  {
    assert DirOf(p) <= p;
    assert DirOf(p) in h.mounts ==> MOUNT_PATH <= MountDir(h.mounts[DirOf(p)]);
  }

  lemma UnderMount(id: string, name: string)
    requires '/' !in name
    ensures DirOf(Under(MountDir(id), name)) == MountDir(id) && BaseOf(Under(MountDir(id), name)) == name
    ensures HasPrefix(Under(MountDir(id), name), MOUNT_PATH)
  {
    PartsOfPath(MountDir(id), name);
  }

  /** A device that is not open is not mounted. */
  lemma ClosedMeansUnmounted(site: Site, h: Host, id: string)
    requires HostInv(site, h) && id !in h.devices
    ensures MountDir(id) !in h.mounts
  {
    if MountDir(id) in h.mounts {
      MountDirInjective(id, h.mounts[MountDir(id)]);
    }
  }

  // ----- creating, mounting and the placeholder -----

  lemma CreateEffect(h: Host, sparse: string, id: string, o: CreateOutcome)
    ensures var (after, r) := CreateVolume(h, sparse, id, o);
      && VolumesKept(h, after) && after.mounts == h.mounts && after.watched == h.watched
      && (forall p | p != sparse :: (p in after.root <==> p in h.root) && (p in h.root ==> after.root[p] == h.root[p]))
      && (sparse in h.root ==> after.root == h.root)
      && (r == Done ==> id !in h.devices && after.devices == h.devices[id := sparse] && IsVolume(after, sparse))
      && (r == Done && sparse !in h.root ==> after.root[sparse] == Sparse(map[]))
      && (r != Done ==> after.devices == h.devices)
  {
  }

  lemma CreateKeeps(site: Site, h: Host, sparse: string, id: string, o: CreateOutcome)
    requires HostInv(site, h) && id in site.vms + site.imgs
    requires sparse in if id in site.vms then site.vmSparse else site.imgSparse
    ensures HostInv(site, CreateVolume(h, sparse, id, o).0)
  {
  }

  /**
   The truncating open of the placeholder never lands on a mounted volume: it runs
   only after the device was opened by the same call, which fails on an open device,
   so nothing is mounted there yet.
   */
  lemma PlaceholderMissesTheVolume(site: Site, h: Host, sparse: string, id: string, o: CreateOutcome, name: string)
    requires HostInv(site, h) && id in site.vms + site.imgs && '/' !in name
    requires sparse in if id in site.vms then site.vmSparse else site.imgSparse
    requires CreateVolume(h, sparse, id, o).1 == Done
    ensures var after := CreateVolume(h, sparse, id, o).0;
      && MountDir(id) !in after.mounts
      && Write(after, Under(MountDir(id), name), []).root == after.root[Under(MountDir(id), name) := Regular([])]
  {
    CreateEffect(h, sparse, id, o);
    ClosedMeansUnmounted(site, h, id);
    UnderMount(id, name);
  }

  /** checkMountPathExistsAndMountVolume on a device that was just opened. */
  lemma CheckMountKeeps(site: Site, h: Host, id: string, name: string, e: MountEnv)
    requires site.WellFormed() && HostInv(site, h) && id in h.devices && MountDir(id) !in h.mounts && '/' !in name
    ensures var (after, ok) := CheckMount(h, id, name, e);
      && HostInv(site, after) && VolumesKept(h, after)
      && after.devices == h.devices && after.watched == h.watched
      && FilesKept(h, after, {})
      && (after.mounts == h.mounts || after.mounts == h.mounts[MountDir(id) := id])
      && (ok ==> after.mounts == h.mounts[MountDir(id) := id])
  {
    var placeholder := Under(MountDir(id), name);
    UnderMount(id, name);
    var h1 := Write(h, placeholder, []);
    assert h1 == h.(root := h.root[placeholder := Regular([])]);
    assert forall p | IsVolume(h, p) :: p in site.vmSparse + site.imgSparse;
    assert HostInv(site, h1);
  }

  /** A write below the mount of an open device changes that device's volume and nothing else. */
  lemma WriteInVolume(site: Site, h: Host, id: string, name: string, data: Bytes)
    requires HostInv(site, h) && MountDir(id) in h.mounts && '/' !in name
    ensures var after := Write(h, Under(MountDir(id), name), data);
      && id in h.devices && IsVolume(h, h.devices[id])
      && after == h.(root := h.root[h.devices[id] := Sparse(h.root[h.devices[id]].files[name := data])])
      && HostInv(site, after)
  {
    UnderMount(id, name);
    MountDirInjective(id, h.mounts[MountDir(id)]);
  }

  // ----- vmVolumeManager -----

  /** The files outside the mount directory, apart from the two of one VM. */
  ghost predicate FilesKept(h: Host, after: Host, except: set<string>) {
    forall p | p !in except && !HasPrefix(p, MOUNT_PATH) ::
      (p in after.root <==> p in h.root) && (p in h.root ==> after.root[p] == h.root[p])
  }

  /** A device opened on the VM's sparse file and mounted at the VM's directory. */
  ghost predicate VmMounted(site: Site, h: Host, vm: string, vmPath: string) {
    && site.WellFormed() && HostInv(site, h) && site.IsVm(vm, vmPath)
    && MountDir(vm) in h.mounts && vm in h.devices && h.devices[vm] == VmSparsePath(vm, vmPath)
  }

  lemma BaseHasNoSlash(p: string)
    ensures '/' !in BaseOf(p)
  {
    var i := LastSlash(p);
    LastSlashIs(p);
    if i < 0 {
      NoSlash(p);
      assert BaseOf(p) == p;
    }
  }

  lemma {:induction false} NoSlash(p: string)
    requires LastSlash(p) < 0
    ensures '/' !in p
  {
    if p != "" {
      NoSlash(p[..|p| - 1]);
    }
  }

  /** A write of the copy into the VM's volume. */
  lemma CopyInVolume(site: Site, h: Host, vm: string, vmPath: string, data: Bytes)
    requires VmMounted(site, h, vm, vmPath)
    ensures var sparse := VmSparsePath(vm, vmPath);
      var after := Write(h, Under(MountDir(vm), BaseOf(vmPath)), data);
      && VmMounted(site, after, vm, vmPath)
      && after == h.(root := h.root[sparse := Sparse(h.root[sparse].files[BaseOf(vmPath) := data])])
  {
    BaseHasNoSlash(vmPath);
    WriteInVolume(site, h, vm, BaseOf(vmPath), data);
  }

  /** Replacing or removing the VM disk itself. */
  lemma DiskChange(site: Site, h: Host, vm: string, vmPath: string, after: Host)
    requires VmMounted(site, h, vm, vmPath)
    requires after == Remove(h, vmPath) || exists target :: after == h.(root := h.root[vmPath := Symlink(target)])
    ensures VmMounted(site, after, vm, vmPath)
    ensures FilesKept(h, after, {vmPath}) && after.devices == h.devices && after.mounts == h.mounts
  {
  }

  lemma LinkEffect(site: Site, h: Host, vm: string, vmPath: string, target: string, e: LinkEnv)
    requires VmMounted(site, h, vm, vmPath)
    ensures var (after, ok) := CreateSymlink(h, target, vmPath, e);
      && VmMounted(site, after, vm, vmPath) && after == h.(root := after.root)
      && FilesKept(h, after, {vmPath})
      && (ok && e.remove ==> vmPath in after.root && after.root[vmPath] == Symlink(target))
      && (ok && !e.remove ==> after == h)
  {
    DiskChange(site, h, vm, vmPath, Remove(h, vmPath));
    var linked := Remove(h, vmPath).(root := Remove(h, vmPath).root[vmPath := Symlink(target)]);
    DiskChange(site, Remove(h, vmPath), vm, vmPath, linked);
  }

  /** Whole in the disk file, or whole in the VM's volume. */
  ghost predicate DiskSafe(h: Host, vm: string, vmPath: string, data: Bytes) {
    || (vmPath in h.root && h.root[vmPath] == Regular(data))
    || (var sparse := VmSparsePath(vm, vmPath);
        IsVolume(h, sparse) && BaseOf(vmPath) in h.root[sparse].files && h.root[sparse].files[BaseOf(vmPath)] == data)
  }

  lemma RemoveAndLinkKeeps(site: Site, h: Host, vm: string, vmPath: string, e: VmEnv)
    requires VmMounted(site, h, vm, vmPath)
    ensures var (after, ok) := RemoveAndLink(h, vm, vmPath, e);
      && VmMounted(site, after, vm, vmPath) && FilesKept(h, after, {vmPath})
      && after.devices == h.devices && after.mounts == h.mounts
      && (ok && e.link.remove ==> vmPath in after.root && after.root[vmPath] == Symlink(Under(MountDir(vm), "disk")))
      && (ok && !e.link.remove ==> vmPath !in after.root)
  {
    if e.remove {
      DiskChange(site, h, vm, vmPath, Remove(h, vmPath));
      LinkEffect(site, Remove(h, vmPath), vm, vmPath, Under(MountDir(vm), "disk"), e.link);
    }
  }

  /** The copy is whole in the volume before the disk file goes. */
  lemma CopyAndLinkKeeps(site: Site, h: Host, vm: string, vmPath: string, e: VmEnv)
    requires VmMounted(site, h, vm, vmPath)
    ensures var (after, ok) := CopyAndLink(h, vm, vmPath, e);
      && VmMounted(site, after, vm, vmPath)
      && FilesKept(h, after, {vmPath, VmSparsePath(vm, vmPath)})
      && after.devices == h.devices && after.mounts == h.mounts
  {
    var source := Read(h, vmPath);
    if source.Some? && e.copy.WriteTorn? {
      CopyInVolume(site, h, vm, vmPath, e.copy.left);
    } else if source.Some? && e.copy.Wrote? {
      CopyInVolume(site, h, vm, vmPath, source.value);
      RemoveAndLinkKeeps(site, Write(h, Under(MountDir(vm), BaseOf(vmPath)), source.value), vm, vmPath, e);
    }
  }

  lemma CopyAndLinkContent(site: Site, h: Host, vm: string, vmPath: string, e: VmEnv, data: Bytes)
    requires VmMounted(site, h, vm, vmPath) && vmPath in h.root && h.root[vmPath] == Regular(data)
    ensures var (after, ok) := CopyAndLink(h, vm, vmPath, e);
      var sparse := VmSparsePath(vm, vmPath);
      && DiskSafe(after, vm, vmPath, data)
      && (ok && e.link.remove ==> vmPath in after.root && after.root[vmPath] == Symlink(Under(MountDir(vm), "disk")))
      && (ok && !e.link.remove ==> vmPath !in after.root)
      && (ok ==> after.root[sparse] == Sparse(h.root[sparse].files[BaseOf(vmPath) := data]))
  {
    OutsideMounts(site, h, vmPath);
    assert Read(h, vmPath) == Some(data);
    if e.copy.WriteTorn? {
      CopyInVolume(site, h, vm, vmPath, e.copy.left);
    } else if e.copy.Wrote? {
      CopyInVolume(site, h, vm, vmPath, data);
      var h1 := Write(h, Under(MountDir(vm), BaseOf(vmPath)), data);
      RemoveAndLinkKeeps(site, h1, vm, vmPath, e);
      assert !HasPrefix(VmSparsePath(vm, vmPath), MOUNT_PATH);
    }
  }

  /** What mounting a device that this call has opened leaves, compared with the host before the call. */
  ghost predicate Opened(site: Site, h: Host, after: Host, sparse: string, id: string) {
    && HostInv(site, after) && VolumesKept(h, after) && FilesKept(h, after, {sparse}) && MountsKept(h, after)
    && after.devices == h.devices[id := sparse] && after.watched == h.watched
    && IsVolume(after, sparse) && (sparse !in h.root ==> after.root[sparse] == Sparse(map[]))
  }

  lemma CreateOpens(site: Site, h: Host, sparse: string, id: string, o: CreateOutcome)
    requires HostInv(site, h) && id in site.vms + site.imgs
    requires sparse in if id in site.vms then site.vmSparse else site.imgSparse
    ensures var (h1, created) := CreateVolume(h, sparse, id, o);
      && HostInv(site, h1) && VolumesKept(h, h1) && FilesKept(h, h1, {sparse})
      && (created == Done ==> Opened(site, h, h1, sparse, id))
  {
    CreateEffect(h, sparse, id, o);
    CreateKeeps(site, h, sparse, id, o);
  }

  lemma VolumesKeptTwice(h: Host, mid: Host, after: Host)
    requires VolumesKept(h, mid) && VolumesKept(mid, after)
    ensures VolumesKept(h, after)
  {
  }

  lemma MountOpened(site: Site, h: Host, h1: Host, sparse: string, id: string, name: string, e: MountEnv)
    requires site.WellFormed() && Opened(site, h, h1, sparse, id) && MountDir(id) !in h1.mounts && '/' !in name
    ensures var (h2, mounted) := CheckMount(h1, id, name, e);
      Opened(site, h, h2, sparse, id) && (mounted ==> MountDir(id) in h2.mounts && h2.mounts[MountDir(id)] == id)
  {
    var h2 := CheckMount(h1, id, name, e).0;
    CheckMountKeeps(site, h1, id, name, e);
    StaysOpened(site, h, h1, h2, sparse, id);
  }

  /**
   An opened device stays opened over a step that keeps volumes, devices and the files
   outside the mount directory.
   */
  lemma StaysOpened(site: Site, h: Host, h1: Host, h2: Host, sparse: string, id: string)
    requires Opened(site, h, h1, sparse, id) && HostInv(site, h2) && VolumesKept(h1, h2) && FilesKept(h1, h2, {})
    requires h2.devices == h1.devices && h2.watched == h1.watched
    requires MountDir(id) !in h1.mounts && (h2.mounts == h1.mounts || h2.mounts == h1.mounts[MountDir(id) := id])
    ensures Opened(site, h, h2, sparse, id)
  {
    VolumesKeptTwice(h, h1, h2);
    FilesKeptTwice(h, h1, h2, {sparse});
  }

  lemma FilesKeptTwice(h: Host, mid: Host, after: Host, except: set<string>)
    requires FilesKept(h, mid, except) && FilesKept(mid, after, {})
    ensures FilesKept(h, after, except)
  {
  }

  /** From the open device to the mounted volume. */
  lemma OpenAndMount(site: Site, h: Host, sparse: string, id: string, name: string, o: CreateOutcome, e: MountEnv)
    requires site.WellFormed() && HostInv(site, h) && id in site.vms + site.imgs && '/' !in name
    requires sparse in if id in site.vms then site.vmSparse else site.imgSparse
    ensures var (h1, created) := CreateVolume(h, sparse, id, o);
      && HostInv(site, h1) && VolumesKept(h, h1) && FilesKept(h, h1, {sparse})
      && (created == Done ==>
            var (h2, mounted) := CheckMount(h1, id, name, e);
            Opened(site, h, h2, sparse, id) && (mounted ==> MountDir(id) in h2.mounts && h2.mounts[MountDir(id)] == id))
  {
    CreateOpens(site, h, sparse, id, o);
    var (h1, created) := CreateVolume(h, sparse, id, o);
    if created == Done {
      PlaceholderMissesTheVolume(site, h, sparse, id, o, name);
      MountOpened(site, h, h1, sparse, id, name, e);
    }
  }

  /** The call gets as far as the copy. */
  predicate Copies(h: Host, vm: string, vmPath: string, e: VmEnv) {
    var sparse := VmSparsePath(vm, vmPath);
    var (h1, created) := CreateVolume(h, sparse, vm, e.create);
    sparse !in h.root && !e.statFails && created == Done && CheckMount(h1, vm, "disk", e.mount).1
  }

  function HostForCopy(h: Host, vm: string, vmPath: string, e: VmEnv): Host {
    CheckMount(CreateVolume(h, VmSparsePath(vm, vmPath), vm, e.create).0, vm, "disk", e.mount).0
  }

  lemma WithoutCopy(site: Site, h: Host, vm: string, vmPath: string, e: VmEnv)
    requires site.WellFormed() && HostInv(site, h) && site.IsVm(vm, vmPath) && !Copies(h, vm, vmPath, e)
    ensures FilesKept(h, VmVolumeManager(h, vm, vmPath, e).0, {VmSparsePath(vm, vmPath)})
  {
    OpenAndMount(site, h, VmSparsePath(vm, vmPath), vm, "disk", e.create, e.mount);
  }

  lemma WithCopy(h: Host, vm: string, vmPath: string, e: VmEnv)
    requires Copies(h, vm, vmPath, e)
    ensures VmVolumeManager(h, vm, vmPath, e) == CopyAndLink(HostForCopy(h, vm, vmPath, e), vm, vmPath, e)
  {
  }

  /** The host on which the copy is made: the fresh volume is mounted, everything else is as at entry. */
  lemma FreshVolume(site: Site, h: Host, vm: string, vmPath: string, e: VmEnv)
    requires site.WellFormed() && HostInv(site, h) && site.IsVm(vm, vmPath)
    requires Copies(h, vm, vmPath, e)
    ensures var sparse := VmSparsePath(vm, vmPath);
      var h2 := HostForCopy(h, vm, vmPath, e);
      && VmMounted(site, h2, vm, vmPath) && h2.root[sparse] == Sparse(map[])
      && VolumesKept(h, h2) && FilesKept(h, h2, {sparse})
      && h2.devices == h.devices[vm := sparse] && vm !in h.devices
      && MountsKept(h, h2)
    ensures VmVolumeManager(h, vm, vmPath, e) == CopyAndLink(HostForCopy(h, vm, vmPath, e), vm, vmPath, e)
  {
    OpenAndMount(site, h, VmSparsePath(vm, vmPath), vm, "disk", e.create, e.mount);
    CreateEffect(h, VmSparsePath(vm, vmPath), vm, e.create);
    WithCopy(h, vm, vmPath, e);
  }

  lemma KeptThrough(site: Site, h: Host, mid: Host, after: Host, vmPath: string, sparse: string)
    requires site.WellFormed() && HostInv(site, h) && VolumesKept(h, mid) && sparse !in h.root && vmPath in site.vmPaths
    requires FilesKept(mid, after, {vmPath, sparse})
    ensures VolumesKept(h, after)
  {
    forall p | IsVolume(h, p) ensures p in after.root && after.root[p] == h.root[p] {
      assert p in site.vmSparse + site.imgSparse;
    }
  }

  /**
   Whatever fails, vmVolumeManager keeps the host invariant, leaves every volume that
   existed as it was, touches no file outside the mount directory but the VM's disk
   and a fresh sparse file, opens at most the VM's device and unmounts nothing.
   */
  lemma VmManagerKeeps(site: Site, h: Host, vm: string, vmPath: string, e: VmEnv)
    requires site.WellFormed() && HostInv(site, h) && site.IsVm(vm, vmPath)
    ensures var sparse := VmSparsePath(vm, vmPath);
      var after := VmVolumeManager(h, vm, vmPath, e).0;
      && HostInv(site, after) && VolumesKept(h, after)
      && FilesKept(h, after, if sparse in h.root then {} else {vmPath, sparse})
      && (after.devices == h.devices || (vm !in h.devices && after.devices == h.devices[vm := sparse]))
      && MountsKept(h, after)
  {
    var sparse := VmSparsePath(vm, vmPath);
    if Copies(h, vm, vmPath, e) {
      var h2 := HostForCopy(h, vm, vmPath, e);
      FreshVolume(site, h, vm, vmPath, e);
      CopyAndLinkKeeps(site, h2, vm, vmPath, e);
      KeptThrough(site, h, h2, CopyAndLink(h2, vm, vmPath, e).0, vmPath, sparse);
    } else {
      CreateEffect(h, sparse, vm, e.create);
      OpenAndMount(site, h, sparse, vm, "disk", e.create, e.mount);
    }
  }

  /**
   A disk found at entry is never lost: afterwards it is whole in place or whole in
   the VM's volume, whichever step failed, because the copy precedes every removal.
   */
  lemma DiskIsNeverLost(site: Site, h: Host, vm: string, vmPath: string, e: VmEnv, data: Bytes)
    requires site.WellFormed() && HostInv(site, h) && site.IsVm(vm, vmPath)
    requires vmPath in h.root && h.root[vmPath] == Regular(data)
    ensures DiskSafe(VmVolumeManager(h, vm, vmPath, e).0, vm, vmPath, data)
  {
    assert vmPath != VmSparsePath(vm, vmPath) && !HasPrefix(vmPath, MOUNT_PATH);
    if Copies(h, vm, vmPath, e) {
      CopiedDiskIsSafe(site, h, vm, vmPath, e, data);
    } else {
      WithoutCopy(site, h, vm, vmPath, e);
    }
  }

  lemma CopiedDiskIsSafe(site: Site, h: Host, vm: string, vmPath: string, e: VmEnv, data: Bytes)
    requires site.WellFormed() && HostInv(site, h) && site.IsVm(vm, vmPath) && Copies(h, vm, vmPath, e)
    requires vmPath in h.root && h.root[vmPath] == Regular(data)
    ensures DiskSafe(VmVolumeManager(h, vm, vmPath, e).0, vm, vmPath, data)
  {
    var h2 := HostForCopy(h, vm, vmPath, e);
    FreshVolume(site, h, vm, vmPath, e);
    assert vmPath in h2.root && h2.root[vmPath] == Regular(data);
    CopyAndLinkContent(site, h2, vm, vmPath, e, data);
  }

  /**
   When vmVolumeManager reports success for a regular disk file, the disk has become
   the link into the mounted volume if and only if its sparse file was new (and seen to
   be) and the second removal worked; and the VM then reads its old disk through it
   exactly when the file is called "disk".
   */
  lemma WhenSuccessMeansLinked(site: Site, h: Host, vm: string, vmPath: string, e: VmEnv, data: Bytes)
    requires site.WellFormed() && HostInv(site, h) && site.IsVm(vm, vmPath)
    requires vmPath in h.root && h.root[vmPath] == Regular(data)
    requires VmVolumeManager(h, vm, vmPath, e).1
    ensures var after := VmVolumeManager(h, vm, vmPath, e).0;
      var fresh_ := VmSparsePath(vm, vmPath) !in h.root && !e.statFails;
      && (vmPath in after.root && after.root[vmPath] == Symlink(Under(MountDir(vm), "disk")) <==>
        fresh_ && e.link.remove)
      && (Read(after, vmPath) == Some(data) <==> !fresh_ || (e.link.remove && BaseOf(vmPath) == "disk"))
  {
    var sparse := VmSparsePath(vm, vmPath);
    var after := VmVolumeManager(h, vm, vmPath, e).0;
    SuccessCopiesIfNew(h, vm, vmPath, e);
    assert vmPath != sparse && !HasPrefix(vmPath, MOUNT_PATH);
    if Copies(h, vm, vmPath, e) {
      SuccessAfterCopy(site, h, vm, vmPath, e, data);
    } else {
      VmManagerKeeps(site, h, vm, vmPath, e);
      WithoutCopy(site, h, vm, vmPath, e);
      OutsideMounts(site, after, vmPath);
    }
  }

  lemma SuccessAfterCopy(site: Site, h: Host, vm: string, vmPath: string, e: VmEnv, data: Bytes)
    requires site.WellFormed() && HostInv(site, h) && site.IsVm(vm, vmPath)
    requires vmPath in h.root && h.root[vmPath] == Regular(data)
    requires VmVolumeManager(h, vm, vmPath, e).1 && Copies(h, vm, vmPath, e)
    ensures var after := VmVolumeManager(h, vm, vmPath, e).0;
      && (vmPath in after.root && after.root[vmPath] == Symlink(Under(MountDir(vm), "disk")) <==> e.link.remove)
      && (Read(after, vmPath) == Some(data) <==> e.link.remove && BaseOf(vmPath) == "disk")
  {
    var after := VmVolumeManager(h, vm, vmPath, e).0;
    var h2 := HostForCopy(h, vm, vmPath, e);
    assert vmPath != VmSparsePath(vm, vmPath) && !HasPrefix(vmPath, MOUNT_PATH);
    FreshVolume(site, h, vm, vmPath, e);
    CopyAndLinkContent(site, h2, vm, vmPath, e, data);
    CopyAndLinkKeeps(site, h2, vm, vmPath, e);
    LinkReads(site, after, vm, vmPath, data);
    OutsideMounts(site, after, vmPath);
  }

  lemma SuccessCopiesIfNew(h: Host, vm: string, vmPath: string, e: VmEnv)
    requires VmVolumeManager(h, vm, vmPath, e).1
    ensures Copies(h, vm, vmPath, e) <==> VmSparsePath(vm, vmPath) !in h.root && !e.statFails
  {
  }

  lemma LinkReads(site: Site, h: Host, vm: string, vmPath: string, data: Bytes)
    requires VmMounted(site, h, vm, vmPath)
    requires h.root[VmSparsePath(vm, vmPath)] == Sparse(map[BaseOf(vmPath) := data])
    ensures var disk := Under(MountDir(vm), "disk");
      vmPath in h.root && h.root[vmPath] == Symlink(disk) ==>
        (Read(h, vmPath) == Some(data) <==> BaseOf(vmPath) == "disk")
  {
    OutsideMounts(site, h, vmPath);
    UnderMount(vm, "disk");
    MountDirInjective(vm, h.mounts[MountDir(vm)]);
  }

  // ----- exactly when vmVolumeManager succeeds -----

  predicate MountWorks(e: MountEnv) {
    e.mkdir && e.open && e.lookup && e.chown && e.mount
  }

  /** A failed removal counts as a success, and nothing after it is attempted. */
  predicate LinkWorks(e: LinkEnv) {
    e.lookup && (e.remove ==> e.symlink && e.lchown && e.chmod && e.chown)
  }

  /** The mount point is always free for a device that was just opened, so only the calls themselves can fail. */
  lemma MountSucceedsWhen(site: Site, h: Host, vm: string, vmPath: string, e: VmEnv)
    requires site.WellFormed() && HostInv(site, h) && site.IsVm(vm, vmPath)
    requires CreateVolume(h, VmSparsePath(vm, vmPath), vm, e.create).1 == Done
    ensures CheckMount(CreateVolume(h, VmSparsePath(vm, vmPath), vm, e.create).0, vm, "disk", e.mount).1 <==>
      MountWorks(e.mount)
  {
    PlaceholderMissesTheVolume(site, h, VmSparsePath(vm, vmPath), vm, e.create, "disk");
    UnderMount(vm, "disk");
  }

  lemma CopySucceedsWhen(site: Site, h: Host, vm: string, vmPath: string, e: VmEnv, data: Bytes)
    requires VmMounted(site, h, vm, vmPath) && vmPath in h.root && h.root[vmPath] == Regular(data)
    ensures CopyAndLink(h, vm, vmPath, e).1 <==> e.copy == Wrote && e.remove && LinkWorks(e.link)
  {
    OutsideMounts(site, h, vmPath);
    assert Read(h, vmPath) == Some(data);
  }

  /**
   For a regular disk, vmVolumeManager succeeds if and only if the VM's device is not
   already open, the sparse file is not some other kind of file, and every call that is
   made works; the copy and the link are needed only if the sparse file is new. In
   particular a device that an earlier Stop failed to close makes every later call fail.
   */
  lemma SucceedsExactlyWhen(site: Site, h: Host, vm: string, vmPath: string, e: VmEnv, data: Bytes)
    requires site.WellFormed() && HostInv(site, h) && site.IsVm(vm, vmPath)
    requires vmPath in h.root && h.root[vmPath] == Regular(data)
    ensures var sparse := VmSparsePath(vm, vmPath);
      VmVolumeManager(h, vm, vmPath, e).1 <==>
        && vm !in h.devices && (sparse in h.root ==> h.root[sparse].Sparse?)
        && e.create == Created && MountWorks(e.mount)
        && (sparse in h.root || e.statFails || (e.copy == Wrote && e.remove && LinkWorks(e.link)))
  {
    var sparse := VmSparsePath(vm, vmPath);
    if CreateVolume(h, sparse, vm, e.create).1 == Done {
      MountSucceedsWhen(site, h, vm, vmPath, e);
    }
    if Copies(h, vm, vmPath, e) {
      var h2 := HostForCopy(h, vm, vmPath, e);
      assert vmPath != sparse && !HasPrefix(vmPath, MOUNT_PATH);
      FreshVolume(site, h, vm, vmPath, e);
      CopySucceedsWhen(site, h2, vm, vmPath, e, data);
    }
  }
}
