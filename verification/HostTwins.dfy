/**
 Hosts that differ only in forgotten handlers: every call of the agent treats them
 alike, and a removal of a watched file does so exactly when the handler that was
 forgotten would have found nothing to remove.
 */
module HostTwins {
  import opened Common
  import QemuInfo
  import opened Volumes

  // ----- two hosts, one of which has perhaps forgotten handlers -----

  predicate Remembers(h: Host, g: Host) {
    forall file | file in h.watched :: file in g.watched && g.watched[file] == h.watched[file]
  }

  /** The first host is the second one but for handlers that it has forgotten. */
  predicate Twins(h: Host, g: Host) {
    h.root == g.root && h.devices == g.devices && h.mounts == g.mounts && Remembers(h, g)
  }

  lemma LookupAtSame(h: Host, g: Host, p: string, dir: string, base: string)
    requires Twins(h, g)
    ensures LookupAt(h, p, dir, base) == LookupAt(g, p, dir, base)
  {
  }

  lemma LookupSame(h: Host, g: Host, p: string)
    requires Twins(h, g)
    ensures Lookup(h, p) == Lookup(g, p)
  {
    LookupAtSame(h, g, p, DirOf(p), BaseOf(p));
  }

  lemma ReadSame(h: Host, g: Host, p: string)
    requires Twins(h, g)
    ensures Read(h, p) == Read(g, p) && IsSymlink(h, p) == IsSymlink(g, p) && Exists(h, p) == Exists(g, p)
  {
    LookupSame(h, g, p);
    if IsSymlink(h, p) {
      LookupSame(h, g, Lookup(h, p).value.target);
    }
  }

  lemma WriteAtSame(h: Host, g: Host, p: string, dir: string, base: string, data: Bytes)
    requires Twins(h, g)
    ensures Twins(WriteAt(h, p, dir, base, data), WriteAt(g, p, dir, base, data))
  {
  }

  lemma WriteSame(h: Host, g: Host, p: string, data: Bytes)
    requires Twins(h, g)
    ensures Twins(Write(h, p, data), Write(g, p, data))
  {
    WriteAtSame(h, g, p, DirOf(p), BaseOf(p), data);
  }

  lemma WrittenSame(h: Host, g: Host, p: string, data: Bytes, o: WriteOutcome)
    requires Twins(h, g)
    ensures Twins(Written(h, p, data, o), Written(g, p, data, o))
  {
    match o
    case Wrote => WriteSame(h, g, p, data);
    case WriteFailed =>
    case WriteTorn(left) => WriteSame(h, g, p, left);
  }

  lemma CheckMountSame(h: Host, g: Host, id: string, name: string, e: MountEnv)
    requires Twins(h, g)
    ensures Twins(CheckMount(h, id, name, e).0, CheckMount(g, id, name, e).0)
    ensures CheckMount(h, id, name, e).1 == CheckMount(g, id, name, e).1
  {
    WriteSame(h, g, Under(MountDir(id), name), []);
  }

  lemma CreateVolumeSame(h: Host, g: Host, sparse: string, id: string, o: CreateOutcome)
    requires Twins(h, g)
    ensures Twins(CreateVolume(h, sparse, id, o).0, CreateVolume(g, sparse, id, o).0)
    ensures CreateVolume(h, sparse, id, o).1 == CreateVolume(g, sparse, id, o).1
  {
  }

  lemma LinkSame(h: Host, g: Host, target: string, source: string, e: LinkEnv)
    requires Twins(h, g)
    ensures Twins(CreateSymlink(h, target, source, e).0, CreateSymlink(g, target, source, e).0)
    ensures CreateSymlink(h, target, source, e).1 == CreateSymlink(g, target, source, e).1
  {
  }

  lemma WatchSame(h: Host, g: Host, file: string, vm: string)
    requires Twins(h, g)
    ensures Twins(h.(watched := h.watched[file := vm]), g.(watched := g.watched[file := vm]))
  {
  }

  lemma RemoveAndLinkSame(h: Host, g: Host, vm: string, vmPath: string, e: VmEnv)
    requires Twins(h, g)
    ensures Twins(RemoveAndLink(h, vm, vmPath, e).0, RemoveAndLink(g, vm, vmPath, e).0)
    ensures RemoveAndLink(h, vm, vmPath, e).1 == RemoveAndLink(g, vm, vmPath, e).1
  {
    if e.remove {
      var target := Under(MountDir(vm), "disk");
      var h1, g1 := Remove(h, vmPath), Remove(g, vmPath);
      LinkSame(h1, g1, target, vmPath, e.link);
      WatchSame(CreateSymlink(h1, target, vmPath, e.link).0, CreateSymlink(g1, target, vmPath, e.link).0,
          DiskInfoPath(vmPath), vm);
    }
  }

  lemma FailedCopySame(h: Host, g: Host, vm: string, vmPath: string, e: VmEnv)
    requires Twins(h, g) && Read(h, vmPath) == Read(g, vmPath) && (Read(h, vmPath).None? || e.copy != Wrote)
    ensures Twins(CopyAndLink(h, vm, vmPath, e).0, CopyAndLink(g, vm, vmPath, e).0)
    ensures !CopyAndLink(h, vm, vmPath, e).1 && !CopyAndLink(g, vm, vmPath, e).1
  {
    if Read(h, vmPath).Some? {
      WrittenSame(h, g, Under(MountDir(vm), BaseOf(vmPath)), Read(h, vmPath).value, e.copy);
    }
  }

  /** The host on which the disk has been copied into the volume. */
  function Copied(h: Host, vm: string, vmPath: string, data: Bytes): Host {
    Write(h, Under(MountDir(vm), BaseOf(vmPath)), data)
  }

  lemma CopyThenLink(h: Host, vm: string, vmPath: string, e: VmEnv)
    requires Read(h, vmPath).Some? && e.copy == Wrote
    ensures CopyAndLink(h, vm, vmPath, e) == RemoveAndLink(Copied(h, vm, vmPath, Read(h, vmPath).value), vm, vmPath, e)
  {
  }

  lemma CopySame(h: Host, g: Host, vm: string, vmPath: string, e: VmEnv)
    requires Twins(h, g)
    ensures Twins(CopyAndLink(h, vm, vmPath, e).0, CopyAndLink(g, vm, vmPath, e).0)
    ensures CopyAndLink(h, vm, vmPath, e).1 == CopyAndLink(g, vm, vmPath, e).1
  {
    ReadSame(h, g, vmPath);
    if Read(h, vmPath).None? || e.copy != Wrote {
      FailedCopySame(h, g, vm, vmPath, e);
    } else {
      var data := Read(h, vmPath).value;
      CopyThenLink(h, vm, vmPath, e);
      CopyThenLink(g, vm, vmPath, e);
      WriteSame(h, g, Under(MountDir(vm), BaseOf(vmPath)), data);
      RemoveAndLinkSame(Copied(h, vm, vmPath, data), Copied(g, vm, vmPath, data), vm, vmPath, e);
    }
  }

  lemma VmVolumeSame(h: Host, g: Host, vm: string, vmPath: string, e: VmEnv)
    requires Twins(h, g)
    ensures Twins(VmVolumeManager(h, vm, vmPath, e).0, VmVolumeManager(g, vm, vmPath, e).0)
    ensures VmVolumeManager(h, vm, vmPath, e).1 == VmVolumeManager(g, vm, vmPath, e).1
  {
    var sparse := VmSparsePath(vm, vmPath);
    var h1, g1 := CreateVolume(h, sparse, vm, e.create).0, CreateVolume(g, sparse, vm, e.create).0;
    CreateVolumeSame(h, g, sparse, vm, e.create);
    CheckMountSame(h1, g1, vm, "disk", e.mount);
    CopySame(CheckMount(h1, vm, "disk", e.mount).0, CheckMount(g1, vm, "disk", e.mount).0, vm, vmPath, e);
  }

  lemma DecryptSame(h: Host, g: Host, img: string, imagePath: string, e: ImageEnv)
    requires Twins(h, g)
    ensures Twins(DecryptInto(h, img, imagePath, e).0, DecryptInto(g, img, imagePath, e).0)
    ensures DecryptInto(h, img, imagePath, e).1 == DecryptInto(g, img, imagePath, e).1
  {
    ReadSame(h, g, imagePath);
    if Read(h, imagePath).Some? && e.decrypt(Read(h, imagePath).value).Some? {
      WrittenSame(h, g, DecryptedPath(img), e.decrypt(Read(h, imagePath).value).value, e.write);
    }
  }

  lemma ImageVolumeSame(h: Host, g: Host, img: string, imagePath: string, e: ImageEnv)
    requires Twins(h, g)
    ensures Twins(ImageVolumeManager(h, img, imagePath, e).0, ImageVolumeManager(g, img, imagePath, e).0)
    ensures ImageVolumeManager(h, img, imagePath, e).1 == ImageVolumeManager(g, img, imagePath, e).1
  {
    var sparse := ImageSparsePath(imagePath);
    var h1, g1 := CreateVolume(h, sparse, img, e.create).0, CreateVolume(g, sparse, img, e.create).0;
    CreateVolumeSame(h, g, sparse, img, e.create);
    CheckMountSame(h1, g1, img, img, e.mount);
    DecryptSame(CheckMount(h1, img, img, e.mount).0, CheckMount(g1, img, img, e.mount).0, img, imagePath, e);
  }

  /** Whether Prepare gets to the image volume, and what it answers if it does not. */
  function BeforeImage(skips: bool, e: PrepareEnv): Option<bool> {
    if !e.hardware || e.flavor.None? || e.flavor.value.id == "" then Some(false)
    else if !e.flavor.value.encryptionRequired then Some(true)
    else if !e.flavor.value.hasKey || !e.unwrap then Some(false)
    else if skips then Some(true)
    else None
  }

  lemma PrepareImageIs(h: Host, d: Domain, path: string, e: PrepareEnv)
    ensures var before := BeforeImage(SkipsImage(h, d, e), e);
      var (h1, made) := ImageVolumeManager(h, d.img, path, e.image);
      PrepareImage(h, d, path, e) ==
        if before.Some? then (h, before.value, "")
        else if !made || e.imageInfo.None? then (h1, false, "")
        else (h1, true, QemuInfo.Scanned(e.imageInfo.value, QemuInfo.QEMU_FIELDS.fileFormat, ""))
  {
  }

  lemma PrepareImageSame(h: Host, g: Host, d: Domain, path: string, e: PrepareEnv)
    requires Twins(h, g)
    ensures var (h1, ok, format) := PrepareImage(h, d, path, e);
      var (g1, ok', format') := PrepareImage(g, d, path, e);
      Twins(h1, g1) && ok == ok' && format == format'
  {
    ReadSame(h, g, DecryptedPath(d.img));
    ImageVolumeSame(h, g, d.img, path, e.image);
    PrepareImageIs(h, d, path, e);
    PrepareImageIs(g, d, path, e);
  }

  lemma RecreateSame(h: Host, g: Host, d: Domain, backing: string, backingFormat: string, e: PrepareEnv)
    requires Twins(h, g)
    ensures var (h1, r, ran) := RecreateDisk(h, d, backing, backingFormat, e);
      var (g1, r', ran') := RecreateDisk(g, d, backing, backingFormat, e);
      Twins(h1, g1) && r == r' && ran == ran'
  {
    var (_, _, ran) := RecreateDisk(h, d, backing, backingFormat, e);
    if ran != [] {
      var made := e.newDisk(ran[0]);
      WrittenSame(h, g, d.vmPath, made, e.create);
      if |ran| == 2 {
        WrittenSame(Written(h, d.vmPath, made, e.create), Written(g, d.vmPath, made, e.create), d.vmPath,
            e.resizedDisk(ran[1]), e.resize);
      }
    }
  }

  lemma PrepareVmSame(h: Host, g: Host, d: Domain, mustRecreate: bool, backing: string, backingFormat: string,
                      e: PrepareEnv)
    requires Twins(h, g)
    ensures var (h1, r, ran) := PrepareVm(h, d, mustRecreate, backing, backingFormat, e);
      var (g1, r', ran') := PrepareVm(g, d, mustRecreate, backing, backingFormat, e);
      Twins(h1, g1) && r == r' && ran == ran'
  {
    ReadSame(h, g, d.vmPath);
    RecreateSame(h, g, d, backing, backingFormat, e);
    VmVolumeSame(h, g, d.vm, d.vmPath, e.vm);
    var h1, g1 := RecreateDisk(h, d, backing, backingFormat, e).0, RecreateDisk(g, d, backing, backingFormat, e).0;
    VmVolumeSame(h1, g1, d.vm, d.vmPath, e.vm);
  }

  lemma PrepareFromSame(h: Host, g: Host, d: Domain, path: string, e: PrepareEnv)
    requires Twins(h, g) && e.header.Some?
    ensures var (h1, r, ran) := PrepareFrom(h, d, path, e);
      var (g1, r', ran') := PrepareFrom(g, d, path, e);
      Twins(h1, g1) && r == r' && ran == ran'
  {
    ReadSame(h, g, d.vmPath);
    var (h1, _, format) := if e.header.value then PrepareImage(h, d, path, e) else (h, true, "");
    var (g1, _, _) := if e.header.value then PrepareImage(g, d, path, e) else (g, true, "");
    PrepareImageSame(h, g, d, path, e);
    PrepareVmSame(h1, g1, d, !IsSymlink(h, d.vmPath), BackingFile(d, e), format, e);
  }

  lemma PrepareSame(h: Host, g: Host, d: Domain, e: PrepareEnv)
    requires Twins(h, g)
    ensures Twins(Prepare(h, d, e).0, Prepare(g, d, e).0)
    ensures Prepare(h, d, e).1 == Prepare(g, d, e).1 && Prepare(h, d, e).2 == Prepare(g, d, e).2
  {
    ReadSame(h, g, d.vmPath);
    var path := ImagePath(h, d, e);
    assert path == ImagePath(g, d, e);
    if e.parse && path.Some? && e.header.Some? {
      PrepareFromSame(h, g, d, path.value, e);
    }
  }

  lemma UnmountSame(h: Host, g: Host, path: string, works: bool)
    requires Twins(h, g)
    ensures Twins(Unmount(h, path, works), Unmount(g, path, works))
  {
  }

  lemma DeleteVolumeSame(h: Host, g: Host, id: string, works: bool)
    requires Twins(h, g)
    ensures Twins(DeleteVolume(h, id, works), DeleteVolume(g, id, works))
  {
  }

  lemma UnmountAndDeleteSame(h: Host, g: Host, path: string, id: string, unmount: bool, close: bool)
    requires Twins(h, g)
    ensures var h1, g1 := Unmount(h, path, unmount), Unmount(g, path, unmount);
      Twins(DeleteVolume(h1, id, close), DeleteVolume(g1, id, close))
  {
    UnmountSame(h, g, path, unmount);
    DeleteVolumeSame(Unmount(h, path, unmount), Unmount(g, path, unmount), id, close);
  }

  lemma CloseVmSame(h: Host, g: Host, d: Domain, e: StopEnv)
    requires Twins(h, g)
    ensures Twins(CloseVm(h, d, e), CloseVm(g, d, e))
  {
    UnmountAndDeleteSame(h, g, MountDir(d.vm), d.vm, e.unmountVm, e.closeVm);
  }

  lemma TearDownSame(h: Host, g: Host, d: Domain, path: string, e: StopEnv)
    requires Twins(h, g)
    ensures Twins(TearDownImage(h, d, path, e), TearDownImage(g, d, path, e))
  {
    UnmountAndDeleteSame(h, g, path, d.img, e.unmountImage, e.closeImage);
  }

  // ----- the removal of a watched file -----

  /** Nothing that a handler could remove: the volume mounted there is empty, or no file lies directly below. */
  ghost predicate NothingBelow(h: Host, dir: string) {
    if dir in h.mounts then
      var dev := h.mounts[dir];
      dev in h.devices ==> h.devices[dev] in h.root && h.root[h.devices[dev]] == Sparse(map[])
    else forall p | p in h.root :: DirOf(p) != dir
  }

  lemma HandlerRuns(h: Host, file: string)
    requires file in h.watched
    ensures DiskInfoRemoved(h, file).root == h.root <==> NothingBelow(h, MountDir(h.watched[file]))
    ensures DiskInfoRemoved(h, file) == h.(root := DiskInfoRemoved(h, file).root)
  {
    var dir := MountDir(h.watched[file]);
    if dir in h.mounts {
      if h.mounts[dir] in h.devices {
        VolumeEmptied(h, dir);
      }
    } else {
      FilesRemoved(h.root, dir);
    }
  }

  lemma VolumeEmptied(h: Host, dir: string)
    requires dir in h.mounts && h.mounts[dir] in h.devices
    ensures var sparse := h.devices[h.mounts[dir]];
      h.root[sparse := Sparse(map[])] == h.root <==> sparse in h.root && h.root[sparse] == Sparse(map[])
  {
    var sparse := h.devices[h.mounts[dir]];
    assert h.root[sparse := Sparse(map[])][sparse] == Sparse(map[]);
  }

  lemma FilesRemoved(root: map<string, Node>, dir: string)
    ensures (map p | p in root && DirOf(p) != dir :: root[p]) == root <==> forall p | p in root :: DirOf(p) != dir
  {
    var rest := map p | p in root && DirOf(p) != dir :: root[p];
    if rest == root {
      forall p | p in root ensures DirOf(p) != dir {
        assert p in rest;
      }
    }
  }

  /** The first host has not forgotten a handler that would have found something to remove. */
  ghost predicate NothingMissed(h: Host, g: Host, file: string) {
    file in g.watched && file !in h.watched ==> NothingBelow(g, MountDir(g.watched[file]))
  }

  /** A removal keeps twins alike exactly when nothing is missed by it. */
  lemma RemovalTwins(h: Host, g: Host, file: string)
    requires Twins(h, g)
    ensures Twins(DiskInfoRemoved(h, file), DiskInfoRemoved(g, file)) <==> NothingMissed(h, g, file)
  {
    if file in g.watched {
      HandlerRuns(g, file);
      if file in h.watched {
        HandlerRuns(h, file);
        SameHandlerRuns(h, g, file);
      }
    }
  }

  lemma SameHandlerRuns(h: Host, g: Host, file: string)
    requires Twins(h, g) && file in h.watched
    ensures Twins(DiskInfoRemoved(h, file), DiskInfoRemoved(g, file))
  {
  }
}
