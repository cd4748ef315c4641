/**
 The host as the agent changes it: the same calls as in `Volumes`, as methods that
 update files, devices, mounts and watched files step by step. Each call of the agent
 keeps the host invariant and what the theorems about that call promise.
 */
module HostMachine {
  import opened Common
  import opened QemuInfo
  import opened Volumes
  import opened VolumeTheorems
  import opened HostRuns
  import opened VolumeAnswers
  import opened PrepareAnswers

  class Machine {
    ghost const site: Site
    var root: map<string, Node>
    var devices: map<string, string>
    var mounts: map<string, string>
    var watched: map<string, string>

    ghost function View(): Host
      reads this
    {
      Host(root, devices, mounts, watched)
    }

    /** What is mounted is open at its own mount point; open devices have a sparse file of their kind. */
    ghost predicate Valid()
      reads this
    {
      site.WellFormed() && HostInv(site, View())
    }

    constructor (root: map<string, Node>, ghost site: Site)
      requires site.WellFormed() && forall p | p in root && root[p].Sparse? :: p in site.vmSparse + site.imgSparse
      ensures Valid() && this.site == site && View() == Host(root, map[], map[], map[])
    {
      this.root, devices, mounts, watched := root, map[], map[], map[];
      this.site := site;
    }

    function Now(): (h: Host)
      reads this
      ensures h == View()
    {
      Host(root, devices, mounts, watched)
    }

    // ----- files -----

    method WriteFile(p: string, data: Bytes)
      modifies this`root
      ensures View() == Write(old(View()), p, data)
    {
      if DirOf(p) in mounts {
        var dev := mounts[DirOf(p)];
        if dev in devices {
          root := root[devices[dev] := Sparse(VolumeAt(Now(), DirOf(p))[BaseOf(p) := data])];
        }
      } else {
        root := root[p := Regular(data)];
      }
    }

    method RemoveAll(p: string)
      modifies this`root
      ensures View() == Remove(old(View()), p)
    {
      root := root - {p};
    }

    method TryWrite(p: string, data: Bytes, o: WriteOutcome)
      modifies this`root
      ensures View() == Written(old(View()), p, data, o)
    {
      match o {
        case Wrote => WriteFile(p, data);
        case WriteFailed =>
        case WriteTorn(left) => WriteFile(p, left);
      }
    }

    // ----- the volume library -----

    method OpenVolume(sparse: string, id: string, o: CreateOutcome) returns (r: VolumeResult)
      modifies this`root, this`devices
      ensures (View(), r) == CreateVolume(old(View()), sparse, id, o)
    {
      if id in devices {
        return AlreadyThere;
      }
      if (sparse in root && !root[sparse].Sparse?) || o == Refused {
        return Failed;
      }
      if sparse !in root {
        root := root[sparse := Sparse(map[])];
      }
      if o == LeftSparse {
        return Failed;
      }
      devices := devices[id := sparse];
      return Done;
    }

    method MountVolume(id: string, dir: string, works: bool) returns (r: VolumeResult)
      modifies this`mounts
      ensures (View(), r) == Mount(old(View()), id, dir, works)
    {
      if dir in mounts {
        return AlreadyThere;
      }
      if id !in devices || !works {
        return Failed;
      }
      mounts := mounts[dir := id];
      return Done;
    }

    method UnmountVolume(path: string, works: bool)
      modifies this`mounts
      ensures View() == Unmount(old(View()), path, works)
    {
      if works {
        mounts := mounts - {if path in mounts then path else DirOf(path)};
      }
    }

    method CloseVolume(id: string, works: bool)
      modifies this`devices
      ensures View() == DeleteVolume(old(View()), id, works)
    {
      if works && id in devices && !exists dir | dir in mounts :: mounts[dir] == id {
        devices := devices - {id};
      }
    }

    // ----- prepare.go -----

    method CheckMountPathExistsAndMountVolume(id: string, emptyFile: string, e: MountEnv) returns (ok: bool)
      modifies this`root, this`mounts
      ensures (View(), ok) == CheckMount(old(View()), id, emptyFile, e)
    {
      if !e.mkdir || !e.open {
        return false;
      }
      WriteFile(Under(MountDir(id), emptyFile), []);
      if !e.lookup || !e.chown {
        return false;
      }
      var r := MountVolume(id, MountDir(id), e.mount);
      return r != Failed;
    }

    method CreateSymLinkAndChangeOwnership(target: string, source: string, e: LinkEnv) returns (ok: bool)
      modifies this`root
      ensures (View(), ok) == CreateSymlink(old(View()), target, source, e)
    {
      if !e.lookup {
        return false;
      }
      if !e.remove {
        return true;
      }
      RemoveAll(source);
      if !e.symlink {
        return false;
      }
      root := root[source := Symlink(target)];
      return e.lchown && e.chmod && e.chown;
    }

    /** A disk found as a regular file is afterwards whole in place or whole in the volume, whatever failed. */
    method VmVolume(vm: string, vmPath: string, e: VmEnv) returns (ok: bool)
      requires Valid() && site.IsVm(vm, vmPath)
      modifies this
      ensures Valid() && (View(), ok) == VmVolumeManager(old(View()), vm, vmPath, e)
      ensures (View(), ok) == VmOutcome(old(View()), vm, vmPath, e)
      ensures VolumesKept(old(View()), View()) && MountsKept(old(View()), View())
      ensures vmPath in old(root) && old(root)[vmPath].Regular? ==> DiskSafe(View(), vm, vmPath, old(root)[vmPath].data)
    {
      VmAnswer(site, View(), vm, vmPath, e);
      VmManagerKeeps(site, View(), vm, vmPath, e);
      if vmPath in root && root[vmPath].Regular? {
        DiskIsNeverLost(site, View(), vm, vmPath, e, root[vmPath].data);
      }
      var sparse := VmSparsePath(vm, vmPath);
      var existed := e.statFails || sparse in root;
      var created := OpenVolume(sparse, vm, e.create);
      if created != Done {
        return false;
      }
      var mounted := CheckMountPathExistsAndMountVolume(vm, "disk", e.mount);
      if !mounted {
        return false;
      }
      if existed {
        return true;
      }
      ok := CopyDisk(vm, vmPath, e);
    }

    method CopyDisk(vm: string, vmPath: string, e: VmEnv) returns (ok: bool)
      modifies this
      ensures (View(), ok) == CopyAndLink(old(View()), vm, vmPath, e)
    {
      var source := Read(Now(), vmPath);
      if source.None? {
        return false;
      }
      TryWrite(Under(MountDir(vm), BaseOf(vmPath)), source.value, e.copy);
      ghost var copied := View();
      if e.copy != Wrote {
        return false;
      }
      ok := RemoveDiskAndLink(vm, vmPath, e);
      assert (View(), ok) == RemoveAndLink(copied, vm, vmPath, e);
    }

    method RemoveDiskAndLink(vm: string, vmPath: string, e: VmEnv) returns (ok: bool)
      modifies this
      ensures (View(), ok) == RemoveAndLink(old(View()), vm, vmPath, e)
    {
      if !e.remove {
        return false;
      }
      RemoveAll(vmPath);
      var linked := CreateSymLinkAndChangeOwnership(Under(MountDir(vm), "disk"), vmPath, e.link);
      if !linked {
        return false;
      }
      if e.watch {
        watched := watched[DiskInfoPath(vmPath) := vm];
      }
      return true;
    }

    /** Existing volumes and all files but a fresh sparse file stay as they were, whatever failed. */
    method ImageVolume(img: string, imagePath: string, e: ImageEnv) returns (ok: bool)
      requires Valid() && img in site.imgs && ImageSparsePath(imagePath) in site.imgSparse
      modifies this`root, this`devices, this`mounts
      ensures Valid() && (View(), ok) == ImageVolumeManager(old(View()), img, imagePath, e)
      ensures (View(), ok) == ImageOutcome(old(View()), img, imagePath, e)
      ensures VolumesKept(old(View()), View()) && MountsKept(old(View()), View())
      ensures FilesKept(old(View()), View(), {ImageSparsePath(imagePath)})
    {
      ImageAnswer(site, View(), img, imagePath, e);
      ImageManagerKeeps(site, View(), img, imagePath, e);
      var sparse := ImageSparsePath(imagePath);
      var existed := e.statFails || sparse in root;
      var created := OpenVolume(sparse, img, e.create);
      if created == AlreadyThere {
        return true;
      }
      if created == Failed {
        return false;
      }
      var mounted := CheckMountPathExistsAndMountVolume(img, img, e.mount);
      if !mounted {
        return false;
      }
      if existed {
        return true;
      }
      ok := DecryptImage(img, imagePath, e);
    }

    method DecryptImage(img: string, imagePath: string, e: ImageEnv) returns (ok: bool)
      modifies this`root
      ensures (View(), ok) == DecryptInto(old(View()), img, imagePath, e)
    {
      var encrypted := Read(Now(), imagePath);
      if encrypted.None? || !e.read {
        return false;
      }
      var plain := e.decrypt(encrypted.value);
      if plain.None? {
        return false;
      }
      TryWrite(DecryptedPath(img), plain.value, e.write);
      return e.write == Wrote && e.lookup && e.chmod && e.chown;
    }

    method PrepareEncryptedImage(d: Domain, imagePath: string, e: PrepareEnv) returns (ok: bool, backingFormat: string)
      requires Valid() && d.img in site.imgs && ImageSparsePath(imagePath) in site.imgSparse
      modifies this`root, this`devices, this`mounts
      ensures (View(), ok, backingFormat) == PrepareImage(old(View()), d, imagePath, e)
    {
      var stat := Read(Now(), DecryptedPath(d.img));
      var skip := false;
      if stat.Some? && |stat.value| > 0 {
        skip := e.headerAgain == Some(false);
      }
      if !e.hardware || e.flavor.None? || e.flavor.value.id == "" {
        return false, "";
      }
      if !e.flavor.value.encryptionRequired {
        return true, "";
      }
      if !e.flavor.value.hasKey || !e.unwrap {
        return false, "";
      }
      if skip {
        return true, "";
      }
      ok := ImageVolume(d.img, imagePath, e.image);
      if !ok || e.imageInfo.None? {
        return false, "";
      }
      backingFormat := Scan(e.imageInfo.value, QEMU_FIELDS.fileFormat, "");
    }

    /** Only the VM's own disk changes; after success it is a regular file with what the resize left. */
    method RecreateVmDisk(d: Domain, backing: string, backingFormat: string, e: PrepareEnv)
      returns (r: Outcome, ran: seq<Command>)
      requires Valid() && d.vmPath in site.vmPaths
      modifies this`root
      ensures Valid() && (View(), r, ran) == RecreateDisk(old(View()), d, backing, backingFormat, e)
      ensures VolumesKept(old(View()), View()) && FilesKept(old(View()), View(), {d.vmPath})
      ensures r == Returned(true) ==> |ran| == 2 && d.vmPath in root && root[d.vmPath] == Regular(e.resizedDisk(ran[1]))
    {
      RecreateKeeps(site, View(), d, backing, backingFormat, e);
      if RecreateDisk(View(), d, backing, backingFormat, e).1 == Returned(true) {
        RecreatedIsRegular(site, View(), d, backing, backingFormat, e);
      }
      if e.diskInfoAgain.None? {
        return Returned(false), [];
      }
      NamesAreWellFormed();
      var scan := ScanDisk(e.diskInfoAgain.value, QEMU_FIELDS, DiskScan("", "", ""));
      if scan.None? {
        return Panicked, [];
      }
      var create := CreateArgs(scan.value.format, backing, backingFormat, d.vmPath);
      TryWrite(d.vmPath, e.newDisk(create), e.create);
      if e.create != Wrote {
        return Returned(false), [create];
      }
      var resize := ResizeArgs(d.vmPath, scan.value.size);
      TryWrite(d.vmPath, e.resizedDisk(resize), e.resize);
      return Returned(e.resize == Wrote), [create, resize];
    }

    method PrepareVmVolume(d: Domain, mustRecreate: bool, backing: string, backingFormat: string, e: PrepareEnv)
      returns (r: Outcome, ran: seq<Command>)
      requires Valid() && site.IsVm(d.vm, d.vmPath)
      modifies this
      ensures (View(), r, ran) == PrepareVm(old(View()), d, mustRecreate, backing, backingFormat, e)
    {
      var current := Read(Now(), d.vmPath);
      ran := [];
      if !IsSymlink(Now(), d.vmPath) || current.None? || |current.value| == 0 {
        if mustRecreate {
          r, ran := RecreateVmDisk(d, backing, backingFormat, e);
          if r != Returned(true) {
            return;
          }
        }
      }
      var ok := VmVolume(d.vm, d.vmPath, e.vm);
      r := Returned(ok);
    }

    /**
     Prepare, with the qemu-img calls it made: it keeps the invariant and every volume and
     mount, opens only its own devices, and touches no file of another VM.
     */
    method PrepareDomain(d: Domain, e: PrepareEnv) returns (r: Outcome, ran: seq<Command>)
      requires Valid() && PreparePlaced(site, View(), d, e)
      modifies this
      ensures Valid() && (View(), r, ran) == Prepare(old(View()), d, e)
      ensures (View(), r, ran) == PrepareOutcome(old(View()), d, e)
      ensures Kept(site, old(View()), View(), d, OwnFiles(old(View()), d) + site.imgSparse)
    {
      PrepareAnswer(site, View(), d, e);
      PrepareKeeps(site, View(), d, e);
      if !e.parse {
        return Returned(false), [];
      }
      var mustRecreate := !IsSymlink(Now(), d.vmPath);
      var imagePath := d.imagePath;
      if mustRecreate {
        if e.diskInfo.None? {
          return Returned(false), [];
        }
        imagePath := Scan(e.diskInfo.value, QEMU_FIELDS.backingFile, imagePath);
      }
      if imagePath == "" {
        imagePath := e.savedPath;
        if imagePath == "" {
          return Returned(false), [];
        }
      }
      assert ImagePath(old(View()), d, e) == Some(imagePath);
      if e.header.None? {
        return Returned(false), [];
      }
      r, ran := PrepareKnown(d, imagePath, mustRecreate, e);
    }

    /** Prepare once the image path is known and its header has been checked. */
    method PrepareKnown(d: Domain, imagePath: string, mustRecreate: bool, e: PrepareEnv)
      returns (r: Outcome, ran: seq<Command>)
      requires Valid() && site.IsVm(d.vm, d.vmPath) && d.img in site.imgs && e.header.Some?
      requires e.header.value ==> ImageSparsePath(imagePath) in site.imgSparse
      requires mustRecreate == !IsSymlink(View(), d.vmPath)
      modifies this
      ensures (View(), r, ran) == PrepareFrom(old(View()), d, imagePath, e)
    {
      var decryptedImagePath, backingFormat := "", "";
      if e.header.value {
        decryptedImagePath := DecryptedPath(d.img);
        PrepareImageKeeps(site, View(), d, imagePath, e);
        var ok;
        ok, backingFormat := PrepareEncryptedImage(d, imagePath, e);
        if !ok {
          return Returned(false), [];
        }
      }
      if HasPrefix(imagePath, MOUNT_PATH) || e.header.value {
        r, ran := PrepareVmVolume(d, mustRecreate, decryptedImagePath, backingFormat, e);
      } else {
        r, ran := Returned(true), [];
      }
    }

    // ----- stop.go -----

    /** Stop up to its question to the association table: no file changes, and no device goes away while mounted. */
    method CloseVmVolume(d: Domain, e: StopEnv) returns (proceeds: bool)
      requires Valid()
      modifies this`devices, this`mounts
      ensures Valid() && proceeds == StopProceeds(old(View()), d, e)
      ensures View() == if proceeds then CloseVm(old(View()), d, e) else old(View())
      ensures Shrinks(site, old(View()), View())
      ensures proceeds && e.unmountVm && e.closeVm && MountDir(d.vm) in old(mounts) ==>
        mounts == old(mounts) - {MountDir(d.vm)} && devices == old(devices) - {d.vm}
    {
      CloseVmShrinks(site, View(), d, e);
      if e.unmountVm && e.closeVm && MountDir(d.vm) in mounts {
        CloseVmCloses(site, View(), d, e);
      }
      if !e.parse || (!e.statFails && !Exists(Now(), d.vmPath)) || !e.status {
        return false;
      }
      if d.vm in devices {
        UnmountVolume(MountDir(d.vm), e.unmountVm);
        CloseVolume(d.vm, e.closeVm);
      }
      return true;
    }

    /**
     The image teardown, errors ignored: with the decrypted file's path, a working
     unmount and close take the image down.
     */
    method CloseImageVolume(d: Domain, imagePath: string, e: StopEnv)
      requires Valid()
      modifies this`devices, this`mounts
      ensures Valid() && View() == TearDownImage(old(View()), d, imagePath, e)
      ensures Shrinks(site, old(View()), View())
      ensures d.img in site.imgs && imagePath == DecryptedPath(d.img) && e.unmountImage && e.closeImage ==>
        MountDir(d.img) !in mounts && d.img !in devices
    {
      TearDownShrinks(site, View(), d, imagePath, e);
      if d.img in site.imgs && imagePath == DecryptedPath(d.img) && e.unmountImage && e.closeImage {
        TearDownTakesDown(site, View(), d, e);
      }
      UnmountVolume(imagePath, e.unmountImage);
      CloseVolume(d.img, e.closeImage);
    }
  }
}
