/**
 Runs of Prepare and Stop over one host, mixed with guest writes and with the removal
 of watched files: what every reachable state keeps, for any outcome of any call.
 */
module HostRuns {
  import opened Common
  import opened QemuInfo
  import opened Volumes
  import opened VolumeTheorems

  // ----- imageVolumeManager -----

  ghost predicate ImageMounted(site: Site, h: Host, img: string, imagePath: string) {
    && site.WellFormed() && HostInv(site, h) && img in site.imgs && ImageSparsePath(imagePath) in site.imgSparse
    && MountDir(img) in h.mounts && img in h.devices && h.devices[img] == ImageSparsePath(imagePath)
  }

  /** A write of the decrypted image. */
  lemma WriteInImage(site: Site, h: Host, img: string, imagePath: string, data: Bytes)
    requires ImageMounted(site, h, img, imagePath)
    ensures var sparse := ImageSparsePath(imagePath);
      var after := Write(h, DecryptedPath(img), data);
      && ImageMounted(site, after, img, imagePath) && FilesKept(h, after, {sparse}) && IsVolume(h, sparse)
      && after == h.(root := h.root[sparse := Sparse(h.root[sparse].files[img := data])])
  {
    WriteInVolume(site, h, img, img, data);
  }

  lemma DecryptIntoKeeps(site: Site, h: Host, img: string, imagePath: string, e: ImageEnv)
    requires ImageMounted(site, h, img, imagePath)
    ensures var (after, ok) := DecryptInto(h, img, imagePath, e);
      var sparse := ImageSparsePath(imagePath);
      && ImageMounted(site, after, img, imagePath)
      && after == h.(root := after.root) && FilesKept(h, after, {sparse})
      && (ok ==>
            && Read(h, imagePath).Some? && e.decrypt(Read(h, imagePath).value).Some?
            && after.root[sparse] == Sparse(h.root[sparse].files[img := e.decrypt(Read(h, imagePath).value).value]))
  {
    var encrypted := Read(h, imagePath);
    if encrypted.Some? && e.decrypt(encrypted.value).Some? {
      if e.write.WriteTorn? {
        WriteInImage(site, h, img, imagePath, e.write.left);
      } else if e.write.Wrote? {
        WriteInImage(site, h, img, imagePath, e.decrypt(encrypted.value).value);
      }
    }
  }

  /** The call gets as far as the decryption. */
  predicate Decrypts(h: Host, img: string, imagePath: string, e: ImageEnv) {
    var sparse := ImageSparsePath(imagePath);
    var (h1, created) := CreateVolume(h, sparse, img, e.create);
    sparse !in h.root && !e.statFails && created == Done && CheckMount(h1, img, img, e.mount).1
  }

  function HostForDecrypt(h: Host, img: string, imagePath: string, e: ImageEnv): Host {
    CheckMount(CreateVolume(h, ImageSparsePath(imagePath), img, e.create).0, img, img, e.mount).0
  }

  lemma FreshImageVolume(site: Site, h: Host, img: string, imagePath: string, e: ImageEnv)
    requires site.WellFormed() && HostInv(site, h) && img in site.imgs && ImageSparsePath(imagePath) in site.imgSparse
    requires Decrypts(h, img, imagePath, e)
    ensures var sparse := ImageSparsePath(imagePath);
      var h2 := HostForDecrypt(h, img, imagePath, e);
      && ImageMounted(site, h2, img, imagePath) && h2.root[sparse] == Sparse(map[])
      && VolumesKept(h, h2) && FilesKept(h, h2, {sparse}) && h2.watched == h.watched
      && h2.devices == h.devices[img := sparse] && img !in h.devices
      && MountsKept(h, h2)
    ensures ImageVolumeManager(h, img, imagePath, e)
      == DecryptInto(HostForDecrypt(h, img, imagePath, e), img, imagePath, e)
  {
    OpenAndMount(site, h, ImageSparsePath(imagePath), img, img, e.create, e.mount);
    CreateEffect(h, ImageSparsePath(imagePath), img, e.create);
  }

  lemma FreshImageKeeps(site: Site, h: Host, img: string, imagePath: string, e: ImageEnv)
    requires site.WellFormed() && HostInv(site, h) && img in site.imgs && ImageSparsePath(imagePath) in site.imgSparse
    requires Decrypts(h, img, imagePath, e)
    ensures var after := ImageVolumeManager(h, img, imagePath, e).0;
      && HostInv(site, after) && VolumesKept(h, after)
      && FilesKept(h, after, {ImageSparsePath(imagePath)}) && after.watched == h.watched
      && img !in h.devices && after.devices == h.devices[img := ImageSparsePath(imagePath)]
      && MountsKept(h, after)
  {
    var h2 := HostForDecrypt(h, img, imagePath, e);
    FreshImageVolume(site, h, img, imagePath, e);
    DecryptIntoKeeps(site, h2, img, imagePath, e);
    var after := DecryptInto(h2, img, imagePath, e).0;
    forall p | IsVolume(h, p) ensures p in after.root && after.root[p] == h.root[p] {
      assert p in site.vmSparse + site.imgSparse;
    }
  }

  /**
   Whatever fails, imageVolumeManager leaves every existing volume and every file but a
   fresh sparse file as it was.
   */
  lemma ImageManagerKeeps(site: Site, h: Host, img: string, imagePath: string, e: ImageEnv)
    requires site.WellFormed() && HostInv(site, h) && img in site.imgs && ImageSparsePath(imagePath) in site.imgSparse
    ensures var after := ImageVolumeManager(h, img, imagePath, e).0;
      && HostInv(site, after) && VolumesKept(h, after)
      && FilesKept(h, after, {ImageSparsePath(imagePath)}) && after.watched == h.watched
      && (after.devices == h.devices
          || (img !in h.devices && after.devices == h.devices[img := ImageSparsePath(imagePath)]))
      && MountsKept(h, after)
  {
    var sparse := ImageSparsePath(imagePath);
    if Decrypts(h, img, imagePath, e) {
      FreshImageKeeps(site, h, img, imagePath, e);
    } else {
      CreateEffect(h, sparse, img, e.create);
      OpenAndMount(site, h, sparse, img, img, e.create, e.mount);
    }
  }

  // ----- Prepare and Stop -----

  /**
   The VM and the image belong to the site; an image found encrypted has its sparse file
   among the image sparse files.
   */
  ghost predicate PreparePlaced(site: Site, h: Host, d: Domain, e: PrepareEnv) {
    && site.IsVm(d.vm, d.vmPath) && d.img in site.imgs
    && (e.header == Some(true) && ImagePath(h, d, e).Some? ==>
          ImageSparsePath(ImagePath(h, d, e).value) in site.imgSparse)
  }

  /** The files that one Prepare may change: the VM's own two, unless it is linked and has its sparse file already. */
  ghost function OwnFiles(h: Host, d: Domain): set<string> {
    if IsSymlink(h, d.vmPath) && VmSparsePath(d.vm, d.vmPath) in h.root then {}
    else {d.vmPath, VmSparsePath(d.vm, d.vmPath)}
  }

  /** New devices are the call's own two, on the sparse files that belong to them. */
  ghost predicate DevicesGrow(site: Site, h: Host, after: Host, d: Domain) {
    && (forall id | id in h.devices :: id in after.devices && after.devices[id] == h.devices[id])
    && (forall id | id in after.devices && id !in h.devices ::
          if id == d.vm then after.devices[id] == VmSparsePath(d.vm, d.vmPath)
          else id == d.img && after.devices[id] in site.imgSparse)
  }

  /** What a step of Prepare keeps. */
  ghost predicate Kept(site: Site, h: Host, after: Host, d: Domain, except: set<string>) {
    && HostInv(site, after) && VolumesKept(h, after) && FilesKept(h, after, except) && DevicesGrow(site, h, after, d)
    && MountsKept(h, after)
  }

  lemma KeptTwice(site: Site, h: Host, mid: Host, after: Host, d: Domain, a: set<string>, b: set<string>)
    requires Kept(site, h, mid, d, a) && Kept(site, mid, after, d, b)
    ensures Kept(site, h, after, d, a + b)
  {
  }

  lemma PrepareImageKeeps(site: Site, h: Host, d: Domain, imagePath: string, e: PrepareEnv)
    requires site.WellFormed() && HostInv(site, h) && d.img in site.imgs && d.vm in site.vms
    requires ImageSparsePath(imagePath) in site.imgSparse
    ensures Kept(site, h, PrepareImage(h, d, imagePath, e).0, d, site.imgSparse)
  {
    ImageManagerKeeps(site, h, d.img, imagePath, e.image);
  }

  lemma WrittenKeeps(site: Site, h: Host, p: string, data: Bytes, o: WriteOutcome)
    requires site.WellFormed() && HostInv(site, h) && p in site.vmPaths
    ensures var after := Written(h, p, data, o);
      && HostInv(site, after) && VolumesKept(h, after) && FilesKept(h, after, {p})
      && after == h.(root := after.root)
  {
    OutsideMounts(site, h, p);
    forall q | IsVolume(h, q) ensures q != p {
      assert q in site.vmSparse + site.imgSparse;
    }
  }

  lemma RecreateKeeps(site: Site, h: Host, d: Domain, backing: string, backingFormat: string, e: PrepareEnv)
    requires site.WellFormed() && HostInv(site, h) && d.vmPath in site.vmPaths
    ensures var after := RecreateDisk(h, d, backing, backingFormat, e).0;
      && HostInv(site, after) && VolumesKept(h, after) && FilesKept(h, after, {d.vmPath})
      && after == h.(root := after.root)
  {
    if e.diskInfoAgain.Some? && DiskScanned(e.diskInfoAgain.value).Some? {
      var scan := DiskScanned(e.diskInfoAgain.value).value;
      var made := e.newDisk(CreateArgs(scan.format, backing, backingFormat, d.vmPath));
      WrittenKeeps(site, h, d.vmPath, made, e.create);
      WrittenKeeps(site, Written(h, d.vmPath, made, e.create), d.vmPath,
          e.resizedDisk(ResizeArgs(d.vmPath, scan.size)), e.resize);
    }
  }

  /** A recreated disk is a regular file with what the resize left. */
  lemma RecreatedIsRegular(site: Site, h: Host, d: Domain, backing: string, backingFormat: string, e: PrepareEnv)
    requires site.WellFormed() && HostInv(site, h) && d.vmPath in site.vmPaths
    requires RecreateDisk(h, d, backing, backingFormat, e).1 == Returned(true)
    ensures var (after, _, ran) := RecreateDisk(h, d, backing, backingFormat, e);
      && |ran| == 2 && d.vmPath in after.root && after.root[d.vmPath] == Regular(e.resizedDisk(ran[1]))
      && !IsSymlink(after, d.vmPath)
  {
    var (after, _, ran) := RecreateDisk(h, d, backing, backingFormat, e);
    var made := Written(h, d.vmPath, e.newDisk(ran[0]), e.create);
    WrittenKeeps(site, h, d.vmPath, e.newDisk(ran[0]), e.create);
    OutsideMounts(site, made, d.vmPath);
    WrittenKeeps(site, made, d.vmPath, e.resizedDisk(ran[1]), e.resize);
    OutsideMounts(site, after, d.vmPath);
  }

  lemma KeptWithin(site: Site, h: Host, after: Host, d: Domain, a: set<string>, b: set<string>)
    requires Kept(site, h, after, d, a) && a <= b
    ensures Kept(site, h, after, d, b)
  {
  }

  lemma VmVolumeKept(site: Site, h: Host, d: Domain, e: VmEnv)
    requires site.WellFormed() && HostInv(site, h) && site.IsVm(d.vm, d.vmPath)
    ensures var sparse := VmSparsePath(d.vm, d.vmPath);
      Kept(site, h, VmVolumeManager(h, d.vm, d.vmPath, e).0, d, if sparse in h.root then {} else {d.vmPath, sparse})
  {
    VmManagerKeeps(site, h, d.vm, d.vmPath, e);
  }

  lemma RecreateKept(site: Site, h: Host, d: Domain, backing: string, backingFormat: string, e: PrepareEnv)
    requires site.WellFormed() && HostInv(site, h) && site.IsVm(d.vm, d.vmPath)
    ensures var h1 := RecreateDisk(h, d, backing, backingFormat, e).0;
      && Kept(site, h, h1, d, {d.vmPath})
      && (VmSparsePath(d.vm, d.vmPath) in h1.root <==> VmSparsePath(d.vm, d.vmPath) in h.root)
  {
    RecreateKeeps(site, h, d, backing, backingFormat, e);
    assert VmSparsePath(d.vm, d.vmPath) != d.vmPath && !HasPrefix(VmSparsePath(d.vm, d.vmPath), MOUNT_PATH);
  }

  /** The disk is recreated and then taken into its volume. */
  lemma RecreatedVmKept(site: Site, h: Host, d: Domain, backing: string, backingFormat: string, e: PrepareEnv)
    requires site.WellFormed() && HostInv(site, h) && site.IsVm(d.vm, d.vmPath)
    ensures var own := {d.vmPath, VmSparsePath(d.vm, d.vmPath)};
      var h1 := RecreateDisk(h, d, backing, backingFormat, e).0;
      Kept(site, h, h1, d, own) && Kept(site, h, VmVolumeManager(h1, d.vm, d.vmPath, e.vm).0, d, own)
  {
    var sparse := VmSparsePath(d.vm, d.vmPath);
    var own := {d.vmPath, sparse};
    var h1 := RecreateDisk(h, d, backing, backingFormat, e).0;
    var after := VmVolumeManager(h1, d.vm, d.vmPath, e.vm).0;
    var files := if sparse in h1.root then {} else own;
    RecreateKept(site, h, d, backing, backingFormat, e);
    VmVolumeKept(site, h1, d, e.vm);
    KeptTwice(site, h, h1, after, d, {d.vmPath}, files);
    KeptWithin(site, h, after, d, {d.vmPath} + files, own);
    KeptWithin(site, h, h1, d, {d.vmPath}, own);
  }

  lemma PrepareVmKeeps(site: Site, h: Host, d: Domain, mustRecreate: bool, backing: string, backingFormat: string,
                       e: PrepareEnv)
    requires site.WellFormed() && HostInv(site, h) && site.IsVm(d.vm, d.vmPath)
    requires mustRecreate == !IsSymlink(h, d.vmPath)
    ensures Kept(site, h, PrepareVm(h, d, mustRecreate, backing, backingFormat, e).0, d, OwnFiles(h, d))
  {
    if mustRecreate {
      RecreatedVmKept(site, h, d, backing, backingFormat, e);
    } else {
      VmVolumeKept(site, h, d, e.vm);
      assert PrepareVm(h, d, mustRecreate, backing, backingFormat, e).0 == VmVolumeManager(h, d.vm, d.vmPath, e.vm).0;
    }
  }

  /** Looking up a VM disk never goes through a mount, so image work does not change what is found there. */
  lemma DiskLookup(site: Site, h: Host, after: Host, vmPath: string)
    requires site.WellFormed() && HostInv(site, h) && HostInv(site, after) && vmPath in site.vmPaths
    requires FilesKept(h, after, site.imgSparse)
    ensures Lookup(h, vmPath) == Lookup(after, vmPath) && IsSymlink(h, vmPath) == IsSymlink(after, vmPath)
  {
    OutsideMounts(site, h, vmPath);
    OutsideMounts(site, after, vmPath);
  }

  lemma PrepareVmAfterImage(site: Site, h: Host, h1: Host, d: Domain, backing: string, backingFormat: string,
                            e: PrepareEnv)
    requires site.WellFormed() && HostInv(site, h) && site.IsVm(d.vm, d.vmPath) && Kept(site, h, h1, d, site.imgSparse)
    ensures var after := PrepareVm(h1, d, !IsSymlink(h, d.vmPath), backing, backingFormat, e).0;
      Kept(site, h, after, d, OwnFiles(h, d) + site.imgSparse)
    ensures Kept(site, h, h1, d, OwnFiles(h, d) + site.imgSparse)
  {
    DiskLookup(site, h, h1, d.vmPath);
    PrepareVmKeeps(site, h1, d, !IsSymlink(h1, d.vmPath), backing, backingFormat, e);
    assert OwnFiles(h1, d) == OwnFiles(h, d) by {
      assert VmSparsePath(d.vm, d.vmPath) !in site.imgSparse;
    }
    KeptTwice(site, h, h1, PrepareVm(h1, d, !IsSymlink(h, d.vmPath), backing, backingFormat, e).0, d,
        site.imgSparse, OwnFiles(h1, d));
    assert site.imgSparse + OwnFiles(h, d) == OwnFiles(h, d) + site.imgSparse;
  }

  lemma PrepareFromKeeps(site: Site, h: Host, d: Domain, path: string, e: PrepareEnv)
    requires site.WellFormed() && HostInv(site, h) && site.IsVm(d.vm, d.vmPath) && d.img in site.imgs && e.header.Some?
    requires e.header == Some(true) ==> ImageSparsePath(path) in site.imgSparse
    ensures Kept(site, h, PrepareFrom(h, d, path, e).0, d, OwnFiles(h, d) + site.imgSparse)
  {
    if e.header.value {
      PrepareImageKeeps(site, h, d, path, e);
      var (h1, _, backingFormat) := PrepareImage(h, d, path, e);
      PrepareVmAfterImage(site, h, h1, d, BackingFile(d, e), backingFormat, e);
    } else {
      PrepareVmAfterImage(site, h, h, d, "", "", e);
    }
  }

  /**
   One Prepare, whatever fails in it: the host invariant holds, no existing volume is
   overwritten, no mount is lost, the only devices opened are its own, and outside the
   mount directory it changes at most image sparse files and, unless the VM is already
   linked to its volume, the VM's own disk and sparse file.
   */
  lemma PrepareKeeps(site: Site, h: Host, d: Domain, e: PrepareEnv)
    requires site.WellFormed() && HostInv(site, h) && PreparePlaced(site, h, d, e)
    ensures Kept(site, h, Prepare(h, d, e).0, d, OwnFiles(h, d) + site.imgSparse)
  {
    var path := ImagePath(h, d, e);
    if e.parse && path.Some? && e.header.Some? {
      PrepareFromKeeps(site, h, d, path.value, e);
    }
  }

  /** Devices and mounts only go away. */
  ghost predicate Shrinks(site: Site, h: Host, after: Host) {
    && HostInv(site, after) && after.root == h.root && after.watched == h.watched
    && (forall id | id in after.devices :: id in h.devices && after.devices[id] == h.devices[id])
    && (forall dir | dir in after.mounts :: dir in h.mounts && after.mounts[dir] == h.mounts[dir])
  }

  lemma UnmountShrinks(site: Site, h: Host, path: string, works: bool)
    requires HostInv(site, h)
    ensures Shrinks(site, h, Unmount(h, path, works))
  {
  }

  lemma DeleteShrinks(site: Site, h: Host, id: string, works: bool)
    requires HostInv(site, h)
    ensures Shrinks(site, h, DeleteVolume(h, id, works))
  {
  }

  lemma CloseVmShrinks(site: Site, h: Host, d: Domain, e: StopEnv)
    requires HostInv(site, h)
    ensures Shrinks(site, h, CloseVm(h, d, e))
  {
    UnmountShrinks(site, h, MountDir(d.vm), e.unmountVm);
    DeleteShrinks(site, Unmount(h, MountDir(d.vm), e.unmountVm), d.vm, e.closeVm);
  }

  lemma TearDownShrinks(site: Site, h: Host, d: Domain, imagePath: string, e: StopEnv)
    requires HostInv(site, h)
    ensures Shrinks(site, h, TearDownImage(h, d, imagePath, e))
  {
    UnmountShrinks(site, h, imagePath, e.unmountImage);
    DeleteShrinks(site, Unmount(h, imagePath, e.unmountImage), d.img, e.closeImage);
  }

  /** A decrypted file is not the mount point of an identifier without a slash. */
  lemma FileIsNoMountPoint(img: string, id: string)
    requires '/' !in id
    ensures DecryptedPath(img) != MountDir(id)
  {
    var path := DecryptedPath(img);
    assert path == MOUNT_PATH + (img + "/" + img);
    assert path[|MOUNT_PATH|..] == img + "/" + img && '/' in img + "/" + img;
    assert MountDir(id)[|MOUNT_PATH|..] == id;
  }

  lemma FilesAreNoMountPoints(site: Site, h: Host, img: string)
    requires site.WellFormed() && HostInv(site, h)
    ensures DecryptedPath(img) !in h.mounts
  {
    forall dir | dir in h.mounts ensures dir != DecryptedPath(img) {
      FileIsNoMountPoint(img, h.mounts[dir]);
    }
  }

  /**
   Unmounting the decrypted file, when that works, takes the image's mount away, and then
   its device can be closed.
   */
  lemma TearDownTakesDown(site: Site, h: Host, d: Domain, e: StopEnv)
    requires site.WellFormed() && HostInv(site, h) && d.img in site.imgs && e.unmountImage && e.closeImage
    ensures var after := TearDownImage(h, d, DecryptedPath(d.img), e);
      MountDir(d.img) !in after.mounts && d.img !in after.devices
  {
    UnderMount(d.img, d.img);
    FilesAreNoMountPoints(site, h, d.img);
    var unmounted := Unmount(h, DecryptedPath(d.img), true);
    UnmountShrinks(site, h, DecryptedPath(d.img), true);
    forall dir | dir in unmounted.mounts ensures unmounted.mounts[dir] != d.img {}
  }

  /**
   One Stop, whatever fails in it: no file and no volume changes, devices and mounts
   only go away, and no device goes away while it is mounted.
   */
  lemma StopKeeps(site: Site, h: Host, d: Domain, isLastVm: bool, imagePath: string, e: StopEnv)
    requires HostInv(site, h)
    ensures Shrinks(site, h, Stop(h, d, isLastVm, imagePath, e))
  {
    var closed := CloseVm(h, d, e);
    CloseVmShrinks(site, h, d, e);
    TearDownShrinks(site, closed, d, imagePath, e);
  }

  // ----- runs -----

  datatype Event =
    | Prepares(d: Domain, pe: PrepareEnv)
    | Stops(d: Domain, isLastVm: bool, imagePath: string, se: StopEnv)
    | Writes(vm: string, data: Bytes)
    | Removes(file: string)

  function Apply(h: Host, ev: Event): Host {
    match ev
    case Prepares(d, e) => Prepare(h, d, e).0
    case Stops(d, isLastVm, imagePath, e) => Stop(h, d, isLastVm, imagePath, e)
    case Writes(vm, data) => GuestWrite(h, vm, data)
    case Removes(file) => DiskInfoRemoved(h, file)
  }

  function Run(h: Host, evs: seq<Event>): Host {
    if evs == [] then h else Apply(Run(h, evs[..|evs| - 1]), evs[|evs| - 1])
  }

  ghost predicate Placed(site: Site, h: Host, ev: Event) {
    match ev
    case Prepares(d, e) => PreparePlaced(site, h, d, e)
    case Stops(d, _, _, _) => true
    case Writes(vm, _) => vm in site.vms
    case Removes(_) => true
  }

  ghost predicate PlacedRun(site: Site, h: Host, evs: seq<Event>) {
    forall k | 0 <= k < |evs| :: Placed(site, Run(h, evs[..k]), evs[k])
  }

  lemma {:induction false} PlacedInit(site: Site, h: Host, evs: seq<Event>)
    requires evs != [] && PlacedRun(site, h, evs)
    ensures PlacedRun(site, h, evs[..|evs| - 1]) && Placed(site, Run(h, evs[..|evs| - 1]), evs[|evs| - 1])
  {
    var init := evs[..|evs| - 1];
    forall k | 0 <= k < |init| ensures Placed(site, Run(h, init[..k]), init[k]) {
      assert init[..k] == evs[..k];
    }
  }

  lemma GuestWriteKeeps(site: Site, h: Host, vm: string, data: Bytes)
    requires site.WellFormed() && HostInv(site, h) && vm in site.vms
    ensures var after := GuestWrite(h, vm, data);
      && HostInv(site, after) && after == h.(root := after.root)
      && (MountDir(vm) in h.mounts ==>
            && vm in h.devices && IsVolume(h, h.devices[vm])
            && after.root == h.root[h.devices[vm] := Sparse(h.root[h.devices[vm]].files["disk" := data])])
      && (MountDir(vm) !in h.mounts ==> after == h)
  {
    if MountDir(vm) in h.mounts {
      WriteInVolume(site, h, vm, "disk", data);
    }
  }

  lemma RemovalKeeps(site: Site, h: Host, file: string)
    requires site.WellFormed() && HostInv(site, h)
    ensures var after := DiskInfoRemoved(h, file);
      && HostInv(site, after) && after == h.(root := after.root)
      && (forall p | !HasPrefix(p, MOUNT_PATH) && p !in site.vmSparse ::
            (p in after.root <==> p in h.root) && (p in h.root ==> after.root[p] == h.root[p]))
      && (forall p | p in site.vmSparse && IsVolume(h, p) :: IsVolume(after, p))
      && (file in h.watched ==> forall p | IsVolume(h, p) && after.root[p] != h.root[p] ::
            h.watched[file] in h.devices && h.devices[h.watched[file]] == p)
      && (file !in h.watched ==> after == h)
  {
    if file in h.watched {
      var vm := h.watched[file];
      var dir := MountDir(vm);
      if dir in h.mounts {
        MountDirInjective(vm, h.mounts[dir]);
      } else {
        forall p | !HasPrefix(p, MOUNT_PATH) ensures DirOf(p) != dir {
          assert DirOf(p) <= p;
          assert DirOf(p) == dir ==> MOUNT_PATH <= dir;
        }
        forall p | IsVolume(h, p) ensures !HasPrefix(p, MOUNT_PATH) {
          assert p in site.vmSparse + site.imgSparse;
        }
      }
    }
  }

  lemma ApplyKeepsInv(site: Site, h: Host, ev: Event)
    requires site.WellFormed() && HostInv(site, h) && Placed(site, h, ev)
    ensures HostInv(site, Apply(h, ev))
  {
    match ev
    case Prepares(d, e) => PrepareKeeps(site, h, d, e);
    case Stops(d, isLastVm, imagePath, e) => StopKeeps(site, h, d, isLastVm, imagePath, e);
    case Writes(vm, data) => GuestWriteKeeps(site, h, vm, data);
    case Removes(file) => RemovalKeeps(site, h, file);
  }

  /**
   In every reachable state, after any failures: what is mounted is open, at its own
   mount point, on its own sparse file.
   */
  lemma {:induction false} EveryRunKeepsHostInv(site: Site, h: Host, evs: seq<Event>)
    requires site.WellFormed() && HostInv(site, h) && PlacedRun(site, h, evs)
    ensures HostInv(site, Run(h, evs))
  {
    if evs != [] {
      PlacedInit(site, h, evs);
      EveryRunKeepsHostInv(site, h, evs[..|evs| - 1]);
      ApplyKeepsInv(site, Run(h, evs[..|evs| - 1]), evs[|evs| - 1]);
    }
  }

  lemma ImageVolumeStep(site: Site, h: Host, ev: Event, p: string)
    requires site.WellFormed() && HostInv(site, h) && Placed(site, h, ev) && p in site.imgSparse && IsVolume(h, p)
    ensures IsVolume(Apply(h, ev), p) && Apply(h, ev).root[p] == h.root[p]
  {
    match ev
    case Prepares(d, e) => PrepareKeeps(site, h, d, e);
    case Stops(d, isLastVm, imagePath, e) => StopKeeps(site, h, d, isLastVm, imagePath, e);
    case Writes(vm, data) => GuestWriteKeeps(site, h, vm, data);
    case Removes(file) => RemovalKeeps(site, h, file);
  }

  /**
   Once an image has a volume, no later call, failed call, teardown, guest write or
   file removal ever changes it: in particular a completed decryption stays, and no
   later call decrypts or rewrites it.
   */
  lemma {:induction false} ImageVolumesNeverChange(site: Site, h: Host, evs: seq<Event>, p: string)
    requires site.WellFormed() && HostInv(site, h) && PlacedRun(site, h, evs)
    requires p in site.imgSparse && IsVolume(h, p)
    ensures IsVolume(Run(h, evs), p) && Run(h, evs).root[p] == h.root[p]
  {
    if evs != [] {
      PlacedInit(site, h, evs);
      ImageVolumesNeverChange(site, h, evs[..|evs| - 1], p);
      EveryRunKeepsHostInv(site, h, evs[..|evs| - 1]);
      ImageVolumeStep(site, Run(h, evs[..|evs| - 1]), evs[|evs| - 1], p);
    }
  }

  // ----- closing -----

  /** A Stop whose unmount and close work leaves a mounted VM closed and unmounted, and nothing else changed. */
  lemma CloseVmCloses(site: Site, h: Host, d: Domain, e: StopEnv)
    requires HostInv(site, h) && e.unmountVm && e.closeVm && MountDir(d.vm) in h.mounts
    ensures CloseVm(h, d, e) == h.(devices := h.devices - {d.vm}, mounts := h.mounts - {MountDir(d.vm)})
  {
    MountDirInjective(d.vm, h.mounts[MountDir(d.vm)]);
    var mounts := h.mounts - {MountDir(d.vm)};
    assert forall dir | dir in mounts :: mounts[dir] != d.vm;
  }
}
