/**
 What the two volume managers and the disk.info handler answer and leave behind, for any
 outcome of each of their calls: files, devices, mounts, handlers and result, written out.
 */
module VolumeAnswers {
  import opened Common
  import opened Volumes
  import opened VolumeTheorems
  import opened HostRuns
  import I = ImageVolumes

  // ----- opening and mounting -----

  /** The device is closed, its sparse path holds nothing or a volume, and the creation works. */
  predicate Opens(h: Host, sparse: string, id: string, o: CreateOutcome) {
    id !in h.devices && (sparse in h.root ==> h.root[sparse].Sparse?) && o == Created
  }

  /** A missing sparse file is made before the device is mid, unless the call is refused at once. */
  function RootOpened(h: Host, sparse: string, id: string, o: CreateOutcome): map<string, Node> {
    if id in h.devices || sparse in h.root || o == Refused then h.root else h.root[sparse := Sparse(map[])]
  }

  /** The host after an attempt to open a device and to mount it behind a placeholder file. */
  function HostOpened(h: Host, sparse: string, id: string, name: string, o: CreateOutcome, e: MountEnv): Host {
    var root := RootOpened(h, sparse, id, o);
    if !Opens(h, sparse, id, o) then h.(root := root)
    else
      Host(
        if e.mkdir && e.open then root[Under(MountDir(id), name) := Regular([])] else root,
        h.devices[id := sparse],
        if MountWorks(e) then h.mounts[MountDir(id) := id] else h.mounts,
        h.watched)
  }

  lemma CreateAnswer(h: Host, sparse: string, id: string, o: CreateOutcome)
    ensures var (h1, r) := CreateVolume(h, sparse, id, o);
      && (r == AlreadyThere <==> id in h.devices)
      && (r == Done <==> Opens(h, sparse, id, o))
      && h1.root == RootOpened(h, sparse, id, o)
      && h1 == h.(root := h1.root, devices := if Opens(h, sparse, id, o) then h.devices[id := sparse] else h.devices)
  {
  }

  /** checkMountPathExistsAndMountVolume on any host: a used mount point counts as a success. */
  lemma MountAnswer(h: Host, id: string, name: string, e: MountEnv)
    requires '/' !in name
    ensures var (after, ok) := CheckMount(h, id, name, e);
      var dir := MOUNT_PATH + id;
      && (ok <==> e.mkdir && e.open && e.lookup && e.chown && (dir in h.mounts || (id in h.devices && e.mount)))
      && after.root == (if e.mkdir && e.open then Write(h, Under(dir, name), []).root else h.root)
      && after == h.(root := after.root, mounts := if ok && dir !in h.mounts then h.mounts[dir := id] else h.mounts)
  {
    UnderMount(id, name);
  }

  /** createSymLinkAndChangeOwnership on any host: link made, file gone, or file untouched. */
  lemma SymlinkAnswer(h: Host, target: string, source: string, e: LinkEnv)
    ensures CreateSymlink(h, target, source, e) ==
      (h.(root :=
            if !e.lookup || !e.remove then h.root
            else if e.symlink then h.root[source := Symlink(target)]
            else h.root - {source}),
       LinkWorks(e))
  {
    assert (h.root - {source})[source := Symlink(target)] == h.root[source := Symlink(target)];
  }

  lemma OpenAnswer(site: Site, h: Host, sparse: string, id: string, name: string, o: CreateOutcome, e: MountEnv)
    requires site.WellFormed() && HostInv(site, h) && id in site.vms + site.imgs && '/' !in name
    requires sparse in if id in site.vms then site.vmSparse else site.imgSparse
    ensures var (h1, r) := CreateVolume(h, sparse, id, o);
      && (r == AlreadyThere <==> id in h.devices)
      && (r == Done <==> Opens(h, sparse, id, o))
      && (r == Done ==> CheckMount(h1, id, name, e) == (HostOpened(h, sparse, id, name, o, e), MountWorks(e)))
      && (r != Done ==> h1 == HostOpened(h, sparse, id, name, o, e))
  {
    var (h1, r) := CreateVolume(h, sparse, id, o);
    CreateAnswer(h, sparse, id, o);
    if r == Done {
      PlaceholderMissesTheVolume(site, h, sparse, id, o, name);
      UnderMount(id, name);
    }
  }

  // ----- vmVolumeManager -----

  /** The copy of a disk, or the decryption of an image, in its volume. */
  function RootCopied(root: map<string, Node>, sparse: string, name: string, data: Bytes, o: WriteOutcome)
    : map<string, Node>
  {
    match o
    case Wrote => root[sparse := Sparse(map[name := data])]
    case WriteFailed => root
    case WriteTorn(left) => root[sparse := Sparse(map[name := left])]
  }

  /** The disk after its copy: in place, replaced by the link, or gone. */
  function RootLinked(root: map<string, Node>, vm: string, vmPath: string, e: VmEnv): map<string, Node> {
    if e.copy != Wrote || !e.remove then root
    else if e.link.lookup && e.link.remove && e.link.symlink
    then root[vmPath := Symlink(MOUNT_PATH + vm + "/disk")]
    else root - {vmPath}
  }

  /** The disk in the new volume: copied, replaced by the link, and a handler registered for its disk.info. */
  function VmFilled(mid: Host, vm: string, vmPath: string, disk: Bytes, e: VmEnv): (Host, bool) {
    var copied := RootCopied(mid.root, VmSparsePath(vm, vmPath), BaseOf(vmPath), disk, e.copy);
    var ok := e.copy == Wrote && e.remove && LinkWorks(e.link);
    (mid.(root := RootLinked(copied, vm, vmPath, e),
          watched := if ok && e.watch then mid.watched[DiskInfoPath(vmPath) := vm] else mid.watched), ok)
  }

  /**
   vmVolumeManager, whatever fails: the device stays open and the volume mounted once that
   has worked; an existing sparse file ends the call there; a new one takes the disk.
   */
  function VmOutcome(h: Host, vm: string, vmPath: string, e: VmEnv): (Host, bool) {
    var sparse := VmSparsePath(vm, vmPath);
    var mid := HostOpened(h, sparse, vm, "disk", e.create, e.mount);
    var disk := Read(mid, vmPath);
    if !Opens(h, sparse, vm, e.create) || !MountWorks(e.mount) then (mid, false)
    else if sparse in h.root || e.statFails then (mid, true)
    else if disk.None? then (mid, false)
    else VmFilled(mid, vm, vmPath, disk.value, e)
  }

  lemma VmAnswer(site: Site, h: Host, vm: string, vmPath: string, e: VmEnv)
    requires site.WellFormed() && HostInv(site, h) && site.IsVm(vm, vmPath)
    ensures VmVolumeManager(h, vm, vmPath, e) == VmOutcome(h, vm, vmPath, e)
  {
    var sparse := VmSparsePath(vm, vmPath);
    OpenAnswer(site, h, sparse, vm, "disk", e.create, e.mount);
    if Copies(h, vm, vmPath, e) {
      FreshVolume(site, h, vm, vmPath, e);
      CopyAnswer(site, HostForCopy(h, vm, vmPath, e), vm, vmPath, e);
    }
  }

  lemma CopyAnswer(site: Site, h: Host, vm: string, vmPath: string, e: VmEnv)
    requires VmMounted(site, h, vm, vmPath) && h.root[VmSparsePath(vm, vmPath)] == Sparse(map[])
    ensures var disk := Read(h, vmPath);
      CopyAndLink(h, vm, vmPath, e) == if disk.None? then (h, false) else VmFilled(h, vm, vmPath, disk.value, e)
  {
    var disk := Read(h, vmPath);
    if disk.Some? && e.copy.WriteTorn? {
      CopyInVolume(site, h, vm, vmPath, e.copy.left);
    } else if disk.Some? && e.copy.Wrote? {
      CopyInVolume(site, h, vm, vmPath, disk.value);
      LinkAnswer(Write(h, Under(MountDir(vm), BaseOf(vmPath)), disk.value), vm, vmPath, e);
    }
  }

  lemma LinkAnswer(h: Host, vm: string, vmPath: string, e: VmEnv)
    requires e.copy == Wrote
    ensures var ok := e.remove && LinkWorks(e.link);
      RemoveAndLink(h, vm, vmPath, e) ==
        (h.(root := RootLinked(h.root, vm, vmPath, e),
            watched := if ok && e.watch then h.watched[DiskInfoPath(vmPath) := vm] else h.watched), ok)
  {
    assert Under(MountDir(vm), "disk") == MOUNT_PATH + vm + "/disk";
    assert (h.root - {vmPath}) - {vmPath} == h.root - {vmPath};
    var link := Symlink(MOUNT_PATH + vm + "/disk");
    assert (h.root - {vmPath})[vmPath := link] == h.root[vmPath := link];
  }

  /** The disk as the call reads it behind the new mount: a regular file whole, a link into the mount not at all. */
  lemma DiskRead(site: Site, h: Host, vm: string, vmPath: string, e: VmEnv)
    requires site.WellFormed() && HostInv(site, h) && site.IsVm(vm, vmPath) && VmSparsePath(vm, vmPath) !in h.root
    requires Opens(h, VmSparsePath(vm, vmPath), vm, e.create) && MountWorks(e.mount)
    ensures var mid := HostOpened(h, VmSparsePath(vm, vmPath), vm, "disk", e.create, e.mount);
      && (vmPath !in h.root ==> Read(mid, vmPath) == None)
      && (vmPath in h.root && h.root[vmPath].Regular? ==> Read(mid, vmPath) == Some(h.root[vmPath].data))
      && (vmPath in h.root && h.root[vmPath] == Symlink(Under(MountDir(vm), "disk")) ==> Read(mid, vmPath) == None)
  {
    var sparse := VmSparsePath(vm, vmPath);
    var mid := HostOpened(h, sparse, vm, "disk", e.create, e.mount);
    OpenAndMount(site, h, sparse, vm, "disk", e.create, e.mount);
    OpenAnswer(site, h, sparse, vm, "disk", e.create, e.mount);
    UnderMount(vm, "disk");
    assert vmPath != sparse && !HasPrefix(vmPath, MOUNT_PATH);
    OutsideMounts(site, mid, vmPath);
  }

  /**
   Success for any disk that is missing, regular, or the link into the VM's mount: an
   existing volume is only opened and mounted; a new one also takes the disk, which must
   then be a regular file.
   */
  lemma VmSucceedsExactlyWhen(site: Site, h: Host, vm: string, vmPath: string, e: VmEnv)
    requires site.WellFormed() && HostInv(site, h) && site.IsVm(vm, vmPath)
    requires vmPath in h.root && !h.root[vmPath].Regular? ==> h.root[vmPath] == Symlink(Under(MountDir(vm), "disk"))
    ensures var sparse := VmSparsePath(vm, vmPath);
      VmVolumeManager(h, vm, vmPath, e).1 <==>
        && Opens(h, sparse, vm, e.create) && MountWorks(e.mount)
        && (sparse in h.root || e.statFails
            || (vmPath in h.root && h.root[vmPath].Regular? && e.copy == Wrote && e.remove && LinkWorks(e.link)))
  {
    VmAnswer(site, h, vm, vmPath, e);
    if VmSparsePath(vm, vmPath) !in h.root && Opens(h, VmSparsePath(vm, vmPath), vm, e.create) && MountWorks(e.mount) {
      DiskRead(site, h, vm, vmPath, e);
    }
  }

  // ----- the handler for disk.info -----

  /** A handler is registered exactly by a successful call on a new sparse file whose watch works. */
  lemma WatchedAfterVm(site: Site, h: Host, vm: string, vmPath: string, e: VmEnv)
    requires site.WellFormed() && HostInv(site, h) && site.IsVm(vm, vmPath)
    ensures var (after, ok) := VmVolumeManager(h, vm, vmPath, e);
      after.watched ==
        if ok && e.watch && VmSparsePath(vm, vmPath) !in h.root && !e.statFails
        then h.watched[DiskInfoPath(vmPath) := vm]
        else h.watched
  {
    VmAnswer(site, h, vm, vmPath, e);
  }

  /** Removing everything below the VM's mount directory: its whole volume, or the files on the bare mount point. */
  lemma RemovalAnswer(site: Site, h: Host, file: string)
    requires site.WellFormed() && HostInv(site, h)
    ensures var after := DiskInfoRemoved(h, file);
      if file !in h.watched then after == h
      else
        var dir := MountDir(h.watched[file]);
        if dir in h.mounts
        then h.watched[file] in h.devices && after == h.(root := h.root[h.devices[h.watched[file]] := Sparse(map[])])
        else after == h.(root := after.root) && forall p ::
          && (p in after.root <==> p in h.root && DirOf(p) != dir)
          && (p in after.root ==> after.root[p] == h.root[p])
  {
    if file in h.watched && MountDir(h.watched[file]) in h.mounts {
      MountDirInjective(h.watched[file], h.mounts[MountDir(h.watched[file])]);
    }
  }

  // ----- imageVolumeManager -----

  /** The decryption, if the image can be read and decrypted, in the new volume. */
  function ImageFilled(mid: Host, img: string, imagePath: string, e: ImageEnv): (Host, bool) {
    var plain := if e.read && Read(mid, imagePath).Some? then e.decrypt(Read(mid, imagePath).value) else None;
    if plain.None? then (mid, false)
    else
      (mid.(root := RootCopied(mid.root, imagePath + "_sparseFile", img, plain.value, e.write)),
       e.write == Wrote && e.lookup && e.chmod && e.chown)
  }

  /**
   imageVolumeManager, whatever fails: an open device is accepted as it is; otherwise the
   device stays open and the volume mounted once that has worked, an existing sparse file
   ends the call there with success, and a new one gets the decryption of the image.
   */
  function ImageOutcome(h: Host, img: string, imagePath: string, e: ImageEnv): (Host, bool) {
    var sparse := imagePath + "_sparseFile";
    var mid := HostOpened(h, sparse, img, img, e.create, e.mount);
    if img in h.devices then (h, true)
    else if !Opens(h, sparse, img, e.create) || !MountWorks(e.mount) then (mid, false)
    else if sparse in h.root || e.statFails then (mid, true)
    else ImageFilled(mid, img, imagePath, e)
  }

  lemma ImageAnswer(site: Site, h: Host, img: string, imagePath: string, e: ImageEnv)
    requires site.WellFormed() && HostInv(site, h) && img in site.imgs && ImageSparsePath(imagePath) in site.imgSparse
    ensures ImageVolumeManager(h, img, imagePath, e) == ImageOutcome(h, img, imagePath, e)
  {
    OpenAnswer(site, h, ImageSparsePath(imagePath), img, img, e.create, e.mount);
    if Decrypts(h, img, imagePath, e) {
      FreshImageVolume(site, h, img, imagePath, e);
      DecryptAnswer(site, HostForDecrypt(h, img, imagePath, e), img, imagePath, e);
    }
  }

  lemma DecryptAnswer(site: Site, h: Host, img: string, imagePath: string, e: ImageEnv)
    requires ImageMounted(site, h, img, imagePath) && h.root[ImageSparsePath(imagePath)] == Sparse(map[])
    ensures DecryptInto(h, img, imagePath, e) == ImageFilled(h, img, imagePath, e)
  {
    if e.read && Read(h, imagePath).Some? && e.decrypt(Read(h, imagePath).value).Some? {
      if e.write.WriteTorn? {
        WriteInImage(site, h, img, imagePath, e.write.left);
      } else if e.write.Wrote? {
        WriteInImage(site, h, img, imagePath, e.decrypt(Read(h, imagePath).value).value);
      }
    }
  }

  /** Reading, decrypting and writing the image work, with all that follows. */
  predicate DecryptionWorks(e: ImageEnv, original: Bytes) {
    e.read && e.decrypt(original).Some? && e.write == Wrote && e.lookup && e.chmod && e.chown
  }

  /**
   For an image that is a regular file, imageVolumeManager succeeds if and only if its device
   is already open, or creating, opening and mounting work on a sparse path that holds
   nothing or a volume, and, only for a sparse file that is new and seen to be, the
   decryption works too. In particular an image that its last Stop has taken down comes up
   again without any decryption.
   */
  lemma ImageSucceedsExactlyWhen(site: Site, h: Host, img: string, imagePath: string, e: ImageEnv)
    requires site.WellFormed() && HostInv(site, h) && img in site.imgs && ImageSparsePath(imagePath) in site.imgSparse
    requires !HasPrefix(imagePath, MOUNT_PATH) && imagePath in h.root && h.root[imagePath].Regular?
    ensures var sparse := imagePath + "_sparseFile";
      ImageVolumeManager(h, img, imagePath, e).1 <==>
        || img in h.devices
        || (&& (sparse in h.root ==> h.root[sparse].Sparse?) && e.create == Created && MountWorks(e.mount)
            && (sparse in h.root || e.statFails || DecryptionWorks(e, h.root[imagePath].data)))
  {
    ImageAnswer(site, h, img, imagePath, e);
    if Decrypts(h, img, imagePath, e) {
      OpenAnswer(site, h, ImageSparsePath(imagePath), img, img, e.create, e.mount);
      I.OriginalIsRead(site, h, img, imagePath, e);
    }
  }

  /** An image whose device is closed and whose volume is there: a call that works mounts the volume as it is. */
  lemma ImageComesUpAgain(site: Site, h: Host, img: string, imagePath: string, e: ImageEnv)
    requires site.WellFormed() && HostInv(site, h) && img in site.imgs && ImageSparsePath(imagePath) in site.imgSparse
    requires img !in h.devices && IsVolume(h, ImageSparsePath(imagePath)) && e.create == Created && MountWorks(e.mount)
    ensures var (after, ok) := ImageVolumeManager(h, img, imagePath, e);
      && ok && after.devices == h.devices[img := ImageSparsePath(imagePath)]
      && after.mounts == h.mounts[MountDir(img) := img]
      && Read(after, DecryptedPath(img)) ==
           (var files := h.root[ImageSparsePath(imagePath)].files; if img in files then Some(files[img]) else None)
  {
    ImageAnswer(site, h, img, imagePath, e);
    ImageManagerKeeps(site, h, img, imagePath, e);
    I.MountedImageReads(site, ImageVolumeManager(h, img, imagePath, e).0, img, imagePath);
  }
}
