/**
 What Prepare answers and leaves behind: where its image path comes from, which of its
 parts it runs, when it succeeds, panics or leaves the host alone, and what one Prepare
 and the later removal of disk.info make of the VM's volume.
 */
module PrepareAnswers {
  import opened Common
  import opened Text
  import opened QemuInfo
  import opened Volumes
  import opened VolumeTheorems
  import opened HostRuns
  import opened VolumeAnswers

  // ----- the image path -----

  /** The disk is a symbolic link: the VM starts from shutoff. */
  predicate Linked(h: Host, d: Domain) {
    d.vmPath in h.root && h.root[d.vmPath].Symlink?
  }

  lemma LinkedIsSymlink(site: Site, h: Host, d: Domain)
    requires site.WellFormed() && HostInv(site, h) && d.vmPath in site.vmPaths
    ensures Linked(h, d) <==> IsSymlink(h, d.vmPath)
  {
    OutsideMounts(site, h, d.vmPath);
  }

  /** The first of two paths that is not empty. */
  function FirstOf(path: string, saved: string): Option<string> {
    if path != "" then Some(path) else if saved != "" then Some(saved) else None
  }

  /**
   A linked disk has the path of its domain; any other disk has the backing file of its
   info, or the path of the domain if the info names none; and the saved path stands in for
   an empty one. There is no path if the info is missing or the saved path is empty too.
   */
  lemma PathOfPrepare(site: Site, h: Host, d: Domain, e: PrepareEnv)
    requires site.WellFormed() && HostInv(site, h) && d.vmPath in site.vmPaths
    ensures Linked(h, d) ==> ImagePath(h, d, e) == FirstOf(d.imagePath, e.savedPath)
    ensures !Linked(h, d) && e.diskInfo.None? ==> ImagePath(h, d, e) == None
    ensures !Linked(h, d) && e.diskInfo.Some? ==>
      var lines := Split(e.diskInfo.value, "\n");
      && (forall k: nat | LastCarrier(lines, QEMU_FIELDS.backingFile, k) ::
            ImagePath(h, d, e) == FirstOf(Value(lines[k]), e.savedPath))
      && ((forall k | 0 <= k < |lines| :: !Carries(lines[k], QEMU_FIELDS.backingFile)) ==>
            ImagePath(h, d, e) == FirstOf(d.imagePath, e.savedPath))
  {
    LinkedIsSymlink(site, h, d);
    if e.diskInfo.Some? {
      var lines := Split(e.diskInfo.value, "\n");
      ScanYieldsLastCarrier(lines, QEMU_FIELDS.backingFile, d.imagePath);
      var field := QEMU_FIELDS.backingFile;
      forall j: nat, k: nat | LastCarrier(lines, field, j) && LastCarrier(lines, field, k) ensures j == k
      {
      }
    }
  }

  // ----- which parts run -----

  /** The decrypted file is there and not empty, and the second header check finds no header. */
  predicate Decrypted(h: Host, img: string, e: PrepareEnv) {
    var content := Read(h, MOUNT_PATH + img + "/" + img);
    content.Some? && content.value != [] && e.headerAgain == Some(false)
  }

  /** Hardware UUID, flavor and, if the flavor requires encryption, the unwrapped key are there. */
  predicate KeyIsThere(e: PrepareEnv) {
    && e.hardware && e.flavor.Some? && e.flavor.value.id != ""
    && (e.flavor.value.encryptionRequired ==> e.flavor.value.hasKey && e.unwrap)
  }

  /** This call makes, or accepts, the volume of an image that it has found encrypted. */
  predicate MakesImage(h: Host, d: Domain, e: PrepareEnv) {
    && e.header == Some(true) && e.flavor.Some? && e.flavor.value.encryptionRequired && !Decrypted(h, d.img, e)
  }

  /** The part for the image comes through. */
  predicate ImagePartWorks(h: Host, d: Domain, path: string, e: PrepareEnv) {
    e.header == Some(true) ==>
      KeyIsThere(e) && (MakesImage(h, d, e) ==> ImageOutcome(h, d.img, path, e.image).1 && e.imageInfo.Some?)
  }

  /** The host after the part for the image. */
  function HostWithImage(h: Host, d: Domain, path: string, e: PrepareEnv): Host {
    if KeyIsThere(e) && MakesImage(h, d, e) then ImageOutcome(h, d.img, path, e.image).0 else h
  }

  /** The format of the image as this call has seen it. */
  function FormatSeen(h: Host, d: Domain, e: PrepareEnv): string {
    if MakesImage(h, d, e) && e.imageInfo.Some? then Scanned(e.imageInfo.value, QEMU_FIELDS.fileFormat, "") else ""
  }

  /** The decrypted file, known to this call only when it has found the image encrypted. */
  function BackingSeen(d: Domain, e: PrepareEnv): string {
    if e.header == Some(true) then MOUNT_PATH + d.img + "/" + d.img else ""
  }

  /** The VM gets a volume: its image lies under the mount directory or has a header. */
  predicate GetsVolume(path: string, e: PrepareEnv) {
    HasPrefix(path, MOUNT_PATH) || e.header == Some(true)
  }

  lemma ImagePartAnswer(site: Site, h: Host, d: Domain, path: string, e: PrepareEnv)
    requires site.WellFormed() && HostInv(site, h) && d.img in site.imgs && e.header == Some(true)
    requires ImageSparsePath(path) in site.imgSparse
    ensures var (h1, ok, format) := PrepareImage(h, d, path, e);
      && h1 == HostWithImage(h, d, path, e) && (ok <==> ImagePartWorks(h, d, path, e))
      && (ok ==> format == FormatSeen(h, d, e))
  {
    ImageAnswer(site, h, d.img, path, e.image);
    assert DecryptedPath(d.img) == MOUNT_PATH + d.img + "/" + d.img;
  }

  lemma PrepareParts(site: Site, h: Host, d: Domain, e: PrepareEnv)
    requires site.WellFormed() && HostInv(site, h) && PreparePlaced(site, h, d, e)
    requires e.parse && ImagePath(h, d, e).Some? && e.header.Some?
    ensures var path := ImagePath(h, d, e).value;
      var h1 := HostWithImage(h, d, path, e);
      Prepare(h, d, e) ==
        if !ImagePartWorks(h, d, path, e) then (h1, Returned(false), [])
        else if GetsVolume(path, e)
        then PrepareVm(h1, d, !IsSymlink(h, d.vmPath), BackingSeen(d, e), FormatSeen(h, d, e), e)
        else (h1, Returned(true), [])
  {
    if e.header == Some(true) {
      ImagePartAnswer(site, h, d, ImagePath(h, d, e).value, e);
      assert DecryptedPath(d.img) == MOUNT_PATH + d.img + "/" + d.img;
    }
  }

  /** A VM on an ordinary image: Prepare succeeds and touches nothing. */
  lemma PlainVmIsLeftAlone(h: Host, d: Domain, e: PrepareEnv)
    requires e.parse && e.header == Some(false)
    requires ImagePath(h, d, e).Some? && !HasPrefix(ImagePath(h, d, e).value, MOUNT_PATH)
    ensures Prepare(h, d, e) == (h, Returned(true), [])
  {
  }

  /** Whatever is missing before the image is looked at, and whatever is missing for its key, leaves the host alone. */
  lemma RefusedPrepareChangesNothing(h: Host, d: Domain, e: PrepareEnv)
    requires !e.parse || ImagePath(h, d, e).None? || e.header.None? || (e.header == Some(true) && !KeyIsThere(e))
    ensures Prepare(h, d, e) == (h, Returned(false), [])
  {
  }

  // ----- recreating the disk -----

  /** A file outside every mount after a write. */
  function RootWritten(root: map<string, Node>, p: string, data: Bytes, o: WriteOutcome): map<string, Node> {
    match o
    case Wrote => root[p := Regular(data)]
    case WriteFailed => root
    case WriteTorn(left) => root[p := Regular(left)]
  }

  lemma WrittenAnswer(site: Site, h: Host, p: string, data: Bytes, o: WriteOutcome)
    requires site.WellFormed() && HostInv(site, h) && p in site.vmPaths
    ensures Written(h, p, data, o) == h.(root := RootWritten(h.root, p, data, o))
  {
    OutsideMounts(site, h, p);
  }

  /** The info of the disk is there, and every size line in it has its parenthesis. */
  ghost predicate InfoIsReadable(e: PrepareEnv) {
    e.diskInfoAgain.Some? && AllReadable(Split(e.diskInfoAgain.value, "\n"), QEMU_FIELDS)
  }

  /** The info of the disk is there and its scan does not panic. */
  predicate Scans(e: PrepareEnv) {
    e.diskInfoAgain.Some? && DiskScanned(e.diskInfoAgain.value).Some?
  }

  function ScanOf(e: PrepareEnv): DiskScan
    requires Scans(e)
  {
    DiskScanned(e.diskInfoAgain.value).value
  }

  /** The two calls for a disk whose info scans to `scan`. */
  function CommandsFor(d: Domain, backing: string, backingFormat: string, scan: DiskScan): seq<Command> {
    [CreateArgs(scan.format, backing, backingFormat, d.vmPath), ResizeArgs(d.vmPath, scan.size)]
  }

  lemma ReadableScans(e: PrepareEnv)
    ensures InfoIsReadable(e) <==> Scans(e)
  {
    if e.diskInfoAgain.Some? {
      LoopIsThreeScans(Split(e.diskInfoAgain.value, "\n"), QEMU_FIELDS, DiskScan("", "", ""));
    }
  }

  /** The host after the calls that recreate the disk. */
  function HostRecreated(h: Host, d: Domain, ran: seq<Command>, e: PrepareEnv): Host
    requires |ran| == 2
  {
    var made := RootWritten(h.root, d.vmPath, e.newDisk(ran[0]), e.create);
    h.(root := if e.create == Wrote then RootWritten(made, d.vmPath, e.resizedDisk(ran[1]), e.resize) else made)
  }

  /**
   The disk is recreated by two calls. A missing info or an unreadable one stops Prepare, or
   the agent, with the disk untouched; a failed create stops it with what create has left,
   and resize is not called.
   */
  lemma RecreateAnswer(site: Site, h: Host, d: Domain, backing: string, backingFormat: string, e: PrepareEnv)
    requires site.WellFormed() && HostInv(site, h) && d.vmPath in site.vmPaths
    ensures e.diskInfoAgain.None? ==> RecreateDisk(h, d, backing, backingFormat, e) == (h, Returned(false), [])
    ensures e.diskInfoAgain.Some? && !InfoIsReadable(e) ==>
      RecreateDisk(h, d, backing, backingFormat, e) == (h, Panicked, [])
    ensures InfoIsReadable(e) ==>
      Scans(e)
      && var ran := CommandsFor(d, backing, backingFormat, ScanOf(e));
         RecreateDisk(h, d, backing, backingFormat, e) ==
           (HostRecreated(h, d, ran, e), Returned(e.create == Wrote && e.resize == Wrote),
            if e.create == Wrote then ran else ran[..1])
  {
    ReadableScans(e);
    if Scans(e) {
      var ran := CommandsFor(d, backing, backingFormat, ScanOf(e));
      assert ran[..1] == [ran[0]];
      WrittenAnswer(site, h, d.vmPath, e.newDisk(ran[0]), e.create);
      WrittenKeeps(site, h, d.vmPath, e.newDisk(ran[0]), e.create);
      WrittenAnswer(site, Written(h, d.vmPath, e.newDisk(ran[0]), e.create), d.vmPath, e.resizedDisk(ran[1]), e.resize);
    }
  }

  /** The two calls of a Prepare that recreates the disk. */
  function CommandsOfPrepare(h: Host, d: Domain, e: PrepareEnv): seq<Command>
    requires Scans(e)
  {
    CommandsFor(d, BackingSeen(d, e), FormatSeen(h, d, e), ScanOf(e))
  }

  // ----- the whole of Prepare -----

  lemma ImagePartKeeps(site: Site, h: Host, d: Domain, path: string, e: PrepareEnv)
    requires site.WellFormed() && HostInv(site, h) && site.IsVm(d.vm, d.vmPath) && d.img in site.imgs
    requires e.header == Some(true) ==> ImageSparsePath(path) in site.imgSparse
    ensures var h1 := HostWithImage(h, d, path, e);
      && HostInv(site, h1) && h1.watched == h.watched && MountsKept(h, h1) && VolumesKept(h, h1)
      && FilesKept(h, h1, site.imgSparse)
      && (forall id | id != d.img :: id in h1.devices <==> id in h.devices)
      && (forall id | id in h.devices :: h1.devices[id] == h.devices[id])
      && (forall p | p in site.vmPaths + site.vmSparse ::
            (p in h1.root <==> p in h.root) && (p in h.root ==> h1.root[p] == h.root[p]))
  {
    if KeyIsThere(e) && MakesImage(h, d, e) {
      ImageAnswer(site, h, d.img, path, e.image);
      ImageManagerKeeps(site, h, d.img, path, e.image);
    }
  }

  /** The disk part for a disk that is not linked, on a host whose image part is done. */
  ghost function DiskOutcome(h: Host, d: Domain, ran: seq<Command>, e: PrepareEnv): (Host, Outcome, seq<Command>)
    requires |ran| == 2
  {
    var h1 := HostRecreated(h, d, ran, e);
    if e.create != Wrote then (h1, Returned(false), ran[..1])
    else if e.resize != Wrote then (h1, Returned(false), ran)
    else
      var (after, ok) := VmOutcome(h1, d.vm, d.vmPath, e.vm);
      (after, Returned(ok), ran)
  }

  /**
   Prepare of a VM that gets a volume, once its image part has come through: a linked disk is
   left as it is and its volume opened; any other disk is recreated first, and its volume is
   not touched unless create and resize have both worked.
   */
  ghost function VmPart(h: Host, h1: Host, d: Domain, e: PrepareEnv): (Host, Outcome, seq<Command>) {
    if Linked(h, d) then
      var (after, ok) := VmOutcome(h1, d.vm, d.vmPath, e.vm);
      (after, Returned(ok), [])
    else if e.diskInfoAgain.None? then (h1, Returned(false), [])
    else if !InfoIsReadable(e) || !Scans(e) then (h1, Panicked, [])
    else DiskOutcome(h1, d, CommandsOfPrepare(h, d, e), e)
  }

  /** Prepare, whatever fails: what it leaves, what it answers, and the commands that it runs. */
  ghost function PrepareOutcome(h: Host, d: Domain, e: PrepareEnv): (Host, Outcome, seq<Command>) {
    var path := ImagePath(h, d, e);
    if !e.parse || path.None? || e.header.None? then (h, Returned(false), [])
    else
      var h1 := HostWithImage(h, d, path.value, e);
      if !ImagePartWorks(h, d, path.value, e) then (h1, Returned(false), [])
      else if GetsVolume(path.value, e) then VmPart(h, h1, d, e)
      else (h1, Returned(true), [])
  }

  lemma VmPartAnswer(site: Site, h: Host, h1: Host, d: Domain, e: PrepareEnv)
    requires site.WellFormed() && HostInv(site, h) && HostInv(site, h1) && site.IsVm(d.vm, d.vmPath)
    requires Linked(h1, d) == Linked(h, d)
    ensures PrepareVm(h1, d, !IsSymlink(h, d.vmPath), BackingSeen(d, e), FormatSeen(h, d, e), e) == VmPart(h, h1, d, e)
  {
    LinkedIsSymlink(site, h, d);
    LinkedIsSymlink(site, h1, d);
    ReadableScans(e);
    if Linked(h, d) {
      VmAnswer(site, h1, d.vm, d.vmPath, e.vm);
    } else {
      RecreateAnswer(site, h1, d, BackingSeen(d, e), FormatSeen(h, d, e), e);
      if Scans(e) && e.create == e.resize == Wrote {
        RecreatedHost(site, h1, d, CommandsOfPrepare(h, d, e), e);
        VmAnswer(site, HostRecreated(h1, d, CommandsOfPrepare(h, d, e), e), d.vm, d.vmPath, e.vm);
      }
    }
  }

  lemma PrepareAnswer(site: Site, h: Host, d: Domain, e: PrepareEnv)
    requires site.WellFormed() && HostInv(site, h) && PreparePlaced(site, h, d, e)
    ensures Prepare(h, d, e) == PrepareOutcome(h, d, e)
  {
    var path := ImagePath(h, d, e);
    if e.parse && path.Some? && e.header.Some? {
      PrepareParts(site, h, d, e);
      if GetsVolume(path.value, e) {
        ImagePartKeeps(site, h, d, path.value, e);
        VmPartAnswer(site, h, HostWithImage(h, d, path.value, e), d, e);
      }
    }
  }

  /** The image part for a regular file: its device is open, or opening, mounting and decrypting work. */
  predicate ImageComesUp(h: Host, img: string, path: string, e: ImageEnv) {
    var sparse := path + "_sparseFile";
    || img in h.devices
    || (Opens(h, sparse, img, e.create) && MountWorks(e.mount)
        && (sparse in h.root || e.statFails
            || (path in h.root && h.root[path].Regular? && DecryptionWorks(e, h.root[path].data))))
  }

  /** The VM part: opening and mounting work, and for a new sparse file the disk moves into the volume. */
  predicate VmComesUp(h: Host, d: Domain, e: VmEnv) {
    var sparse := VmSparsePath(d.vm, d.vmPath);
    && Opens(h, sparse, d.vm, e.create) && MountWorks(e.mount)
    && (sparse in h.root || e.statFails || (!Linked(h, d) && e.copy == Wrote && e.remove && LinkWorks(e.link)))
  }

  /** Prepare comes as far as the VM's volume or its recreation. */
  predicate ReachesVm(h: Host, d: Domain, e: PrepareEnv) {
    var path := ImagePath(h, d, e);
    && e.parse && path.Some? && e.header.Some?
    && (e.header == Some(true) ==>
          KeyIsThere(e) && (MakesImage(h, d, e) ==> ImageComesUp(h, d.img, path.value, e.image) && e.imageInfo.Some?))
  }

  /** Disks are regular files or links into the VM's mount, and an image with a header is a regular file. */
  ghost predicate Ordinary(h: Host, d: Domain, e: PrepareEnv) {
    && (Linked(h, d) ==> h.root[d.vmPath] == Symlink(Under(MountDir(d.vm), "disk")))
    && (e.header == Some(true) && ImagePath(h, d, e).Some? ==>
          var path := ImagePath(h, d, e).value;
          !HasPrefix(path, MOUNT_PATH) && path in h.root && h.root[path].Regular?)
  }

  lemma ImagePartWorksWhen(site: Site, h: Host, d: Domain, e: PrepareEnv)
    requires site.WellFormed() && HostInv(site, h) && PreparePlaced(site, h, d, e) && Ordinary(h, d, e)
    requires e.parse && ImagePath(h, d, e).Some? && e.header.Some?
    ensures ImagePartWorks(h, d, ImagePath(h, d, e).value, e) <==> ReachesVm(h, d, e)
  {
    if e.header == Some(true) {
      ImageAnswer(site, h, d.img, ImagePath(h, d, e).value, e.image);
      ImageSucceedsExactlyWhen(site, h, d.img, ImagePath(h, d, e).value, e.image);
    }
  }

  /** Opening the VM's volume on a host that agrees with the first one on the VM's device and sparse file. */
  lemma VmPartWorksWhen(site: Site, h: Host, h1: Host, d: Domain, e: VmEnv)
    requires site.WellFormed() && HostInv(site, h1) && site.IsVm(d.vm, d.vmPath)
    requires d.vm in h1.devices <==> d.vm in h.devices
    requires var sparse := VmSparsePath(d.vm, d.vmPath);
      (sparse in h1.root <==> sparse in h.root) && (sparse in h.root ==> h1.root[sparse] == h.root[sparse])
    requires d.vmPath in h1.root && (if Linked(h, d) then h1.root[d.vmPath] == Symlink(Under(MountDir(d.vm), "disk"))
                                     else h1.root[d.vmPath].Regular?)
    ensures VmOutcome(h1, d.vm, d.vmPath, e).1 <==> VmComesUp(h, d, e)
  {
    VmAnswer(site, h1, d.vm, d.vmPath, e);
    VmSucceedsExactlyWhen(site, h1, d.vm, d.vmPath, e);
  }

  lemma RecreatedHost(site: Site, h: Host, d: Domain, ran: seq<Command>, e: PrepareEnv)
    requires site.WellFormed() && HostInv(site, h) && site.IsVm(d.vm, d.vmPath)
    requires |ran| == 2 && e.create == e.resize == Wrote
    ensures var h1 := HostRecreated(h, d, ran, e);
      && HostInv(site, h1) && h1 == h.(root := h.root[d.vmPath := Regular(e.resizedDisk(ran[1]))])
  {
  }

  lemma VmPartOfPrepare(site: Site, h: Host, d: Domain, e: PrepareEnv)
    requires site.WellFormed() && HostInv(site, h) && PreparePlaced(site, h, d, e) && Ordinary(h, d, e)
    requires ReachesVm(h, d, e)
    ensures var h1 := HostWithImage(h, d, ImagePath(h, d, e).value, e);
      && (Linked(h, d) ==> (VmOutcome(h1, d.vm, d.vmPath, e.vm).1 <==> VmComesUp(h, d, e.vm)))
      && (!Linked(h, d) && Scans(e) && e.create == e.resize == Wrote ==>
            var h2 := HostRecreated(h1, d, CommandsOfPrepare(h, d, e), e);
            (VmOutcome(h2, d.vm, d.vmPath, e.vm).1 <==> VmComesUp(h, d, e.vm)))
  {
    var h1 := HostWithImage(h, d, ImagePath(h, d, e).value, e);
    ImagePartKeeps(site, h, d, ImagePath(h, d, e).value, e);
    assert VmSparsePath(d.vm, d.vmPath) != d.vmPath;
    if Linked(h, d) {
      VmPartWorksWhen(site, h, h1, d, e.vm);
    } else if Scans(e) && e.create == e.resize == Wrote {
      RecreatedHost(site, h1, d, CommandsOfPrepare(h, d, e), e);
      VmPartWorksWhen(site, h, HostRecreated(h1, d, CommandsOfPrepare(h, d, e), e), d, e.vm);
    }
  }

  /**
   Exactly when Prepare succeeds, and exactly when it panics, in terms of the host that it
   finds and of the outcomes of its calls.
   */
  lemma PrepareSucceedsExactlyWhen(site: Site, h: Host, d: Domain, e: PrepareEnv)
    requires site.WellFormed() && HostInv(site, h) && PreparePlaced(site, h, d, e) && Ordinary(h, d, e)
    ensures Prepare(h, d, e).1 == Returned(true) <==>
      && ReachesVm(h, d, e)
      && (GetsVolume(ImagePath(h, d, e).value, e) ==>
            VmComesUp(h, d, e.vm) && (Linked(h, d) || (InfoIsReadable(e) && e.create == e.resize == Wrote)))
    ensures Prepare(h, d, e).1 == Panicked <==>
      && ReachesVm(h, d, e) && GetsVolume(ImagePath(h, d, e).value, e)
      && !Linked(h, d) && e.diskInfoAgain.Some? && !InfoIsReadable(e)
  {
    if !e.parse || ImagePath(h, d, e).None? || e.header.None? {
      RefusedPrepareChangesNothing(h, d, e);
    } else {
      ImagePartWorksWhen(site, h, d, e);
      PrepareAnswer(site, h, d, e);
      ReadableScans(e);
      if ReachesVm(h, d, e) {
        VmPartOfPrepare(site, h, d, e);
      }
    }
  }

  // ----- what is left -----

  /** A handler is registered exactly by a successful Prepare that makes the VM's volume and whose watch works. */
  lemma WatchedAfterPrepare(site: Site, h: Host, d: Domain, e: PrepareEnv)
    requires site.WellFormed() && HostInv(site, h) && PreparePlaced(site, h, d, e)
    ensures Prepare(h, d, e).0.watched ==
      if Prepare(h, d, e).1 == Returned(true) && GetsVolume(ImagePath(h, d, e).value, e)
         && e.vm.watch && VmSparsePath(d.vm, d.vmPath) !in h.root && !e.vm.statFails
      then h.watched[DiskInfoPath(d.vmPath) := d.vm]
      else h.watched
  {
    PrepareAnswer(site, h, d, e);
    if e.parse && ImagePath(h, d, e).Some? && e.header.Some? {
      ImagePartKeeps(site, h, d, ImagePath(h, d, e).value, e);
      WatchedAfterPart(site, h, HostWithImage(h, d, ImagePath(h, d, e).value, e), d, e);
    }
  }

  lemma WatchedAfterPart(site: Site, h: Host, h1: Host, d: Domain, e: PrepareEnv)
    requires site.WellFormed() && HostInv(site, h1) && site.IsVm(d.vm, d.vmPath)
    ensures var (after, r, _) := VmPart(h, h1, d, e);
      after.watched ==
        if r == Returned(true) && e.vm.watch && VmSparsePath(d.vm, d.vmPath) !in h1.root && !e.vm.statFails
        then h1.watched[DiskInfoPath(d.vmPath) := d.vm]
        else h1.watched
  {
    if Linked(h, d) {
      WatchedAfterOutcome(site, h1, d, e.vm);
    } else if Scans(e) {
      WatchedAfterDisk(site, h1, d, CommandsOfPrepare(h, d, e), e);
    }
  }

  lemma WatchedAfterDisk(site: Site, h: Host, d: Domain, ran: seq<Command>, e: PrepareEnv)
    requires site.WellFormed() && HostInv(site, h) && site.IsVm(d.vm, d.vmPath) && |ran| == 2
    ensures var (after, r, _) := DiskOutcome(h, d, ran, e);
      after.watched ==
        if r == Returned(true) && e.vm.watch && VmSparsePath(d.vm, d.vmPath) !in h.root && !e.vm.statFails
        then h.watched[DiskInfoPath(d.vmPath) := d.vm]
        else h.watched
  {
    if e.create == e.resize == Wrote {
      assert VmSparsePath(d.vm, d.vmPath) != d.vmPath;
      RecreatedHost(site, h, d, ran, e);
      WatchedAfterOutcome(site, HostRecreated(h, d, ran, e), d, e.vm);
    }
  }

  lemma WatchedAfterOutcome(site: Site, h: Host, d: Domain, e: VmEnv)
    requires site.WellFormed() && HostInv(site, h) && site.IsVm(d.vm, d.vmPath)
    ensures var (after, ok) := VmOutcome(h, d.vm, d.vmPath, e);
      after.watched ==
        if ok && e.watch && VmSparsePath(d.vm, d.vmPath) !in h.root && !e.statFails
        then h.watched[DiskInfoPath(d.vmPath) := d.vm]
        else h.watched
  {
    VmAnswer(site, h, d.vm, d.vmPath, e);
    WatchedAfterVm(site, h, d.vm, d.vmPath, e);
  }

  /** A successful disk part ends with a successful opening of the VM's volume. */
  lemma SuccessfulVmPart(h: Host, h1: Host, d: Domain, e: PrepareEnv) returns (h2: Host)
    requires VmPart(h, h1, d, e).1 == Returned(true)
    ensures VmOutcome(h2, d.vm, d.vmPath, e.vm) == (VmPart(h, h1, d, e).0, true)
  {
    h2 := if Linked(h, d) then h1 else HostRecreated(h1, d, CommandsOfPrepare(h, d, e), e);
  }

  lemma MountedAfterVm(h: Host, vm: string, vmPath: string, e: VmEnv)
    requires VmOutcome(h, vm, vmPath, e).1
    ensures var after := VmOutcome(h, vm, vmPath, e).0;
      && after.mounts == h.mounts[MountDir(vm) := vm]
      && after.devices == h.devices[vm := VmSparsePath(vm, vmPath)]
  {
  }

  /** A successful Prepare leaves the VM mounted on its open device. */
  lemma MountedAfterPrepare(site: Site, h: Host, d: Domain, e: PrepareEnv)
    requires site.WellFormed() && HostInv(site, h) && PreparePlaced(site, h, d, e)
    requires Prepare(h, d, e).1 == Returned(true) && GetsVolume(ImagePath(h, d, e).value, e)
    ensures var after := Prepare(h, d, e).0;
      && MountDir(d.vm) in after.mounts && after.mounts[MountDir(d.vm)] == d.vm
      && d.vm in after.devices && after.devices[d.vm] == VmSparsePath(d.vm, d.vmPath)
  {
    PrepareAnswer(site, h, d, e);
    var h2 := SuccessfulVmPart(h, HostWithImage(h, d, ImagePath(h, d, e).value, e), d, e);
    MountedAfterVm(h2, d.vm, d.vmPath, e.vm);
  }

  /** The commands of the disk part are the first of the two. */
  lemma CommandsOfPart(h: Host, h1: Host, d: Domain, e: PrepareEnv)
    ensures var (_, r, ran) := VmPart(h, h1, d, e);
      && (ran != [] ==> !Linked(h, d) && Scans(e) && ran <= CommandsOfPrepare(h, d, e))
      && (r == Returned(true) && !Linked(h, d) ==> |ran| == 2)
  {
    if !Linked(h, d) && InfoIsReadable(e) && Scans(e) {
      assert VmPart(h, h1, d, e) == DiskOutcome(h1, d, CommandsOfPrepare(h, d, e), e);
      CommandsOfDisk(h1, d, CommandsOfPrepare(h, d, e), e);
    } else {
      assert VmPart(h, h1, d, e).2 == [];
    }
  }

  lemma CommandsOfDisk(h: Host, d: Domain, all: seq<Command>, e: PrepareEnv)
    requires |all| == 2
    ensures var (_, r, ran) := DiskOutcome(h, d, all, e);
      ran <= all && (r == Returned(true) ==> |ran| == 2)
  {
  }

  /** Nothing but the VM's own files, device and mount differs, outside the mount directory. */
  ghost predicate OnlyVmDiffers(h: Host, after: Host, d: Domain) {
    && (forall id | id != d.vm :: id in after.devices <==> id in h.devices)
    && (forall dir | dir != MountDir(d.vm) :: dir in after.mounts <==> dir in h.mounts)
    && FilesKept(h, after, {d.vmPath, VmSparsePath(d.vm, d.vmPath)})
  }

  /**
   An image that is already decrypted, and whose second header check finds no header, is left
   alone: its volume, device and mount stay as they were.
   */
  lemma DecryptedImageIsLeftAlone(site: Site, h: Host, d: Domain, e: PrepareEnv)
    requires site.WellFormed() && HostInv(site, h) && PreparePlaced(site, h, d, e) && e.header == Some(true)
    requires Read(h, DecryptedPath(d.img)).Some? && Read(h, DecryptedPath(d.img)).value != []
    requires e.headerAgain == Some(false)
    ensures var after := Prepare(h, d, e).0;
      && OnlyVmDiffers(h, after, d)
      && (d.img in after.devices <==> d.img in h.devices)
      && (MountDir(d.img) in after.mounts <==> MountDir(d.img) in h.mounts)
      && (forall p | p in site.imgSparse && p in h.root :: p in after.root && after.root[p] == h.root[p])
  {
    assert DecryptedPath(d.img) == MOUNT_PATH + d.img + "/" + d.img;
    WithoutImagePart(site, h, d, e);
    if MountDir(d.img) == MountDir(d.vm) {
      MountDirInjective(d.img, d.vm);
    }
  }

  lemma WithoutImagePart(site: Site, h: Host, d: Domain, e: PrepareEnv)
    requires site.WellFormed() && HostInv(site, h) && PreparePlaced(site, h, d, e)
    requires e.header == Some(true) && Decrypted(h, d.img, e)
    ensures OnlyVmDiffers(h, Prepare(h, d, e).0, d)
  {
    PrepareAnswer(site, h, d, e);
    if e.parse && ImagePath(h, d, e).Some? {
      PartStaysApart(site, h, h, d, e);
    }
  }

  lemma PartStaysApart(site: Site, h: Host, h1: Host, d: Domain, e: PrepareEnv)
    requires site.WellFormed() && HostInv(site, h1) && site.IsVm(d.vm, d.vmPath)
    ensures OnlyVmDiffers(h1, VmPart(h, h1, d, e).0, d)
  {
    var after := HostOfVmPart(h, h1, d, e);
    if Linked(h, d) {
      VmPartStaysApart(site, h1, d, e.vm);
    } else if Scans(e) {
      DiskPartStaysApart(site, h1, d, CommandsOfPrepare(h, d, e), e);
    }
  }

  /** The three hosts that the disk part may leave. */
  lemma HostOfVmPart(h: Host, h1: Host, d: Domain, e: PrepareEnv) returns (after: Host)
    ensures after == VmPart(h, h1, d, e).0
    ensures
      || after == h1
      || (Linked(h, d) && after == VmOutcome(h1, d.vm, d.vmPath, e.vm).0)
      || (!Linked(h, d) && Scans(e) && after == DiskOutcome(h1, d, CommandsOfPrepare(h, d, e), e).0)
  {
    after := VmPart(h, h1, d, e).0;
  }

  lemma DiskPartStaysApart(site: Site, h: Host, d: Domain, ran: seq<Command>, e: PrepareEnv)
    requires site.WellFormed() && HostInv(site, h) && site.IsVm(d.vm, d.vmPath) && |ran| == 2
    ensures OnlyVmDiffers(h, DiskOutcome(h, d, ran, e).0, d)
  {
    var h1 := HostRecreated(h, d, ran, e);
    RecreatedKeeps(site, h, d, ran, e);
    if e.create == e.resize == Wrote {
      VmPartStaysApart(site, h1, d, e.vm);
      DiffersTwice(h, h1, VmOutcome(h1, d.vm, d.vmPath, e.vm).0, d);
    }
  }

  lemma DiffersTwice(h: Host, mid: Host, after: Host, d: Domain)
    requires OnlyVmDiffers(h, mid, d) && OnlyVmDiffers(mid, after, d)
    ensures OnlyVmDiffers(h, after, d)
  {
  }

  lemma RecreatedKeeps(site: Site, h: Host, d: Domain, ran: seq<Command>, e: PrepareEnv)
    requires site.WellFormed() && HostInv(site, h) && site.IsVm(d.vm, d.vmPath) && |ran| == 2
    ensures HostInv(site, HostRecreated(h, d, ran, e)) && OnlyVmDiffers(h, HostRecreated(h, d, ran, e), d)
  {
  }

  lemma VmPartStaysApart(site: Site, h: Host, d: Domain, e: VmEnv)
    requires site.WellFormed() && HostInv(site, h) && site.IsVm(d.vm, d.vmPath)
    ensures OnlyVmDiffers(h, VmOutcome(h, d.vm, d.vmPath, e).0, d)
  {
    VmAnswer(site, h, d.vm, d.vmPath, e);
    VmManagerKeeps(site, h, d.vm, d.vmPath, e);
    VmMountsOnly(site, h, d, e);
  }

  lemma VmMountsOnly(site: Site, h: Host, d: Domain, e: VmEnv)
    requires site.WellFormed() && HostInv(site, h) && site.IsVm(d.vm, d.vmPath)
    ensures var after := VmOutcome(h, d.vm, d.vmPath, e).0;
      after.mounts == h.mounts || after.mounts == h.mounts[MountDir(d.vm) := d.vm]
  {
  }
}
