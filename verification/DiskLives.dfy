/**
 Lives of disks that do happen: from any host with a regular disk and a closed device, a
 first Prepare, a guest write, a Stop and a second Prepare that all succeed; and one host
 on which a launch and its repetition do what the theorems about them say.
 */
module DiskLives {
  import opened Common
  import opened Text
  import opened QemuInfo
  import opened Volumes
  import opened VolumeTheorems
  import opened HostRuns
  import opened PrepareAnswers
  import opened PreparedVms
  import opened Recreation
  import W = HostWitnesses

  /** A VM whose disk is a regular file, with no volume and no open device, on a decrypted image of the site. */
  ghost predicate Launchable(site: Site, h: Host, d: Domain) {
    && site.WellFormed() && HostInv(site, h) && site.IsVm(d.vm, d.vmPath) && d.img in site.imgs
    && BaseOf(d.vmPath) == "disk" && !IsSymlink(h, d.vmPath)
    && VmSparsePath(d.vm, d.vmPath) !in h.root && d.vm !in h.devices
    && d.imagePath == DecryptedPath(d.img) && IsToken(d.img)
  }

  /** The info of a disk on the decrypted image. */
  ghost predicate OnTheImage(text: string, d: Domain, format: string, human: string, bytes: string) {
    && Shows(text, QEMU_FIELDS.backingFile, FieldLine(QEMU_FIELDS.backingFile, DecryptedPath(d.img)))
    && DescribesDisk(text, QEMU_FIELDS, format, human, bytes)
  }

  // ----- the first Prepare -----

  lemma FirstDiskWorks(site: Site, h: Host, d: Domain, e: PrepareEnv)
    requires Launchable(site, h, d) && Scans(e) && e.create == e.resize == Wrote && e.vm == W.EVERYTHING_WORKS
    ensures PrepareVm(h, d, true, "", "", e).1 == Returned(true)
    ensures MountDir(d.vm) in PrepareVm(h, d, true, "", "", e).0.mounts
  {
    var (h1, _, ran) := RecreateDisk(h, d, "", "", e);
    var data := e.resizedDisk(ran[1]);
    RecreateKeeps(site, h, d, "", "", e);
    RecreatedIsRegular(site, h, d, "", "", e);
    assert VmSparsePath(d.vm, d.vmPath) != d.vmPath && !HasPrefix(VmSparsePath(d.vm, d.vmPath), MOUNT_PATH);
    SucceedsExactlyWhen(site, h1, d.vm, d.vmPath, e.vm, data);
    SuccessMounts(site, h1, d.vm, d.vmPath, e.vm);
  }

  lemma SuccessMounts(site: Site, h: Host, vm: string, vmPath: string, e: VmEnv)
    requires site.WellFormed() && HostInv(site, h) && site.IsVm(vm, vmPath) && !e.statFails
    requires VmSparsePath(vm, vmPath) !in h.root && VmVolumeManager(h, vm, vmPath, e).1
    ensures MountDir(vm) in VmVolumeManager(h, vm, vmPath, e).0.mounts
  {
    SuccessCopiesIfNew(h, vm, vmPath, e);
    FreshVolume(site, h, vm, vmPath, e);
    CopyAndLinkKeeps(site, HostForCopy(h, vm, vmPath, e), vm, vmPath, e);
  }

  lemma FirstPrepareWorks(site: Site, h: Host, d: Domain, text: string, format: string, human: string, bytes: string,
                          disk: Bytes)
    requires Launchable(site, h, d) && OnTheImage(text, d, format, human, bytes)
    ensures var e := SecondTry(text, disk);
      && PreparePlaced(site, h, d, e) && Prepare(h, d, e).1 == Returned(true)
      && ImagePath(h, d, e) == Some(DecryptedPath(d.img)) && GetsVolume(DecryptedPath(d.img), e)
      && MountDir(d.vm) in Prepare(h, d, e).0.mounts
  {
    var e := SecondTry(text, disk);
    NamesAreWellFormed();
    PathToken(d.img);
    PathOfDisk(h, d, e, DecryptedPath(d.img));
    ScanOfDisk(text, QEMU_FIELDS, format, human, bytes, DiskScan("", "", ""));
    FirstDiskWorks(site, h, d, e);
    UnencryptedPrepare(h, d, DecryptedPath(d.img), e);
  }

  lemma UnencryptedPrepare(h: Host, d: Domain, path: string, e: PrepareEnv)
    requires e.parse && e.header == Some(false) && ImagePath(h, d, e) == Some(path) && HasPrefix(path, MOUNT_PATH)
    ensures Prepare(h, d, e) == PrepareVm(h, d, !IsSymlink(h, d.vmPath), "", "", e)
  {
  }

  // ----- the Stop and the second Prepare -----

  const STOP_WORKS := StopEnv(true, false, true, true, true, true, true)

  /** The VM writes its disk, and then it is stopped while other VMs of the image may run. */
  function Session(d: Domain, written: Bytes): seq<Event> {
    [Writes(d.vm, written), Stops(d, false, "", STOP_WORKS)]
  }

  lemma {:induction false} SessionIs(h: Host, d: Domain, written: Bytes)
    ensures var evs := Session(d, written);
      && evs[..0] == [] && evs[..1] == [evs[0]] && Run(h, evs[..1]) == GuestWrite(h, d.vm, written)
      && Run(h, evs) == Stop(GuestWrite(h, d.vm, written), d, false, "", STOP_WORKS)
  {
    var evs := Session(d, written);
    assert evs[..0] == [] && evs[..1] == [evs[0]] && [evs[0]][..0] == [];
  }

  lemma SessionIsApart(site: Site, h: Host, d: Domain, written: Bytes)
    requires site.IsVm(d.vm, d.vmPath)
    ensures ApartRun(site, h, d.vm, d.vmPath, Session(d, written))
  {
  }

  lemma {:induction false} SessionWrites(h: Host, d: Domain, written: Bytes, data: Bytes)
    requires MountDir(d.vm) in h.mounts
    ensures LastWritten(h, d.vm, Session(d, written), data) == written
  {
    var evs := Session(d, written);
    assert evs[..|evs| - 1] == [evs[0]] && [evs[0]][..0] == [];
    assert LastWritten(h, d.vm, [evs[0]], data) == written;
  }

  /** After the Stop the VM's device is closed. */
  lemma {:induction false} SessionCloses(site: Site, h: Host, d: Domain, written: Bytes, data: Bytes)
    requires site.WellFormed() && HostInv(site, h) && Settled(site, h, d.vm, d.vmPath, data) && d.vm in h.devices
    requires MountDir(d.vm) in h.mounts
    ensures d.vm !in Run(h, Session(d, written)).devices
  {
    var h1 := GuestWrite(h, d.vm, written);
    SessionIs(h, d, written);
    GuestWriteKeeps(site, h, d.vm, written);
    SettledStep(site, h, d.vm, d.vmPath, data, Writes(d.vm, written));
    DiskExists(site, h1, d, written);
    CloseVmCloses(site, h1, d, STOP_WORKS);
  }

  lemma DiskExists(site: Site, h: Host, d: Domain, data: Bytes)
    requires site.WellFormed() && HostInv(site, h) && Settled(site, h, d.vm, d.vmPath, data)
    requires MountDir(d.vm) in h.mounts && d.vm in h.devices
    ensures Exists(h, d.vmPath)
  {
    MountDirInjective(d.vm, h.mounts[MountDir(d.vm)]);
    assert h.devices[d.vm] == VmSparsePath(d.vm, d.vmPath);
    assert !HasPrefix(d.vmPath, MOUNT_PATH);
    OutsideMounts(site, h, d.vmPath);
    UnderMount(d.vm, "disk");
  }

  /** A settled VM with a closed device can be prepared again. */
  lemma Reopens(site: Site, h: Host, d: Domain, e: PrepareEnv, data: Bytes)
    requires site.WellFormed() && HostInv(site, h) && Settled(site, h, d.vm, d.vmPath, data) && d.vm !in h.devices
    requires d.imagePath == DecryptedPath(d.img) && IsToken(d.img) && d.img in site.imgs
    requires e.parse && e.header == Some(false) && e.vm == W.EVERYTHING_WORKS
    ensures PreparePlaced(site, h, d, e) && Prepare(h, d, e).1 == Returned(true)
    ensures ImagePath(h, d, e) == Some(d.imagePath) && GetsVolume(d.imagePath, e)
  {
    assert !HasPrefix(d.vmPath, MOUNT_PATH);
    OutsideMounts(site, h, d.vmPath);
    PathToken(d.img);
    UnencryptedPrepare(h, d, d.imagePath, e);
    LinkedDiskIsKept(h, d, "", "", e);
    MountSucceedsWhen(site, h, d.vm, d.vmPath, e.vm);
  }

  // ----- a whole life -----

  /**
   From any launchable VM: a first Prepare, a write, a Stop and a second Prepare all succeed,
   and they are a life of the disk at whose end the VM reads what it has written.
   */
  lemma ADiskLives(site: Site, h: Host, d: Domain, text: string, format: string, human: string, bytes: string,
                   disk: Bytes, written: Bytes)
    requires Launchable(site, h, d) && OnTheImage(text, d, format, human, bytes)
    ensures var first := SecondTry(text, disk);
      var h1 := Prepare(h, d, first).0;
      && Prepare(h, d, first).1 == Returned(true)
      && ThenAgain(site, h1, d, Session(d, written), d, first)
      && Read(Prepare(Run(h1, Session(d, written)), d, first).0, d.vmPath) == Some(written)
  {
    var first := SecondTry(text, disk);
    var (h1, _, ran) := Prepare(h, d, first);
    FirstPrepareWorks(site, h, d, text, format, human, bytes, disk);
    FirstPrepareSettles(site, h, d, first);
    PrepareKeeps(site, h, d, first);
    SecondPart(site, h1, d, first, disk, written);
    DiskSurvives(site, h, d, first, Session(d, written), d, first);
    SessionWrites(h1, d, written, disk);
  }

  lemma SecondPart(site: Site, h: Host, d: Domain, e: PrepareEnv, disk: Bytes, written: Bytes)
    requires site.WellFormed() && HostInv(site, h) && Settled(site, h, d.vm, d.vmPath, disk)
    requires MountDir(d.vm) in h.mounts
    requires d.imagePath == DecryptedPath(d.img) && IsToken(d.img) && d.img in site.imgs
    requires e.parse && e.header == Some(false) && e.vm == W.EVERYTHING_WORKS
    ensures ThenAgain(site, h, d, Session(d, written), d, e)
  {
    MountDirInjective(d.vm, h.mounts[MountDir(d.vm)]);
    SessionIsApart(site, h, d, written);
    SessionCloses(site, h, d, written, disk);
    PreparedStaysPrepared(site, h, d.vm, d.vmPath, disk, Session(d, written));
    EveryRunKeepsHostInv(site, h, Session(d, written));
    Reopens(site, Run(h, Session(d, written)), d, e, LastWritten(h, d.vm, Session(d, written), disk));
  }

  // ----- on one host -----

  const DOMAIN := Domain(W.VM, W.VM_PATH, W.IMG, DecryptedPath(W.IMG))

  lemma NamesAreTokens()
    ensures IsToken(W.IMG) && IsToken(W.VM_PATH) && IsToken(W.ORIGINAL)
  {
    PrintableToken(W.IMG);
    PrintableToken(W.VM_PATH);
    PrintableToken(W.ORIGINAL);
  }

  /** What qemu-img may show of a disk. */
  datatype Shown = Shown(format: string, human: string, bytes: string)

  ghost predicate Plain(shown: Shown) {
    && IsToken(shown.format) && IsToken(shown.bytes)
    && '(' !in shown.human && '(' !in shown.bytes && '\n' !in shown.human
  }

  lemma SomethingIsShown() returns (shown: Shown)
    ensures Plain(shown)
  {
    shown := Shown("qcow2", "1 KiB", "1024");
    PrintableToken("qcow2");
    PrintableToken("1024");
  }

  function Info(backing: string, shown: Shown): string {
    Join(DiskLines(QEMU_FIELDS, backing, shown.human, shown.bytes, shown.format), "\n")
  }

  lemma DiskIsOutside(h: Host)
    requires HostInv(W.SITE, h)
    ensures DirOf(W.VM_PATH) !in h.mounts && BaseOf(W.VM_PATH) == "disk"
  {
    W.SiteIsWellFormed();
    OutsideMounts(W.SITE, h, W.VM_PATH);
    assert W.VM_PATH == Under("/vm", "disk");
    PartsOfPath("/vm", "disk");
  }

  /** A host with one regular disk, and the info of a disk on the decrypted image. */
  lemma OneDiskLives(data: Bytes, disk: Bytes, written: Bytes) returns (h: Host, shown: Shown)
    ensures h == Host(map[W.VM_PATH := Regular(data)], map[], map[], map[])
    ensures var text := Info(DecryptedPath(W.IMG), shown);
      && Launchable(W.SITE, h, DOMAIN) && OnTheImage(text, DOMAIN, shown.format, shown.human, shown.bytes)
      && var first := SecondTry(text, disk);
         var h1 := Prepare(h, DOMAIN, first).0;
         Read(Prepare(Run(h1, Session(DOMAIN, written)), DOMAIN, first).0, W.VM_PATH) == Some(written)
  {
    h := Host(map[W.VM_PATH := Regular(data)], map[], map[], map[]);
    shown := SomethingIsShown();
    W.SiteIsWellFormed();
    W.SparsePathIs();
    NamesAreTokens();
    DiskIsOutside(h);
    NamesAreWellFormed();
    PathToken(W.IMG);
    RenderedDisk(QEMU_FIELDS, DecryptedPath(W.IMG), shown.human, shown.bytes, shown.format);
    ADiskLives(W.SITE, h, DOMAIN, Info(DecryptedPath(W.IMG), shown), shown.format, shown.human, shown.bytes, disk,
               written);
  }

  /** The launch of the retry is within the site, and it makes the image volume. */
  lemma LaunchIsPlaced(h: Host, shown: Shown, disk: Bytes) returns (e: PrepareEnv)
    requires HostInv(W.SITE, h) && !IsSymlink(h, W.VM_PATH) && Plain(shown)
    ensures e == FirstTry(Info(W.ORIGINAL, shown), FieldLine(QEMU_FIELDS.fileFormat, shown.format), disk)
    ensures PreparePlaced(W.SITE, h, DOMAIN, e) && MakesImage(h, DOMAIN, e)
  {
    e := FirstTry(Info(W.ORIGINAL, shown), FieldLine(QEMU_FIELDS.fileFormat, shown.format), disk);
    W.SiteIsWellFormed();
    NamesAreTokens();
    DiskIsOutside(h);
    NamesAreWellFormed();
    RenderedDisk(QEMU_FIELDS, W.ORIGINAL, shown.human, shown.bytes, shown.format);
    PathOfDisk(h, DOMAIN, e, W.ORIGINAL);
  }

  /** A host on which another VM has the image open: the launch, its failure and its repetition. */
  lemma OneRetry(data: Bytes, plain: Bytes, disk: Bytes)
      returns (h: Host, shown: Shown, first: PrepareEnv, second: PrepareEnv)
    ensures HostInv(W.SITE, h) && PreparePlaced(W.SITE, h, DOMAIN, first) && MakesImage(h, DOMAIN, first)
    ensures var (h1, r1, ran1) := Prepare(h, DOMAIN, first);
      var (_, _, ran2) := Prepare(h1, DOMAIN, second);
      && r1 == Returned(false)
      && ran1 == IntendedCommands(DOMAIN, DecryptedPath(W.IMG), shown.format, shown.format, shown.bytes)
      && ran2 == IntendedCommands(DOMAIN, "", "", shown.format, shown.bytes)
  {
    h := Host(map[W.VM_PATH := Regular(data), W.IMG_SPARSE := Sparse(map[W.IMG := plain])],
              map[W.IMG := W.IMG_SPARSE], map[], map[]);
    shown := SomethingIsShown();
    second := SecondTry(Info(DecryptedPath(W.IMG), shown), disk);
    W.SiteIsWellFormed();
    NamesAreTokens();
    first := LaunchIsPlaced(h, shown, disk);
    RetryLosesTheBackingFile(W.SITE, h, DOMAIN, W.ORIGINAL, shown.format, shown.human, shown.bytes, shown.format,
                             disk);
  }
}
