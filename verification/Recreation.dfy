/**
 The disk that Prepare recreates: which qemu-img calls it makes, when they carry the
 format and size of the old disk and the decrypted image as backing file, and the
 retry in which they do not.
 */
module Recreation {
  import opened Common
  import opened Text
  import opened QemuInfo
  import opened Volumes
  import opened VolumeTheorems
  import opened HostRuns
  import opened PreparedVms
  import opened PrepareAnswers

  // ----- what Prepare passes on -----

  ghost predicate IsPrefixOf(ran: seq<Command>, all: seq<Command>) {
    ran <= all
  }

  /**
   Whatever fails, the calls that Prepare makes are the first of these two: create with
   the scanned format, the decrypted image and its scanned format, then resize to the
   scanned size. It makes none for a linked disk and both before it succeeds.
   */
  lemma PrepareRuns(site: Site, h: Host, d: Domain, e: PrepareEnv)
    requires site.WellFormed() && HostInv(site, h) && PreparePlaced(site, h, d, e)
    ensures var (_, r, ran) := Prepare(h, d, e);
      && (ran != [] ==> !IsSymlink(h, d.vmPath) && Scans(e) && IsPrefixOf(ran, CommandsOfPrepare(h, d, e)))
      && (r == Returned(true) && !IsSymlink(h, d.vmPath) && GetsVolume(ImagePath(h, d, e).value, e) ==> |ran| == 2)
  {
    LinkedIsSymlink(site, h, d);
    PrepareAnswer(site, h, d, e);
    if e.parse && ImagePath(h, d, e).Some? && e.header.Some? {
      CommandsOfPart(h, HostWithImage(h, d, ImagePath(h, d, e).value, e), d, e);
    }
  }

  // ----- the commands of an encrypted launch -----

  lemma PathToken(img: string)
    requires IsToken(img)
    ensures IsToken(DecryptedPath(img)) && HasPrefix(DecryptedPath(img), MOUNT_PATH)
  {
    PrintableToken(MOUNT_PATH);
    assert DecryptedPath(img) == MOUNT_PATH + img + "/" + img;
    assert forall c :: c in DecryptedPath(img) <==> c in MOUNT_PATH || c in img || c == '/';
  }

  /** The two commands as they are meant. */
  function IntendedCommands(d: Domain, backing: string, backingFormat: string, format: string, bytes: string)
    : seq<Command>
  {
    [IntendedCreate(format, backing, backingFormat, d.vmPath), ["resize", d.vmPath, bytes]]
  }

  lemma CommandsAreIntended(d: Domain, backing: string, backingFormat: string, scan: DiskScan)
    requires IsToken(d.vmPath) && IsToken(scan.format) && IsToken(scan.size)
    requires forall c | c in backing + backingFormat :: !IsSpace(c)
    ensures CommandsFor(d, backing, backingFormat, scan)
      == IntendedCommands(d, backing, backingFormat, scan.format, scan.size)
  {
    CreateArgsAreIntended(scan.format, backing, backingFormat, d.vmPath);
    ResizeArgsAreIntended(d.vmPath, scan.size);
  }

  /**
   End to end: for an encrypted image whose flavor requires encryption, the create and
   resize commands that Prepare runs carry exactly the format and byte size rendered in
   the old disk's info, with the decrypted image as backing file, for all single-word
   values and any failures. The backing format is the one rendered in the image's info,
   unless the decrypted file is there, not empty, and the second header check finds no
   header: then it is empty.
   */
  lemma PrepareCarriesTheInfo(site: Site, h: Host, d: Domain, e: PrepareEnv, format: string, human: string,
                              bytes: string, backingFormat: string)
    requires site.WellFormed() && HostInv(site, h) && PreparePlaced(site, h, d, e)
    requires e.header == Some(true) && e.flavor.Some? && e.flavor.value.encryptionRequired
    requires e.diskInfoAgain.Some? && DescribesDisk(e.diskInfoAgain.value, QEMU_FIELDS, format, human, bytes)
    requires e.imageInfo.Some?
    requires Shows(e.imageInfo.value, QEMU_FIELDS.fileFormat, FieldLine(QEMU_FIELDS.fileFormat, backingFormat))
    requires IsToken(backingFormat) && IsToken(d.img) && IsToken(d.vmPath)
    ensures var (_, r, ran) := Prepare(h, d, e);
      var content := Read(h, DecryptedPath(d.img));
      var skipped := content.Some? && content.value != [] && e.headerAgain == Some(false);
      var intended :=
        IntendedCommands(d, DecryptedPath(d.img), if skipped then "" else backingFormat, format, bytes);
      && IsPrefixOf(ran, intended)
      && (r == Returned(true) && !IsSymlink(h, d.vmPath) ==> ran == intended)
  {
    NamesAreWellFormed();
    PrepareRuns(site, h, d, e);
    ScanOfFieldLine(e.imageInfo.value, QEMU_FIELDS.fileFormat, backingFormat, "");
    ScanOfDisk(e.diskInfoAgain.value, QEMU_FIELDS, format, human, bytes, DiskScan("", "", ""));
    PathToken(d.img);
    assert DecryptedPath(d.img) == MOUNT_PATH + d.img + "/" + d.img;
    CommandsAreIntended(d, DecryptedPath(d.img), FormatSeen(h, d, e), ScanOf(e));
  }

  // ----- when the disk loses its backing file -----

  /** The format in the info of the decrypted image. */
  function ImageFormat(e: PrepareEnv): string {
    if e.imageInfo.Some? then Scanned(e.imageInfo.value, QEMU_FIELDS.fileFormat, "") else ""
  }

  lemma OptionLength(format: string, a: string, b: string, x: string, y: string, vmPath: string)
    requires IntendedCreate(format, a, b, vmPath) == IntendedCreate(format, x, y, vmPath)
    ensures |a| + |b| == |x| + |y|
  {
    var option, other := IntendedCreate(format, a, b, vmPath)[4], IntendedCreate(format, x, y, vmPath)[4];
    assert |option| == |"backing_file="| + |a| + |",backing_fmt="| + |b|;
    assert |other| == |"backing_file="| + |x| + |",backing_fmt="| + |y|;
  }

  /**
   Exactly when the recreated disk gets a backing file: when this very call found the
   image encrypted; and exactly when it gets the backing format too: when this very call
   also made the image volume and the image's info had a format. Otherwise the options
   are "backing_file=" and "backing_fmt=" with nothing behind them.
   */
  lemma RecreatedOnTheImage(site: Site, h: Host, d: Domain, e: PrepareEnv, format: string, human: string, bytes: string)
    requires site.WellFormed() && HostInv(site, h) && PreparePlaced(site, h, d, e)
    requires e.diskInfoAgain.Some? && DescribesDisk(e.diskInfoAgain.value, QEMU_FIELDS, format, human, bytes)
    requires IsToken(d.img) && IsToken(d.vmPath) && forall c | c in FormatSeen(h, d, e) :: !IsSpace(c)
    requires Prepare(h, d, e).2 != []
    ensures var create := Prepare(h, d, e).2[0];
      && (create == IntendedCreate(format, "", "", d.vmPath) <==> e.header == Some(false))
      && (create == IntendedCreate(format, DecryptedPath(d.img), "", d.vmPath) <==>
            e.header == Some(true) && (MakesImage(h, d, e) ==> ImageFormat(e) == ""))
  {
    FirstCommandIs(site, h, d, e, format, human, bytes);
    MadeAfterTheImage(site, h, d, e);
    var create, backing, backingFormat := Prepare(h, d, e).2[0], BackingSeen(d, e), FormatSeen(h, d, e);
    assert DecryptedPath(d.img) == MOUNT_PATH + d.img + "/" + d.img;
    OptionsDiffer(create, format, backing, backingFormat, "", d.vmPath);
    OptionsDiffer(create, format, backing, backingFormat, DecryptedPath(d.img), d.vmPath);
  }

  lemma OptionsDiffer(create: Command, format: string, a: string, b: string, x: string, vmPath: string)
    requires create == IntendedCreate(format, a, b, vmPath)
    ensures create == IntendedCreate(format, x, "", vmPath) ==> |a| + |b| == |x|
  {
    if create == IntendedCreate(format, x, "", vmPath) {
      OptionLength(format, a, b, x, "", vmPath);
    }
  }

  lemma FirstCommandIs(site: Site, h: Host, d: Domain, e: PrepareEnv, format: string, human: string, bytes: string)
    requires site.WellFormed() && HostInv(site, h) && PreparePlaced(site, h, d, e)
    requires e.diskInfoAgain.Some? && DescribesDisk(e.diskInfoAgain.value, QEMU_FIELDS, format, human, bytes)
    requires IsToken(d.img) && IsToken(d.vmPath) && forall c | c in FormatSeen(h, d, e) :: !IsSpace(c)
    requires Prepare(h, d, e).2 != []
    ensures Prepare(h, d, e).2[0] == IntendedCreate(format, BackingSeen(d, e), FormatSeen(h, d, e), d.vmPath)
  {
    NamesAreWellFormed();
    PrepareRuns(site, h, d, e);
    ScanOfDisk(e.diskInfoAgain.value, QEMU_FIELDS, format, human, bytes, DiskScan("", "", ""));
    PathToken(d.img);
    assert DecryptedPath(d.img) == MOUNT_PATH + d.img + "/" + d.img;
    CommandsAreIntended(d, BackingSeen(d, e), FormatSeen(h, d, e), ScanOf(e));
  }

  lemma MadeAfterTheImage(site: Site, h: Host, d: Domain, e: PrepareEnv)
    requires Prepare(h, d, e).2 != []
    ensures e.header.Some?
    ensures MakesImage(h, d, e) ==> e.imageInfo.Some?
  {
  }

  // ----- the retry -----

  const MOUNT_WORKS := MountEnv(true, true, true, true, true)
  const LINK_WORKS := LinkEnv(true, true, true, true, true, true)

  /** A launch on an encrypted image, every call of which works but the one that opens the VM's device. */
  function FirstTry(diskText: string, imageText: string, disk: Bytes): PrepareEnv {
    PrepareEnv(true, Some(diskText), "", Some(true), None, true, Some(Flavor("flavor", true, true)), true,
      ImageEnv(false, Created, MOUNT_WORKS, true, b => Some(b), Wrote, true, true, true), Some(imageText),
      Some(diskText), _ => disk, Wrote, _ => disk, Wrote,
      VmEnv(false, Refused, MOUNT_WORKS, Wrote, true, LINK_WORKS, true))
  }

  /**
   The launch again, with every call working. That its header check finds nothing is an
   assumption about the bytes: the disk now lies on the decrypted image, and decrypted
   images carry no encryption header.
   */
  function SecondTry(diskText: string, disk: Bytes): PrepareEnv {
    FirstTry(diskText, "", disk).(
      header := Some(false), vm := VmEnv(false, Created, MOUNT_WORKS, Wrote, true, LINK_WORKS, true))
  }

  /**
   A second launch after a first one whose device could not be opened: the first one has
   put the disk on the decrypted image, so the second one finds no encryption header
   there, and recreates the disk with an empty backing file and format.
   */
  lemma RetryLosesTheBackingFile(site: Site, h: Host, d: Domain, original: string, format: string, human: string,
                                 bytes: string, backingFormat: string, disk: Bytes)
    requires site.WellFormed() && HostInv(site, h) && site.IsVm(d.vm, d.vmPath) && d.img in site.imgs
    requires ImageSparsePath(original) in site.imgSparse && d.img in h.devices && !IsSymlink(h, d.vmPath)
    requires IsToken(original) && IsToken(format) && IsToken(bytes) && IsToken(backingFormat) && IsToken(d.img)
    requires IsToken(d.vmPath)
    requires '(' !in human && '(' !in bytes && '\n' !in human
    ensures var first := FirstTry(Join(DiskLines(QEMU_FIELDS, original, human, bytes, format), "\n"),
                                  FieldLine(QEMU_FIELDS.fileFormat, backingFormat), disk);
      var second := SecondTry(Join(DiskLines(QEMU_FIELDS, DecryptedPath(d.img), human, bytes, format), "\n"), disk);
      var (h1, r1, ran1) := Prepare(h, d, first);
      var (_, _, ran2) := Prepare(h1, d, second);
      && r1 == Returned(false) && ran1 == IntendedCommands(d, DecryptedPath(d.img), backingFormat, format, bytes)
      && ran2 == IntendedCommands(d, "", "", format, bytes)
  {
    var text := Join(DiskLines(QEMU_FIELDS, original, human, bytes, format), "\n");
    var imageText := FieldLine(QEMU_FIELDS.fileFormat, backingFormat);
    NamesAreWellFormed();
    RenderedDisk(QEMU_FIELDS, original, human, bytes, format);
    ImageLineShows(backingFormat);
    FirstTryRuns(site, h, d, original, text, imageText, format, human, bytes, backingFormat, disk);
    PathToken(d.img);
    RenderedDisk(QEMU_FIELDS, DecryptedPath(d.img), human, bytes, format);
    var secondText := Join(DiskLines(QEMU_FIELDS, DecryptedPath(d.img), human, bytes, format), "\n");
    LaterTryRuns(Prepare(h, d, FirstTry(text, imageText, disk)).0, d, SecondTry(secondText, disk), format, human,
        bytes);
  }

  lemma ImageLineShows(format: string)
    requires IsToken(format)
    ensures Shows(FieldLine(QEMU_FIELDS.fileFormat, format), QEMU_FIELDS.fileFormat,
        FieldLine(QEMU_FIELDS.fileFormat, format))
  {
    var line := FieldLine(QEMU_FIELDS.fileFormat, format);
    NamesAreWellFormed();
    FieldLineCarries(QEMU_FIELDS.fileFormat, format);
    assert '\n' !in line by {
      assert '\n' in format ==> !IsSpace('\n');
    }
    assert Join([line], "\n") == line;
    RenderedShows([line], QEMU_FIELDS.fileFormat, 0);
  }

  /** The path that a disk's info shows as backing file is the image path. */
  lemma PathOfDisk(h: Host, d: Domain, e: PrepareEnv, backing: string)
    requires !IsSymlink(h, d.vmPath) && IsToken(backing) && e.diskInfo.Some?
    requires Shows(e.diskInfo.value, QEMU_FIELDS.backingFile, FieldLine(QEMU_FIELDS.backingFile, backing))
    ensures ImagePath(h, d, e) == Some(backing)
  {
    NamesAreWellFormed();
    ScanOfFieldLine(e.diskInfo.value, QEMU_FIELDS.backingFile, backing, d.imagePath);
  }

  /** The launch makes, or accepts, the image volume: it has no second answer of the header check. */
  lemma FirstTryMakesTheImage(h: Host, d: Domain, original: string, text: string, imageText: string, disk: Bytes)
    requires d.img in h.devices && !IsSymlink(h, d.vmPath) && IsToken(original)
    requires Shows(text, QEMU_FIELDS.backingFile, FieldLine(QEMU_FIELDS.backingFile, original))
    ensures var first := FirstTry(text, imageText, disk);
      && ImagePath(h, d, first) == Some(original) && MakesImage(h, d, first)
      && PrepareImage(h, d, original, first).1
  {
    PathOfDisk(h, d, FirstTry(text, imageText, disk), original);
  }

  lemma FirstTryRuns(site: Site, h: Host, d: Domain, original: string, text: string, imageText: string, format: string,
                     human: string, bytes: string, backingFormat: string, disk: Bytes)
    requires site.WellFormed() && HostInv(site, h) && site.IsVm(d.vm, d.vmPath) && d.img in site.imgs
    requires ImageSparsePath(original) in site.imgSparse && d.img in h.devices && !IsSymlink(h, d.vmPath)
    requires Shows(text, QEMU_FIELDS.backingFile, FieldLine(QEMU_FIELDS.backingFile, original))
    requires DescribesDisk(text, QEMU_FIELDS, format, human, bytes)
    requires Shows(imageText, QEMU_FIELDS.fileFormat, FieldLine(QEMU_FIELDS.fileFormat, backingFormat))
    requires IsToken(original) && IsToken(backingFormat) && IsToken(d.img) && IsToken(d.vmPath)
    ensures var (h1, r1, ran1) := Prepare(h, d, FirstTry(text, imageText, disk));
      && r1 == Returned(false) && ran1 == IntendedCommands(d, DecryptedPath(d.img), backingFormat, format, bytes)
      && !IsSymlink(h1, d.vmPath)
  {
    var first := FirstTry(text, imageText, disk);
    NamesAreWellFormed();
    FirstTryMakesTheImage(h, d, original, text, imageText, disk);
    PrepareCarriesTheInfo(site, h, d, first, format, human, bytes, backingFormat);
    ScanOfDisk(text, QEMU_FIELDS, format, human, bytes, DiskScan("", "", ""));
    RefusedDevice(site, h, d, original, first);
  }

  /** When only the VM's device is refused, Prepare has recreated the disk and fails with it in place. */
  lemma RefusedDevice(site: Site, h: Host, d: Domain, path: string, e: PrepareEnv)
    requires site.WellFormed() && HostInv(site, h) && site.IsVm(d.vm, d.vmPath) && d.img in site.imgs
    requires e.parse && e.header == Some(true) && ImagePath(h, d, e) == Some(path) && !IsSymlink(h, d.vmPath)
    requires ImageSparsePath(path) in site.imgSparse && PrepareImage(h, d, path, e).1
    requires Scans(e) && e.create == e.resize == Wrote && e.vm.create == Refused
    ensures var (h1, r, ran) := Prepare(h, d, e);
      r == Returned(false) && |ran| == 2 && !IsSymlink(h1, d.vmPath)
  {
    ImageWorkKeeps(site, h, d, path, e);
    var (mid, _, backingFormat) := PrepareImage(h, d, path, e);
    RecreatedIsRegular(site, mid, d, BackingFile(d, e), backingFormat, e);
    var remade := RecreateDisk(mid, d, BackingFile(d, e), backingFormat, e).0;
    RefusedVm(remade, d, e.vm);
  }

  lemma RefusedVm(h: Host, d: Domain, e: VmEnv)
    requires e.create == Refused
    ensures VmVolumeManager(h, d.vm, d.vmPath, e) == (h, false)
  {
  }

  /** Any launch that finds the disk already on the decrypted image and no header there. */
  lemma LaterTryRuns(h: Host, d: Domain, e: PrepareEnv, format: string, human: string, bytes: string)
    requires e.parse && e.header == Some(false) && e.create == Wrote && !IsSymlink(h, d.vmPath)
    requires e.diskInfo.Some?
    requires Shows(e.diskInfo.value, QEMU_FIELDS.backingFile, FieldLine(QEMU_FIELDS.backingFile, DecryptedPath(d.img)))
    requires e.diskInfoAgain.Some? && DescribesDisk(e.diskInfoAgain.value, QEMU_FIELDS, format, human, bytes)
    requires IsToken(d.img) && IsToken(d.vmPath)
    ensures Prepare(h, d, e).2 == IntendedCommands(d, "", "", format, bytes)
  {
    NamesAreWellFormed();
    PathToken(d.img);
    PathOfDisk(h, d, e, DecryptedPath(d.img));
    ScanOfDisk(e.diskInfoAgain.value, QEMU_FIELDS, format, human, bytes, DiskScan("", "", ""));
    CommandsAreIntended(d, "", "", ScanOf(e));
    UnencryptedRuns(h, d, DecryptedPath(d.img), e);
  }

  /** A disk whose image lies under the mount directory and has no header is recreated without a backing file. */
  lemma UnencryptedRuns(h: Host, d: Domain, path: string, e: PrepareEnv)
    requires e.parse && e.header == Some(false) && ImagePath(h, d, e) == Some(path) && HasPrefix(path, MOUNT_PATH)
    requires !IsSymlink(h, d.vmPath) && Scans(e) && e.create == Wrote
    ensures Prepare(h, d, e).2 == CommandsFor(d, "", "", ScanOf(e))
  {
  }
}
