/**
 The host as the agent sees it: files, symlinks, sparse volume files, open dm-crypt
 devices and mounts. Every call that the agent makes on it is a function of the host
 and of the outcome of each system call, so that every failure point is covered.
 */
module Volumes {
  import opened Common
  import opened Text
  import opened QemuInfo

  type Bytes = seq<bv8>

  /** A sparse file holds a volume: a file system of named files, kept while the device is closed. */
  datatype Node = Regular(data: Bytes) | Symlink(target: string) | Sparse(files: map<string, Bytes>)

  /**
   Devices map to their sparse file, mount points to their device, watched files to the
   VM whose handler waits for them.
   */
  datatype Host = Host(
    root: map<string, Node>, devices: map<string, string>, mounts: map<string, string>,
    watched: map<string, string>)

  // ----- paths -----

  function LastSlash(p: string): (i: int)
    ensures -1 <= i < |p|
  {
    if p == "" then -1 else if p[|p| - 1] == '/' then |p| - 1 else LastSlash(p[..|p| - 1])
  }

  lemma {:induction false} LastSlashIs(p: string)
    ensures var i := LastSlash(p); i >= 0 ==> p[i] == '/' && '/' !in p[i + 1..]
  {
    if p != "" && p[|p| - 1] != '/' {
      LastSlashIs(p[..|p| - 1]);
      assert forall i | 0 <= i < |p| :: p[i..] == p[..|p| - 1][i..] + [p[|p| - 1]];
    }
  }

  function DirOf(p: string): string {
    if LastSlash(p) >= 0 then p[..LastSlash(p)] else ""
  }

  function BaseOf(p: string): string {
    if LastSlash(p) >= 0 then p[LastSlash(p) + 1..] else p
  }

  function Under(dir: string, name: string): string {
    dir + "/" + name
  }

  lemma {:induction false} LastSlashUnder(dir: string, name: string)
    requires '/' !in name
    ensures LastSlash(Under(dir, name)) == |dir|
  {
    if name != "" {
      LastSlashUnder(dir, name[..|name| - 1]);
      assert Under(dir, name)[..|Under(dir, name)| - 1] == Under(dir, name[..|name| - 1]);
    }
  }

  lemma PartsOfPath(dir: string, name: string)
    requires '/' !in name
    ensures DirOf(Under(dir, name)) == dir && BaseOf(Under(dir, name)) == name
  {
    LastSlashUnder(dir, name);
  }

  function MountDir(id: string): string {
    MOUNT_PATH + id
  }

  function VmSparsePath(vm: string, vmPath: string): string {
    ReplaceAll(vmPath, "disk", vm + "_sparse")
  }

  function ImageSparsePath(imagePath: string): string {
    imagePath + "_sparseFile"
  }

  function DiskInfoPath(vmPath: string): string {
    ReplaceAll(vmPath, "disk", "disk.info")
  }

  /** The sparse file and the watched file are other files than the VM disk exactly when its path contains "disk". */
  lemma DerivedPathsAreDistinct(vm: string, vmPath: string)
    ensures VmSparsePath(vm, vmPath) != vmPath <==> Contains(vmPath, "disk")
    ensures DiskInfoPath(vmPath) != vmPath <==> Contains(vmPath, "disk")
  {
    ReplaceChanges(vmPath, "disk", vm + "_sparse");
    ReplaceChanges(vmPath, "disk", "disk.info");
  }

  /**
   For a disk called "disk", the sparse file and the watched file lie beside it if and only
   if the path of its directory has no "disk" in it: the source replaces every occurrence.
   */
  lemma FilesBesideTheDisk(vm: string, dir: string)
    ensures VmSparsePath(vm, Under(dir, "disk")) == Under(dir, vm + "_sparse") <==> !Contains(dir, "disk")
    ensures DiskInfoPath(Under(dir, "disk")) == Under(dir, "disk.info") <==> !Contains(dir, "disk")
  {
    ReplaceInLast(dir, '/', "disk", vm + "_sparse");
    ReplaceInLast(dir, '/', "disk", "disk.info");
  }

  // ----- files -----

  /** The files of the volume mounted at a directory. */
  function VolumeAt(h: Host, dir: string): map<string, Bytes>
    requires dir in h.mounts
  {
    var dev := h.mounts[dir];
    if dev in h.devices && h.devices[dev] in h.root && h.root[h.devices[dev]].Sparse?
    then h.root[h.devices[dev]].files
    else map[]
  }

  /** A mount hides what is below its mount point. */
  function Lookup(h: Host, p: string): Option<Node> {
    LookupAt(h, p, DirOf(p), BaseOf(p))
  }

  function LookupAt(h: Host, p: string, dir: string, base: string): Option<Node> {
    if dir in h.mounts then
      var files := VolumeAt(h, dir);
      if base in files then Some(Regular(files[base])) else None
    else if p in h.root then Some(h.root[p])
    else None
  }

  /** Reading follows one symlink. */
  function Read(h: Host, p: string): Option<Bytes> {
    match Lookup(h, p)
    case Some(Regular(data)) => Some(data)
    case Some(Symlink(target)) =>
      (match Lookup(h, target)
       case Some(Regular(data)) => Some(data)
       case _ => None)
    case _ => None
  }

  /** os.Readlink succeeds. */
  predicate IsSymlink(h: Host, p: string) {
    Lookup(h, p).Some? && Lookup(h, p).value.Symlink?
  }

  /** os.Stat does not report a missing file. */
  predicate Exists(h: Host, p: string) {
    Lookup(h, p).Some? && (Lookup(h, p).value.Symlink? ==> Lookup(h, Lookup(h, p).value.target).Some?)
  }

  function Write(h: Host, p: string, data: Bytes): Host {
    WriteAt(h, p, DirOf(p), BaseOf(p), data)
  }

  function WriteAt(h: Host, p: string, dir: string, base: string, data: Bytes): Host {
    if dir in h.mounts then
      var dev := h.mounts[dir];
      if dev in h.devices then
        h.(root := h.root[h.devices[dev] := Sparse(VolumeAt(h, dir)[base := data])])
      else h
    else h.(root := h.root[p := Regular(data)])
  }

  function Remove(h: Host, p: string): Host {
    h.(root := h.root - {p})
  }

  // ----- dm-crypt volumes: the contracts of the volume library -----

  datatype VolumeResult = Done | AlreadyThere | Failed

  /** The attempt succeeds, fails at once, or fails after the sparse file was made. */
  datatype CreateOutcome = Created | Refused | LeftSparse

  function CreateVolume(h: Host, sparse: string, id: string, o: CreateOutcome): (Host, VolumeResult) {
    if id in h.devices then (h, AlreadyThere)
    else if sparse in h.root && !h.root[sparse].Sparse? then (h, Failed)
    else
      var root := if sparse in h.root then h.root else h.root[sparse := Sparse(map[])];
      match o
      case Refused => (h, Failed)
      case LeftSparse => (h.(root := root), Failed)
      case Created => (h.(root := root, devices := h.devices[id := sparse]), Done)
  }

  function Mount(h: Host, id: string, dir: string, works: bool): (Host, VolumeResult) {
    if dir in h.mounts then (h, AlreadyThere)
    else if id !in h.devices || !works then (h, Failed)
    else (h.(mounts := h.mounts[dir := id]), Done)
  }

  /** Unmounts the mount that the path is, or lies in. */
  function Unmount(h: Host, path: string, works: bool): Host {
    if !works then h
    else if path in h.mounts then h.(mounts := h.mounts - {path})
    else h.(mounts := h.mounts - {DirOf(path)})
  }

  function DeleteVolume(h: Host, id: string, works: bool): Host {
    if !works || id !in h.devices || (exists dir | dir in h.mounts :: h.mounts[dir] == id) then h
    else h.(devices := h.devices - {id})
  }

  // ----- prepare.go -----

  datatype MountEnv = MountEnv(mkdir: bool, open: bool, lookup: bool, chown: bool, mount: bool)

  /** checkMountPathExistsAndMountVolume */
  function CheckMount(h: Host, id: string, emptyFile: string, e: MountEnv): (Host, bool) {
    if !e.mkdir || !e.open then (h, false)
    else
      var h1 := Write(h, Under(MountDir(id), emptyFile), []);
      if !e.lookup || !e.chown then (h1, false)
      else
        var (h2, r) := Mount(h1, id, MountDir(id), e.mount);
        (h2, r != Failed)
  }

  datatype LinkEnv = LinkEnv(lookup: bool, remove: bool, symlink: bool, lchown: bool, chmod: bool, chown: bool)

  /** createSymLinkAndChangeOwnership: a failed removal wraps a nil error, so the call reports success. */
  function CreateSymlink(h: Host, target: string, source: string, e: LinkEnv): (Host, bool) {
    if !e.lookup then (h, false)
    else if !e.remove then (h, true)
    else
      var h1 := Remove(h, source);
      if !e.symlink then (h1, false)
      else
        (h1.(root := h1.root[source := Symlink(target)]), e.lchown && e.chmod && e.chown)
  }

  /** A write completes, fails at once, or leaves other bytes behind. */
  datatype WriteOutcome = Wrote | WriteFailed | WriteTorn(left: Bytes)

  datatype VmEnv = VmEnv(
    statFails: bool, create: CreateOutcome, mount: MountEnv, copy: WriteOutcome,
    remove: bool, link: LinkEnv, watch: bool)

  function VmVolumeManager(h: Host, vm: string, vmPath: string, e: VmEnv): (Host, bool) {
    var sparse := VmSparsePath(vm, vmPath);
    var existed := e.statFails || sparse in h.root;
    var (h1, created) := CreateVolume(h, sparse, vm, e.create);
    if created != Done then (h1, false)
    else
      var (h2, mounted) := CheckMount(h1, vm, "disk", e.mount);
      if !mounted then (h2, false)
      else if existed then (h2, true)
      else CopyAndLink(h2, vm, vmPath, e)
  }

  /** The part of vmVolumeManager for a fresh sparse file: copy the disk, remove it, link to the copy, watch. */
  function CopyAndLink(h: Host, vm: string, vmPath: string, e: VmEnv): (Host, bool) {
    var source := Read(h, vmPath);
    var copy := Under(MountDir(vm), BaseOf(vmPath));
    if source.None? then (h, false)
    else if e.copy != Wrote then (Written(h, copy, source.value, e.copy), false)
    else RemoveAndLink(Write(h, copy, source.value), vm, vmPath, e)
  }

  function RemoveAndLink(h: Host, vm: string, vmPath: string, e: VmEnv): (Host, bool) {
    if !e.remove then (h, false)
    else
      var (h1, linked) := CreateSymlink(Remove(h, vmPath), Under(MountDir(vm), "disk"), vmPath, e.link);
      if !linked then (h1, false)
      else (if e.watch then h1.(watched := h1.watched[DiskInfoPath(vmPath) := vm]) else h1, true)
  }

  /** `decrypt` is the decryption under the key of the call; None when it fails. */
  datatype ImageEnv = ImageEnv(statFails: bool, create: CreateOutcome, mount: MountEnv, read: bool,
                               decrypt: Bytes -> Option<Bytes>, write: WriteOutcome,
                               lookup: bool, chmod: bool, chown: bool)

  function ImageVolumeManager(h: Host, img: string, imagePath: string, e: ImageEnv): (Host, bool) {
    var sparse := ImageSparsePath(imagePath);
    var existed := e.statFails || sparse in h.root;
    var (h1, created) := CreateVolume(h, sparse, img, e.create);
    if created == AlreadyThere then (h1, true)
    else if created == Failed then (h1, false)
    else
      var (h2, mounted) := CheckMount(h1, img, img, e.mount);
      if !mounted then (h2, false)
      else if existed then (h2, true)
      else DecryptInto(h2, img, imagePath, e)
  }

  /** The part of imageVolumeManager for a fresh sparse file. */
  function DecryptInto(h: Host, img: string, imagePath: string, e: ImageEnv): (Host, bool) {
    var encrypted := Read(h, imagePath);
    if encrypted.None? || !e.read then (h, false)
    else
      var plain := e.decrypt(encrypted.value);
      if plain.None? then (h, false)
      else (Written(h, DecryptedPath(img), plain.value, e.write), e.write == Wrote && e.lookup && e.chmod && e.chown)
  }

  // ----- Prepare -----

  datatype Domain = Domain(vm: string, vmPath: string, img: string, imagePath: string)

  datatype Flavor = Flavor(id: string, encryptionRequired: bool, hasKey: bool)

  /** The arguments of one qemu-img call. */
  type Command = seq<string>

  /** `newDisk` and `resizedDisk` are the disk that qemu-img leaves when it is called with the given arguments. */
  datatype PrepareEnv = PrepareEnv(
    parse: bool, diskInfo: Option<string>, savedPath: string, header: Option<bool>, headerAgain: Option<bool>,
    hardware: bool, flavor: Option<Flavor>, unwrap: bool, image: ImageEnv, imageInfo: Option<string>,
    diskInfoAgain: Option<string>, newDisk: Command -> Bytes, create: WriteOutcome,
    resizedDisk: Command -> Bytes, resize: WriteOutcome, vm: VmEnv)

  datatype Outcome = Returned(ok: bool) | Panicked

  /** The backing file of a disk that is not a symlink, else the path from the domain, else the saved one. */
  function ImagePath(h: Host, d: Domain, e: PrepareEnv): Option<string> {
    if !IsSymlink(h, d.vmPath) && e.diskInfo.None? then None
    else
      var found :=
        if IsSymlink(h, d.vmPath) then d.imagePath
        else Scanned(e.diskInfo.value, QEMU_FIELDS.backingFile, d.imagePath);
      var path := if found == "" then e.savedPath else found;
      if path == "" then None else Some(path)
  }

  function DecryptedPath(img: string): string {
    Under(MountDir(img), img)
  }

  /** The image is already decrypted: then its volume is left alone. */
  predicate SkipsImage(h: Host, d: Domain, e: PrepareEnv) {
    var stat := Read(h, DecryptedPath(d.img));
    stat.Some? && |stat.value| > 0 && e.headerAgain == Some(false)
  }

  /** The encrypted-image part of Prepare, with the format of the decrypted image if this call asked for it. */
  function PrepareImage(h: Host, d: Domain, imagePath: string, e: PrepareEnv): (Host, bool, string) {
    if !e.hardware || e.flavor.None? || e.flavor.value.id == "" then (h, false, "")
    else if !e.flavor.value.encryptionRequired then (h, true, "")
    else if !e.flavor.value.hasKey || !e.unwrap then (h, false, "")
    else if SkipsImage(h, d, e) then (h, true, "")
    else
      var (h1, ok) := ImageVolumeManager(h, d.img, imagePath, e.image);
      if !ok || e.imageInfo.None? then (h1, false, "")
      else (h1, true, Scanned(e.imageInfo.value, QEMU_FIELDS.fileFormat, ""))
  }

  function Written(h: Host, p: string, data: Bytes, o: WriteOutcome): Host {
    match o
    case Wrote => Write(h, p, data)
    case WriteFailed => h
    case WriteTorn(left) => Write(h, p, left)
  }

  function DiskScanned(text: string): Option<DiskScan> {
    AfterLines(Split(text, "\n"), QEMU_FIELDS, DiskScan("", "", ""))
  }

  /** qemu-img create and resize on the VM disk; the last result is the calls that were made. */
  function RecreateDisk(h: Host, d: Domain, backing: string, backingFormat: string, e: PrepareEnv)
    : (Host, Outcome, seq<Command>)
  {
    if e.diskInfoAgain.None? then (h, Returned(false), [])
    else if DiskScanned(e.diskInfoAgain.value).None? then (h, Panicked, [])
    else
      var scan := DiskScanned(e.diskInfoAgain.value).value;
      var create := CreateArgs(scan.format, backing, backingFormat, d.vmPath);
      var resize := ResizeArgs(d.vmPath, scan.size);
      var h1 := Written(h, d.vmPath, e.newDisk(create), e.create);
      if e.create != Wrote then (h1, Returned(false), [create])
      else (Written(h1, d.vmPath, e.resizedDisk(resize), e.resize), Returned(e.resize == Wrote), [create, resize])
  }

  function PrepareVm(h: Host, d: Domain, mustRecreate: bool, backing: string, backingFormat: string, e: PrepareEnv)
    : (Host, Outcome, seq<Command>)
  {
    var current := Read(h, d.vmPath);
    var intact := IsSymlink(h, d.vmPath) && current.Some? && |current.value| > 0;
    var (h1, recreated, ran) :=
      if !intact && mustRecreate then RecreateDisk(h, d, backing, backingFormat, e) else (h, Returned(true), []);
    if recreated != Returned(true) then (h1, recreated, ran)
    else
      var (h2, ok) := VmVolumeManager(h1, d.vm, d.vmPath, e.vm);
      (h2, Returned(ok), ran)
  }

  function Prepare(h: Host, d: Domain, e: PrepareEnv): (Host, Outcome, seq<Command>) {
    if !e.parse then (h, Returned(false), [])
    else
      var path := ImagePath(h, d, e);
      if path.None? || e.header.None? then (h, Returned(false), []) else PrepareFrom(h, d, path.value, e)
  }

  /** The decrypted image's path, known to Prepare only when it has found the image encrypted. */
  function BackingFile(d: Domain, e: PrepareEnv): string {
    if e.header == Some(true) then DecryptedPath(d.img) else ""
  }

  /** Prepare once the image path is known and its header has been checked. */
  function PrepareFrom(h: Host, d: Domain, path: string, e: PrepareEnv): (Host, Outcome, seq<Command>)
    requires e.header.Some?
  {
    var (h1, ok, backingFormat) := if e.header.value then PrepareImage(h, d, path, e) else (h, true, "");
    if !ok then (h1, Returned(false), [])
    else if HasPrefix(path, MOUNT_PATH) || e.header == Some(true)
    then PrepareVm(h1, d, !IsSymlink(h, d.vmPath), BackingFile(d, e), backingFormat, e)
    else (h1, Returned(true), [])
  }

  // ----- Stop -----

  datatype StopEnv = StopEnv(
    parse: bool, statFails: bool, status: bool, unmountVm: bool, closeVm: bool,
    unmountImage: bool, closeImage: bool)

  /** Whether Stop gets past its checks, so that it asks the association table. */
  predicate StopProceeds(h: Host, d: Domain, e: StopEnv) {
    e.parse && (e.statFails || Exists(h, d.vmPath)) && e.status
  }

  function CloseVm(h: Host, d: Domain, e: StopEnv): Host {
    if d.vm in h.devices
    then DeleteVolume(Unmount(h, MountDir(d.vm), e.unmountVm), d.vm, e.closeVm)
    else h
  }

  function TearDownImage(h: Host, d: Domain, imagePath: string, e: StopEnv): Host {
    DeleteVolume(Unmount(h, imagePath, e.unmountImage), d.img, e.closeImage)
  }

  /** Stop's effect on the host, given the answer of the association table. */
  function Stop(h: Host, d: Domain, isLastVm: bool, imagePath: string, e: StopEnv): Host {
    if !StopProceeds(h, d, e) then h
    else if imagePath == "" || !isLastVm then CloseVm(h, d, e)
    else TearDownImage(CloseVm(h, d, e), d, imagePath, e)
  }

  // ----- what the guest and the file watcher do -----

  /** A running VM writes its disk through the mount. */
  function GuestWrite(h: Host, vm: string, data: Bytes): Host {
    if MountDir(vm) in h.mounts then Write(h, Under(MountDir(vm), "disk"), data) else h
  }

  /** The handler for the removal of a watched disk.info: it removes everything below the VM's mount directory. */
  function DiskInfoRemoved(h: Host, file: string): Host {
    if file !in h.watched then h
    else
      var dir := MountDir(h.watched[file]);
      if dir in h.mounts then
        var dev := h.mounts[dir];
        if dev in h.devices then h.(root := h.root[h.devices[dev] := Sparse(map[])]) else h
      else h.(root := map p | p in h.root && DirOf(p) != dir :: h.root[p])
  }
}
