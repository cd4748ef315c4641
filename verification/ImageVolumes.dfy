/**
 What a successful imageVolumeManager call leaves readable at the decrypted path, case
 by case, and the torn decryption that every later call accepts.
 */
module ImageVolumes {
  import opened Common
  import opened Volumes
  import opened VolumeTheorems
  import opened HostRuns

  /** What the caller can check beforehand for `plain` to be readable after a successful call. */
  predicate WillRead(h: Host, img: string, imagePath: string, e: ImageEnv, plain: Bytes) {
    var sparse := ImageSparsePath(imagePath);
    if img in h.devices then Read(h, DecryptedPath(img)) == Some(plain)
    else if sparse in h.root then
      IsVolume(h, sparse) && img in h.root[sparse].files && h.root[sparse].files[img] == plain
    else !e.statFails && Read(h, imagePath).Some? && e.decrypt(Read(h, imagePath).value) == Some(plain)
  }

  /** A mounted image is read from its volume. */
  lemma MountedImageReads(site: Site, h: Host, img: string, imagePath: string)
    requires ImageMounted(site, h, img, imagePath)
    ensures IsVolume(h, ImageSparsePath(imagePath))
    ensures var files := h.root[ImageSparsePath(imagePath)].files;
      Read(h, DecryptedPath(img)) == if img in files then Some(files[img]) else None
  {
    UnderMount(img, img);
    MountDirInjective(img, h.mounts[MountDir(img)]);
  }

  /** The original is still there, unmounted and unchanged, when it is read. */
  lemma OriginalIsRead(site: Site, h: Host, img: string, imagePath: string, e: ImageEnv)
    requires site.WellFormed() && HostInv(site, h) && img in site.imgs && ImageSparsePath(imagePath) in site.imgSparse
    requires !HasPrefix(imagePath, MOUNT_PATH) && imagePath in h.root && h.root[imagePath].Regular?
    requires Decrypts(h, img, imagePath, e)
    ensures Read(HostForDecrypt(h, img, imagePath, e), imagePath) == Some(h.root[imagePath].data)
  {
    var h2 := HostForDecrypt(h, img, imagePath, e);
    FreshImageVolume(site, h, img, imagePath, e);
    OutsideMounts(site, h2, imagePath);
    assert imagePath != ImageSparsePath(imagePath);
  }

  /** A call that completes from a fresh sparse file leaves the decryption of the original in the volume. */
  lemma FirstImageCallDecrypts(site: Site, h: Host, img: string, imagePath: string, e: ImageEnv)
    requires site.WellFormed() && HostInv(site, h) && img in site.imgs && ImageSparsePath(imagePath) in site.imgSparse
    requires ImageSparsePath(imagePath) !in h.root && !e.statFails && img !in h.devices
    requires !HasPrefix(imagePath, MOUNT_PATH) && imagePath in h.root && h.root[imagePath].Regular?
    requires ImageVolumeManager(h, img, imagePath, e).1
    ensures var after := ImageVolumeManager(h, img, imagePath, e).0;
      var plain := e.decrypt(h.root[imagePath].data);
      && plain.Some? && IsVolume(after, ImageSparsePath(imagePath))
      && after.root[ImageSparsePath(imagePath)] == Sparse(map[img := plain.value])
      && Read(after, DecryptedPath(img)) == Some(plain.value)
  {
    assert Decrypts(h, img, imagePath, e);
    var h2 := HostForDecrypt(h, img, imagePath, e);
    FreshImageVolume(site, h, img, imagePath, e);
    OriginalIsRead(site, h, img, imagePath, e);
    DecryptIntoKeeps(site, h2, img, imagePath, e);
    MountedImageReads(site, DecryptInto(h2, img, imagePath, e).0, img, imagePath);
  }

  /** The device was closed and nothing is decrypted: the volume is mounted as it is, empty if it is new. */
  lemma ReopenedImage(site: Site, h: Host, img: string, imagePath: string, e: ImageEnv)
    requires site.WellFormed() && HostInv(site, h) && img in site.imgs && ImageSparsePath(imagePath) in site.imgSparse
    requires img !in h.devices && (ImageSparsePath(imagePath) in h.root || e.statFails)
    requires ImageVolumeManager(h, img, imagePath, e).1
    ensures var sparse := ImageSparsePath(imagePath);
      var after := ImageVolumeManager(h, img, imagePath, e).0;
      && ImageMounted(site, after, img, imagePath)
      && after.root[sparse] == (if sparse in h.root then h.root[sparse] else Sparse(map[]))
  {
    CreateEffect(h, ImageSparsePath(imagePath), img, e.create);
    OpenAndMount(site, h, ImageSparsePath(imagePath), img, img, e.create, e.mount);
  }

  /**
   What success of imageVolumeManager means: an open device changes nothing, an existing
   sparse file is mounted as it is, one that could not be looked up is mounted empty, and
   only a new one gets the decryption. So afterwards `plain` is read at the decrypted
   path if and only if that held before, the volume had it, or it is the decryption.
   */
  lemma WhenSuccessMeansDecrypted(site: Site, h: Host, img: string, imagePath: string, e: ImageEnv, plain: Bytes)
    requires site.WellFormed() && HostInv(site, h) && img in site.imgs && ImageSparsePath(imagePath) in site.imgSparse
    requires !HasPrefix(imagePath, MOUNT_PATH) && imagePath in h.root && h.root[imagePath].Regular?
    requires ImageVolumeManager(h, img, imagePath, e).1
    ensures Read(ImageVolumeManager(h, img, imagePath, e).0, DecryptedPath(img)) == Some(plain) <==>
      WillRead(h, img, imagePath, e, plain)
  {
    var sparse := ImageSparsePath(imagePath);
    var after := ImageVolumeManager(h, img, imagePath, e).0;
    if img in h.devices {
      assert after == h;
    } else if sparse in h.root || e.statFails {
      ReopenedImage(site, h, img, imagePath, e);
      MountedImageReads(site, after, img, imagePath);
    } else {
      FirstImageCallDecrypts(site, h, img, imagePath, e);
      OutsideMounts(site, h, imagePath);
    }
  }

  // ----- a torn decryption -----

  /** A call in which everything works but the write of the decrypted image, which leaves `left`. */
  function TornCall(decrypt: Bytes -> Option<Bytes>, left: Bytes): ImageEnv {
    ImageEnv(false, Created, MountEnv(true, true, true, true, true), true, decrypt, WriteTorn(left), true, true, true)
  }

  lemma TornCallDecrypts(site: Site, h: Host, img: string, imagePath: string, decrypt: Bytes -> Option<Bytes>,
                         left: Bytes)
    requires site.WellFormed() && HostInv(site, h) && img in site.imgs && ImageSparsePath(imagePath) in site.imgSparse
    requires img !in h.devices && ImageSparsePath(imagePath) !in h.root
    ensures Decrypts(h, img, imagePath, TornCall(decrypt, left))
  {
    var e := TornCall(decrypt, left);
    PlaceholderMissesTheVolume(site, h, ImageSparsePath(imagePath), img, e.create, img);
    UnderMount(img, img);
  }

  /** The first call fails with `left` in the image's volume, mounted on an open device. */
  lemma TornCallLeaves(site: Site, h: Host, img: string, imagePath: string, decrypt: Bytes -> Option<Bytes>,
                       left: Bytes)
    requires site.WellFormed() && HostInv(site, h) && img in site.imgs && ImageSparsePath(imagePath) in site.imgSparse
    requires !HasPrefix(imagePath, MOUNT_PATH) && imagePath in h.root && h.root[imagePath].Regular?
    requires img !in h.devices && ImageSparsePath(imagePath) !in h.root && decrypt(h.root[imagePath].data).Some?
    ensures var (h1, ok) := ImageVolumeManager(h, img, imagePath, TornCall(decrypt, left));
      && !ok && ImageMounted(site, h1, img, imagePath)
      && h1.root[ImageSparsePath(imagePath)] == Sparse(map[img := left])
  {
    var e := TornCall(decrypt, left);
    var h2 := HostForDecrypt(h, img, imagePath, e);
    TornCallDecrypts(site, h, img, imagePath, decrypt, left);
    FreshImageVolume(site, h, img, imagePath, e);
    OriginalIsRead(site, h, img, imagePath, e);
    WriteInImage(site, h2, img, imagePath, left);
  }

  /**
   A first call that dies in its write is reported as a failure, but any second call
   finds the device open and reports success; what is read at the decrypted path is what
   the torn write left, and no later call, teardown or remount ever repairs it.
   */
  lemma {:induction false} TornDecryptionIsAccepted(site: Site, h: Host, img: string, imagePath: string,
                                                    decrypt: Bytes -> Option<Bytes>, left: Bytes, second: ImageEnv,
                                                    evs: seq<Event>)
    requires site.WellFormed() && HostInv(site, h) && img in site.imgs && ImageSparsePath(imagePath) in site.imgSparse
    requires !HasPrefix(imagePath, MOUNT_PATH) && imagePath in h.root && h.root[imagePath].Regular?
    requires img !in h.devices && ImageSparsePath(imagePath) !in h.root && decrypt(h.root[imagePath].data).Some?
    requires PlacedRun(site, ImageVolumeManager(h, img, imagePath, TornCall(decrypt, left)).0, evs)
    ensures var (h1, ok1) := ImageVolumeManager(h, img, imagePath, TornCall(decrypt, left));
      var (h2, ok2) := ImageVolumeManager(h1, img, imagePath, second);
      && !ok1 && ok2 && h2 == h1 && Read(h2, DecryptedPath(img)) == Some(left)
      && ImageSparsePath(imagePath) in Run(h2, evs).root
      && Run(h2, evs).root[ImageSparsePath(imagePath)] == Sparse(map[img := left])
  {
    var h1 := ImageVolumeManager(h, img, imagePath, TornCall(decrypt, left)).0;
    TornCallLeaves(site, h, img, imagePath, decrypt, left);
    MountedImageReads(site, h1, img, imagePath);
    ImageVolumesNeverChange(site, h1, evs, ImageSparsePath(imagePath));
  }
}
