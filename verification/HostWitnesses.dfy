/**
 Two hosts on which vmVolumeManager reports success although the VM's disk has not
 become the link into its volume.
 */
module HostWitnesses {
  import opened Common
  import opened Text
  import opened Volumes
  import opened VolumeTheorems

  const VM := "vm"
  const VM_PATH := "/vm/" + "disk"
  const VM_SPARSE := "/vm/" + (VM + "_sparse")

  const IMG := "image"
  const ORIGINAL := "/images/base"
  const IMG_SPARSE := ORIGINAL + "_sparseFile"

  const SITE := Site({VM}, {IMG}, {VM_PATH}, {VM_SPARSE}, {IMG_SPARSE})

  const EVERYTHING_WORKS :=
    VmEnv(false, Created, MountEnv(true, true, true, true, true), Wrote, true,
          LinkEnv(true, true, true, true, true, true), true)

  lemma SparsePathIs()
    ensures VmSparsePath(VM, VM_PATH) == VM_SPARSE
  {
    ReplaceAtEnd("/vm/", "disk", VM + "_sparse");
  }

  lemma SiteIsWellFormed()
    ensures SITE.WellFormed() && SITE.IsVm(VM, VM_PATH)
  {
    SparsePathIs();
    assert VM_PATH[1] != MOUNT_PATH[1] && VM_SPARSE[1] != MOUNT_PATH[1] && IMG_SPARSE[1] != MOUNT_PATH[1];
    assert |VM_PATH| != |VM_SPARSE| && |VM_PATH| != |IMG_SPARSE| && |VM_SPARSE| != |IMG_SPARSE|;
    assert |VM| != |IMG|;
  }

  /** The sparse file is already there: the call ends early with success, and the disk stays a regular file. */
  lemma ExistingSparseFileLeavesTheDisk(data: Bytes, files: map<string, Bytes>) returns (h: Host)
    ensures SITE.WellFormed() && HostInv(SITE, h) && h.root == map[VM_PATH := Regular(data), VM_SPARSE := Sparse(files)]
    ensures var (after, ok) := VmVolumeManager(h, VM, VM_PATH, EVERYTHING_WORKS);
      ok && VM_PATH in after.root && after.root[VM_PATH] == Regular(data)
  {
    h := Host(map[VM_PATH := Regular(data), VM_SPARSE := Sparse(files)], map[], map[], map[]);
    SparsePathIs();
    SiteIsWellFormed();
    SucceedsExactlyWhen(SITE, h, VM, VM_PATH, EVERYTHING_WORKS, data);
    VmManagerKeeps(SITE, h, VM, VM_PATH, EVERYTHING_WORKS);
    assert !HasPrefix(VM_PATH, MOUNT_PATH);
  }

  /** The second removal fails: the call reports success, and nothing is left at the disk's path. */
  lemma FailingRemovalLeavesNoDisk(data: Bytes) returns (h: Host)
    ensures SITE.WellFormed() && HostInv(SITE, h) && h.root == map[VM_PATH := Regular(data)]
    ensures var e := EVERYTHING_WORKS.(link := EVERYTHING_WORKS.link.(remove := false));
      var (after, ok) := VmVolumeManager(h, VM, VM_PATH, e);
      ok && VM_PATH !in after.root && DiskSafe(after, VM, VM_PATH, data)
  {
    h := Host(map[VM_PATH := Regular(data)], map[], map[], map[]);
    var e := EVERYTHING_WORKS.(link := EVERYTHING_WORKS.link.(remove := false));
    SparsePathIs();
    SiteIsWellFormed();
    SucceedsExactlyWhen(SITE, h, VM, VM_PATH, e, data);
    DiskIsNeverLost(SITE, h, VM, VM_PATH, e, data);
    FailedRemoval(SITE, h, VM, VM_PATH, e, data);
  }

  /** After a successful call on a fresh sparse file whose second removal failed, the disk's path is empty. */
  lemma FailedRemoval(site: Site, h: Host, vm: string, vmPath: string, e: VmEnv, data: Bytes)
    requires site.WellFormed() && HostInv(site, h) && site.IsVm(vm, vmPath)
    requires vmPath in h.root && h.root[vmPath] == Regular(data) && VmSparsePath(vm, vmPath) !in h.root && !e.statFails
    requires VmVolumeManager(h, vm, vmPath, e).1 && !e.link.remove
    ensures vmPath !in VmVolumeManager(h, vm, vmPath, e).0.root
  {
    SuccessCopiesIfNew(h, vm, vmPath, e);
    assert vmPath != VmSparsePath(vm, vmPath) && !HasPrefix(vmPath, MOUNT_PATH);
    FreshVolume(site, h, vm, vmPath, e);
    CopyAndLinkContent(site, HostForCopy(h, vm, vmPath, e), vm, vmPath, e, data);
  }
}
