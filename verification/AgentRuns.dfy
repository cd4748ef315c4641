/**
 Serial runs of the whole agent, with restarts: an image stays mounted while a
 counted VM uses it, the last Stop takes it down, and restarts are not noticed.
 */
module AgentRuns {
  import opened Common
  import opened Volumes
  import opened VolumeTheorems
  import opened Agent
  import A = Association
  import H = HostRuns

  datatype Event =
    | Starts(d: Domain, start: StartEnv)
    | Prepares(d: Domain, valid: bool, readFails: bool, prepare: PrepareEnv)
    | Stops(d: Domain, valid: bool, stop: StopEnv, save: A.SaveFaults)
    | Writes(vm: string, data: Bytes)
    | Removes(file: string)
    | Restarts

  /** A restart loads the file into an empty table; the new watcher has no handlers. */
  function Restarted(a: State): State {
    State(a.host.(watched := map[]), A.Merged(map[], A.Decode(a.file)), a.file)
  }

  function Apply(a: State, ev: Event): State {
    match ev
    case Starts(d, e) => StartCall(a, d, e).0
    case Prepares(d, valid, readFails, e) => PrepareCall(a, d, valid, readFails, e).0
    case Stops(d, valid, e, save) => StopCall(a, d, valid, e, save).0
    case Writes(vm, data) => a.(host := GuestWrite(a.host, vm, data))
    case Removes(file) => a.(host := DiskInfoRemoved(a.host, file))
    case Restarts => Restarted(a)
  }

  function Run(a: State, evs: seq<Event>): State {
    if evs == [] then a else Apply(Run(a, evs[..|evs| - 1]), evs[|evs| - 1])
  }

  /** Every entry has the path of its own image's decrypted file. */
  ghost predicate TableAt(site: Site, t: A.Table) {
    forall img | img in t :: img in site.imgs && t[img].path == DecryptedPath(img) && t[img].count >= 0
  }

  ghost predicate AgentInv(site: Site, a: State) {
    HostInv(site, a.host) && TableAt(site, a.table) && TableAt(site, A.Decode(a.file))
  }

  /** The VMs, images and paths of the site; an image below the mount directory is started from its decrypted file. */
  ghost predicate Placed(site: Site, a: State, ev: Event) {
    match ev
    case Starts(d, _) =>
      d.img in site.imgs && (HasPrefix(d.imagePath, MOUNT_PATH) ==> d.imagePath == DecryptedPath(d.img))
    case Prepares(d, _, readFails, e) =>
      H.PreparePlaced(site, a.host, d, e.(savedPath := SavedPath(a, d, readFails, e)))
    case Stops(d, _, _, _) => d.vm in site.vms && d.img in site.imgs
    case Writes(vm, _) => vm in site.vms
    case Removes(_) => true
    case Restarts => true
  }

  /** The image is mounted; by the host invariant its device is then open. */
  predicate ImageMounted(a: State, img: string) {
    MountDir(img) in a.host.mounts
  }

  /** The images that were mounted and are counted now are still mounted. */
  ghost predicate CountedStay(site: Site, a: State, after: State) {
    forall img | img in site.imgs && ImageMounted(a, img) && A.Count(after.table, img) > 0 :: ImageMounted(after, img)
  }

  // ----- invariant -----

  lemma StartKeeps(site: Site, a: State, d: Domain, e: StartEnv)
    requires AgentInv(site, a) && Placed(site, a, Starts(d, e))
    ensures var after := StartCall(a, d, e).0;
      AgentInv(site, after) && after.host == a.host && CountedStay(site, a, after)
  {
  }

  lemma PrepareKeepsAgent(site: Site, a: State, d: Domain, valid: bool, readFails: bool, e: PrepareEnv)
    requires site.WellFormed() && AgentInv(site, a) && Placed(site, a, Prepares(d, valid, readFails, e))
    ensures var after := PrepareCall(a, d, valid, readFails, e).0;
      && AgentInv(site, after) && CountedStay(site, a, after)
      && VolumesKept(a.host, after.host) && MountsKept(a.host, after.host)
  {
    H.PrepareKeeps(site, a.host, d, e.(savedPath := SavedPath(a, d, readFails, e)));
  }

  lemma StopKeepsAgent(site: Site, a: State, d: Domain, valid: bool, e: StopEnv, save: A.SaveFaults)
    requires AgentInv(site, a)
    ensures var after := StopCall(a, d, valid, e, save).0;
      AgentInv(site, after) && after.host.root == a.host.root
  {
    H.CloseVmShrinks(site, a.host, d, e);
    H.TearDownShrinks(site, CloseVm(a.host, d, e), d, A.PathOf(a.table, d.img), e);
  }

  lemma ApplyKeepsInv(site: Site, a: State, ev: Event)
    requires site.WellFormed() && AgentInv(site, a) && Placed(site, a, ev)
    ensures AgentInv(site, Apply(a, ev))
  {
    match ev
    case Starts(d, e) => StartKeeps(site, a, d, e);
    case Prepares(d, valid, readFails, e) => PrepareKeepsAgent(site, a, d, valid, readFails, e);
    case Stops(d, valid, e, save) => StopKeepsAgent(site, a, d, valid, e, save);
    case Writes(vm, data) => H.GuestWriteKeeps(site, a.host, vm, data);
    case Removes(file) => H.RemovalKeeps(site, a.host, file);
    case Restarts =>
  }

  // ----- an image stays mounted while it is counted -----

  /** The stored path of another image, and the mount point of a VM, lie elsewhere. */
  lemma OtherUnmount(site: Site, h: Host, img: string, other: string, works: bool)
    requires site.WellFormed() && img in site.imgs && other in site.imgs && img != other
    ensures MountDir(img) in h.mounts ==> MountDir(img) in Unmount(h, DecryptedPath(other), works).mounts
  {
    UnderMount(other, other);
    if MountDir(img) == MountDir(other) {
      MountDirInjective(img, other);
    }
    H.FileIsNoMountPoint(other, img);
  }

  lemma VmUnmount(site: Site, h: Host, img: string, d: Domain, e: StopEnv)
    requires site.WellFormed() && HostInv(site, h) && img in site.imgs && d.vm in site.vms
    ensures MountDir(img) in h.mounts ==> MountDir(img) in CloseVm(h, d, e).mounts
  {
    if MountDir(img) == MountDir(d.vm) {
      MountDirInjective(img, d.vm);
    }
    if MountDir(d.vm) !in h.mounts {
      ParentIsNotMounted(site, h, d.vm);
    }
  }

  /** The directory above a VM's mount point is not the mount point of an image. */
  lemma ParentIsNotMounted(site: Site, h: Host, vm: string)
    requires site.WellFormed() && '/' !in vm
    ensures forall img: string :: DirOf(MountDir(vm)) != MountDir(img)
  {
    var parent := MOUNT_PATH[..|MOUNT_PATH| - 1];
    assert MountDir(vm) == Under(parent, vm);
    PartsOfPath(parent, vm);
    assert forall img: string :: |MountDir(img)| >= |MOUNT_PATH|;
  }

  lemma MountedAfterStop(site: Site, a: State, d: Domain, valid: bool, e: StopEnv, save: A.SaveFaults, img: string)
    requires site.WellFormed() && AgentInv(site, a) && d.vm in site.vms && d.img in site.imgs && img in site.imgs
    requires ImageMounted(a, img) && A.Count(StopCall(a, d, valid, e, save).0.table, img) > 0
    ensures ImageMounted(StopCall(a, d, valid, e, save).0, img)
  {
    VmUnmount(site, a.host, img, d, e);
    if d.img != img && d.img in a.table {
      OtherUnmount(site, CloseVm(a.host, d, e), img, d.img, e.unmountImage);
    }
  }

  /** No Stop, whatever fails in it, unmounts an image that the table still counts afterwards. */
  lemma CountedAfterStop(site: Site, a: State, d: Domain, valid: bool, e: StopEnv, save: A.SaveFaults)
    requires site.WellFormed() && AgentInv(site, a) && d.vm in site.vms && d.img in site.imgs
    ensures CountedStay(site, a, StopCall(a, d, valid, e, save).0)
  {
    var after := StopCall(a, d, valid, e, save).0;
    forall img | img in site.imgs && ImageMounted(a, img) && A.Count(after.table, img) > 0
      ensures ImageMounted(after, img)
    {
      MountedAfterStop(site, a, d, valid, e, save, img);
    }
  }

  lemma MountedStep(site: Site, a: State, ev: Event, img: string)
    requires site.WellFormed() && AgentInv(site, a) && Placed(site, a, ev) && img in site.imgs
    requires ImageMounted(a, img) && A.Count(Apply(a, ev).table, img) > 0
    ensures ImageMounted(Apply(a, ev), img)
  {
    match ev
    case Starts(d, e) => StartKeeps(site, a, d, e);
    case Prepares(d, valid, readFails, e) => PrepareKeepsAgent(site, a, d, valid, readFails, e);
    case Stops(d, valid, e, save) => MountedAfterStop(site, a, d, valid, e, save, img);
    case Writes(vm, data) => H.GuestWriteKeeps(site, a.host, vm, data);
    case Removes(file) => H.RemovalKeeps(site, a.host, file);
    case Restarts =>
  }

  ghost predicate PlacedRun(site: Site, a: State, evs: seq<Event>) {
    forall k | 0 <= k < |evs| :: Placed(site, Run(a, evs[..k]), evs[k])
  }

  lemma {:induction false} RunKeepsInv(site: Site, a: State, evs: seq<Event>)
    requires site.WellFormed() && AgentInv(site, a) && PlacedRun(site, a, evs)
    ensures AgentInv(site, Run(a, evs))
  {
    if evs != [] {
      var init := evs[..|evs| - 1];
      forall k | 0 <= k < |init| ensures Placed(site, Run(a, init[..k]), init[k]) {
        assert init[..k] == evs[..k];
      }
      RunKeepsInv(site, a, init);
      ApplyKeepsInv(site, Run(a, init), evs[|evs| - 1]);
    }
  }

  /**
   In every serial run, with failures of any call and restarts anywhere: as long as the
   table counts a VM on the image, the image stays mounted on its open device.
   */
  lemma {:induction false} MountedWhileCounted(site: Site, a: State, evs: seq<Event>, img: string)
    requires site.WellFormed() && AgentInv(site, a) && PlacedRun(site, a, evs) && img in site.imgs
    requires ImageMounted(a, img)
    requires forall k | 0 < k <= |evs| :: A.Count(Run(a, evs[..k]).table, img) > 0
    ensures ImageMounted(Run(a, evs), img) && img in Run(a, evs).host.devices
  {
    if evs == [] {
      MountDirInjective(img, a.host.mounts[MountDir(img)]);
    } else {
      var init, last := evs[..|evs| - 1], evs[|evs| - 1];
      forall k | 0 <= k <= |init| ensures init[..k] == evs[..k] {}
      forall k | 0 <= k < |init| ensures Placed(site, Run(a, init[..k]), init[k]) {}
      MountedWhileCounted(site, a, init, img);
      RunKeepsInv(site, a, init);
      assert evs[..|evs|] == evs;
      MountedStep(site, Run(a, init), last, img);
      ApplyKeepsInv(site, Run(a, init), last);
      MountDirInjective(img, Run(a, evs).host.mounts[MountDir(img)]);
    }
  }

  /**
   The Stop of the last counted VM, when unmounting and closing work, leaves the image
   unmounted and its device closed. Stop passes the path of the decrypted file, not the
   mount point: this rests on an unmount that accepts a path inside the mount.
   */
  lemma LastStopTakesTheImageDown(site: Site, a: State, d: Domain, e: StopEnv, save: A.SaveFaults)
    requires site.WellFormed() && AgentInv(site, a) && d.vm in site.vms && d.img in site.imgs
    requires StopProceeds(a.host, d, e) && A.Count(a.table, d.img) == 1 && e.unmountImage && e.closeImage
    ensures var after := StopCall(a, d, true, e, save).0;
      MountDir(d.img) !in after.host.mounts && d.img !in after.host.devices && A.Count(after.table, d.img) == 0
  {
    H.CloseVmShrinks(site, a.host, d, e);
    H.TearDownTakesDown(site, CloseVm(a.host, d, e), d, e);
  }

  /** An unmount that accepts mount points only: it cannot work on the path that Stop passes. */
  predicate OnlyMountPoints(a: State, d: Domain, e: StopEnv) {
    e.unmountImage ==> A.PathOf(a.table, d.img) in CloseVm(a.host, d, e).mounts
  }

  /**
   With an unmount that accepts mount points only, no Stop ever takes an image down: the
   image stays mounted and its device stays open, also after the Stop of the last VM.
   */
  lemma StrictUnmountNeverTakesDown(site: Site, a: State, d: Domain, valid: bool, e: StopEnv, save: A.SaveFaults)
    requires site.WellFormed() && AgentInv(site, a) && d.vm in site.vms && d.img in site.imgs
    requires OnlyMountPoints(a, d, e) && ImageMounted(a, d.img)
    ensures var after := StopCall(a, d, valid, e, save).0;
      ImageMounted(after, d.img) && d.img in after.host.devices
  {
    var closed := CloseVm(a.host, d, e);
    H.CloseVmShrinks(site, a.host, d, e);
    VmUnmount(site, a.host, d.img, d, e);
    MountDirInjective(d.img, closed.mounts[MountDir(d.img)]);
    MountDirInjective(d.img, a.host.mounts[MountDir(d.img)]);
    if A.Judge(a.table, d.img) != A.Missing {
      H.FilesAreNoMountPoints(site, closed, d.img);
    }
    assert DeleteVolume(closed, d.img, e.closeImage) == closed;
  }
}
