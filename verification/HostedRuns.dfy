/**
 Interleaved runs on a host: Stops unmount and close the paths and devices of their own
 Deletes, and Prepares and the VM part of Stops act on the host meanwhile. When no Start
 slips in behind a last-VM verdict, every counted image is mounted on its open device.
 */
module HostedRuns {
  import opened Association
  import opened History
  import opened Calls
  import opened Interleaving
  import R = RunTheorems
  import L = ReloadTheorems
  import M = MountedRuns
  import V = Volumes
  import T = VolumeTheorems
  import H = HostRuns
  import G = AgentRuns

  /**
   What an external step does to the host: nothing, the host part of a Prepare, the VM part
   of a Stop, or the handler for a removed disk.info.
   */
  datatype Effect =
    | Nothing
    | Prepares(d: V.Domain, pe: V.PrepareEnv)
    | ClosesVm(d: V.Domain, se: V.StopEnv)
    | Removes(file: string)

  /** One action with its effect on the host; `works` is the outcome of an unmount or a close. */
  datatype Move = Move(action: Action, effect: Effect, works: bool)

  datatype World = World(state: State, host: V.Host)

  function HostAfter(w: World, m: Move): V.Host {
    if !M.Acts(w.state, m.action) then w.host
    else
      var th := w.state.threads[m.action.t];
      match th.code.act
      case UnmountImage => V.Unmount(w.host, th.path, m.works)
      case CloseImage => V.DeleteVolume(w.host, th.img, m.works)
      case External => HostBy(w.host, m.effect)
      case _ => w.host
  }

  function HostBy(h: V.Host, effect: Effect): V.Host {
    match effect
    case Nothing => h
    case Prepares(d, e) => V.Prepare(h, d, e).0
    case ClosesVm(d, e) => V.CloseVm(h, d, e)
    case Removes(file) => V.DiskInfoRemoved(h, file)
  }

  function After(w: World, m: Move): World {
    World(Next(w.state, m.action), HostAfter(w, m))
  }

  function Run(w: World, moves: seq<Move>): World {
    if moves == [] then w else After(Run(w, moves[..|moves| - 1]), moves[|moves| - 1])
  }

  // ----- the paths of the table -----

  /** Every entry has the path of its own image's decrypted file, and the image belongs to the site. */
  ghost predicate PathsOk(site: T.Site, t: Table) {
    forall img | img in t :: img in site.imgs && t[img].path == V.DecryptedPath(img)
  }

  ghost predicate EventOk(site: T.Site, e: Event) {
    match e
    case CreateE(img, path) => img in site.imgs && path == V.DecryptedPath(img)
    case DeleteE(_) => true
    case MergeE(t) => PathsOk(site, t)
  }

  ghost predicate LogPathsOk(site: T.Site, log: seq<Event>) {
    forall e | e in log :: EventOk(site, e)
  }

  lemma {:induction false} ReplayPathsOk(site: T.Site, base: Table, log: seq<Event>)
    requires PathsOk(site, base) && LogPathsOk(site, log)
    ensures PathsOk(site, Replay(base, log))
  {
    if log != [] {
      ReplayPathsOk(site, base, log[..|log| - 1]);
      assert EventOk(site, log[|log| - 1]);
    }
  }

  /** Prepares and Stops act on the host under wlaMtx, handlers under the watcher's mutex. */
  ghost predicate EffectPlaced(site: T.Site, h: V.Host, m: Mode, effect: Effect) {
    match effect
    case Nothing => true
    case Prepares(d, e) => m.Holds(WlaMtx) && H.PreparePlaced(site, h, d, e)
    case ClosesVm(d, _) => m.Holds(WlaMtx) && d.vm in site.vms
    case Removes(_) => m.Holds(WatcherMtx)
  }

  /** The site of the move: its VMs and images, and a Start's image is started from its decrypted file. */
  ghost predicate Placed(site: T.Site, w: World, m: Move) {
    M.Acts(w.state, m.action) ==>
      var th := w.state.threads[m.action.t];
      match th.code.act
      case CreateCommit(img, path) => img in site.imgs && path == V.DecryptedPath(img)
      case External => EffectPlaced(site, w.host, th.mode, m.effect)
      case _ => true
  }

  // ----- what every world keeps -----

  ghost predicate WorldOk(site: T.Site, w: World) {
    && site.WellFormed() && T.HostInv(site, w.host) && Reachable(w.state)
    && PathsOk(site, w.state.base) && LogPathsOk(site, w.state.log)
  }

  lemma CommitPathOk(site: T.Site, w: World, m: Move)
    requires WorldOk(site, w) && Placed(site, w, m) && M.Acts(w.state, m.action)
    ensures LogPathsOk(site, EventOf(w.state.threads[m.action.t]))
  {
    var s, th := w.state, w.state.threads[m.action.t];
    ReachableInv(s);
    assert ThreadOk(s.base, s.log, th);
    if th.code.act == MergeFile && th.read != Blank {
      ReplayPathsOk(site, s.base, s.log[..th.readAt]);
    }
  }

  lemma StepPathsOk(site: T.Site, w: World, m: Move)
    requires WorldOk(site, w) && Placed(site, w, m)
    ensures LogPathsOk(site, Next(w.state, m.action).log) && Next(w.state, m.action).base == w.state.base
  {
    L.BaseStays(w.state, m.action);
    if m.action.Tick? && Enabled(w.state, m.action.t) {
      L.StepLog(w.state, m.action.t, m.action.coin);
      if M.Acts(w.state, m.action) {
        CommitPathOk(site, w, m);
      }
    }
  }

  /** The path with which a Stop unmounts is the decrypted file of its own image. */
  lemma UnmountedPath(site: T.Site, w: World, t: nat)
    requires WorldOk(site, w) && t < |w.state.threads| && R.TearingDown(w.state.threads[t])
    ensures var th := w.state.threads[t]; th.img in site.imgs && th.path == V.DecryptedPath(th.img)
  {
    var s, th := w.state, w.state.threads[t];
    ReachableInv(s);
    assert ThreadOk(s.base, s.log, th);
    assert Disciplined(th.mode, Then(th.code.act, th.code.next));
    ReplayPathsOk(site, s.base, s.log[..th.deletedAt - 1]);
  }

  /** The images mounted on the host. */
  ghost function Up(site: T.Site, h: V.Host): set<string> {
    set img | img in site.imgs && V.MountDir(img) in h.mounts
  }

  /** A teardown's unmount takes away the mount of its own image at most. */
  lemma UnmountTakesOne(site: T.Site, w: World, t: nat, works: bool)
    requires WorldOk(site, w) && t < |w.state.threads| && R.TearingDown(w.state.threads[t])
    ensures var th := w.state.threads[t];
      Up(site, w.host) - {th.img} <= Up(site, V.Unmount(w.host, th.path, works))
  {
    var th := w.state.threads[t];
    UnmountedPath(site, w, t);
    forall img | img in Up(site, w.host) && img != th.img ensures img in Up(site, V.Unmount(w.host, th.path, works)) {
      G.OtherUnmount(site, w.host, img, th.img, works);
    }
  }

  /** What Prepares, the VM parts of Stops and handlers do takes no image's mount away. */
  lemma EffectKeepsUp(site: T.Site, h: V.Host, m: Mode, effect: Effect)
    requires site.WellFormed() && T.HostInv(site, h) && EffectPlaced(site, h, m, effect)
    ensures T.HostInv(site, HostBy(h, effect)) && Up(site, h) <= Up(site, HostBy(h, effect))
  {
    match effect
    case Nothing =>
    case Prepares(d, e) => H.PrepareKeeps(site, h, d, e);
    case ClosesVm(d, e) =>
      H.CloseVmShrinks(site, h, d, e);
      forall img | img in Up(site, h) ensures img in Up(site, V.CloseVm(h, d, e)) {
        G.VmUnmount(site, h, img, d, e);
      }
    case Removes(file) => H.RemovalKeeps(site, h, file);
  }

  /** The host keeps its invariant, and loses at most the mount of the image that the step unmounts. */
  lemma HostStep(site: T.Site, w: World, m: Move)
    requires WorldOk(site, w) && Placed(site, w, m)
    ensures T.HostInv(site, HostAfter(w, m))
    ensures Up(site, w.host) - M.Unmounted(w.state, m.action) <= Up(site, HostAfter(w, m))
  {
    if M.Acts(w.state, m.action) {
      var th := w.state.threads[m.action.t];
      match th.code.act
      case UnmountImage =>
        UnmountTakesOne(site, w, m.action.t, m.works);
        H.UnmountShrinks(site, w.host, th.path, m.works);
      case CloseImage => H.DeleteShrinks(site, w.host, th.img, m.works);
      case External => EffectKeepsUp(site, w.host, th.mode, m.effect);
      case _ =>
    }
  }

  lemma ReachableNext(s: State, a: Action)
    requires Reachable(s)
    ensures Reachable(Next(s, a))
  {
    var file, actions :| TableOk(Decode(file)) && s == Interleaving.Run(Boot(file), actions);
    assert (actions + [a])[..|actions|] == actions;
    assert Next(s, a) == Interleaving.Run(Boot(file), actions + [a]);
  }

  lemma WorldStep(site: T.Site, w: World, m: Move)
    requires WorldOk(site, w) && Placed(site, w, m)
    ensures WorldOk(site, After(w, m))
  {
    ReachableNext(w.state, m.action);
    StepPathsOk(site, w, m);
    HostStep(site, w, m);
  }

  // ----- counted images are mounted -----

  /** A Start commits only for an image that is mounted on the host, and that no Stop is tearing down. */
  ghost predicate Orderly(site: T.Site, w: World, a: Action) {
    M.Orderly(M.World(w.state, Up(site, w.host)), a)
  }

  ghost predicate GoodMove(site: T.Site, w: World, m: Move) {
    Placed(site, w, m) && Orderly(site, w, m.action)
  }

  ghost predicate GoodRun(site: T.Site, w: World, moves: seq<Move>) {
    forall k | 0 <= k < |moves| :: GoodMove(site, Run(w, moves[..k]), moves[k])
  }

  /** Every counted image is mounted, and a Stop in its teardown works on an uncounted one. */
  ghost predicate AllUp(site: T.Site, w: World) {
    M.AllUp(M.World(w.state, Up(site, w.host)))
  }

  /** A step on the host is a step of the run with the images that are mounted. */
  lemma MoveKeepsUp(site: T.Site, w: World, m: Move)
    requires WorldOk(site, w) && AllUp(site, w) && GoodMove(site, w, m)
    ensures WorldOk(site, After(w, m)) && AllUp(site, After(w, m))
  {
    var up, up' := Up(site, w.host), Up(site, HostAfter(w, m));
    WorldStep(site, w, m);
    HostStep(site, w, m);
    M.MoveKeepsUp(M.World(w.state, up), M.Move(m.action, up'));
    assert up - M.Unmounted(w.state, m.action) + up' == up';
  }

  lemma {:induction false} GoodInit(site: T.Site, w: World, moves: seq<Move>)
    requires moves != [] && GoodRun(site, w, moves)
    ensures GoodRun(site, w, moves[..|moves| - 1])
    ensures GoodMove(site, Run(w, moves[..|moves| - 1]), moves[|moves| - 1])
  {
    var init := moves[..|moves| - 1];
    forall k | 0 <= k < |init| ensures init[..k] == moves[..k] && init[k] == moves[k] {}
  }

  lemma {:induction false} GoodRunsStayUp(site: T.Site, w: World, moves: seq<Move>)
    requires WorldOk(site, w) && AllUp(site, w) && GoodRun(site, w, moves)
    ensures WorldOk(site, Run(w, moves)) && AllUp(site, Run(w, moves))
  {
    if moves != [] {
      GoodInit(site, w, moves);
      GoodRunsStayUp(site, w, moves[..|moves| - 1]);
      MoveKeepsUp(site, Run(w, moves[..|moves| - 1]), moves[|moves| - 1]);
    }
  }

  /** The agent starts on a host on which the images counted in the file are mounted. */
  ghost predicate GoodStart(site: T.Site, file: Content, h: V.Host) {
    && TableOk(Decode(file)) && PathsOk(site, Decode(file)) && site.WellFormed() && T.HostInv(site, h)
    && forall img | Count(Decode(file), img) > 0 :: V.MountDir(img) in h.mounts
  }

  lemma StartIsOk(site: T.Site, file: Content, h: V.Host)
    requires GoodStart(site, file, h)
    ensures WorldOk(site, World(Boot(file), h)) && AllUp(site, World(Boot(file), h))
  {
    assert Merged(map[], Decode(file)) == Decode(file);
    assert Boot(file) == Interleaving.Run(Boot(file), []);
  }

  /**
   In every interleaved run on a host, with any outcome of every unmount, close, Prepare
   and VM teardown: if each Start commits while its image is mounted and no Stop of that
   image is between its last-VM verdict and the end of its teardown, then in every state
   every counted image is mounted, on its open device.
   */
  lemma {:induction false} CountedImagesStayOnTheHost(site: T.Site, file: Content, h: V.Host, moves: seq<Move>,
                                                      img: string)
    requires GoodStart(site, file, h) && GoodRun(site, World(Boot(file), h), moves)
    requires Count(Run(World(Boot(file), h), moves).state.assoc, img) > 0
    ensures var host := Run(World(Boot(file), h), moves).host;
      V.MountDir(img) in host.mounts && host.mounts[V.MountDir(img)] == img && img in host.devices
  {
    StartIsOk(site, file, h);
    GoodRunsStayUp(site, World(Boot(file), h), moves);
    var w := Run(World(Boot(file), h), moves);
    assert img in Up(site, w.host);
    T.MountDirInjective(img, w.host.mounts[V.MountDir(img)]);
  }
}
