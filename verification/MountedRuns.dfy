/**
 Interleaved runs together with the images that are mounted: when no Start slips in
 behind a last-VM verdict, every counted image is mounted in every state.
 */
module MountedRuns {
  import opened Association
  import opened Calls
  import opened Interleaving
  import opened ReloadTheorems

  /** A state of the machine with the images that are mounted in it. */
  datatype World = World(state: State, up: set<string>)

  /** One action of the machine, and any images that a Prepare mounts meanwhile. */
  datatype Move = Move(action: Action, mounted: set<string>)

  predicate Acts(s: State, a: Action) {
    a.Tick? && Enabled(s, a.t) && s.threads[a.t].code.Then?
  }

  /** The image that an action unmounts: a Stop's unmount of its own image. */
  function Unmounted(s: State, a: Action): set<string> {
    if Acts(s, a) && s.threads[a.t].code.act == UnmountImage then {s.threads[a.t].img} else {}
  }

  function Played(w: World, m: Move): World {
    World(Next(w.state, m.action), w.up - Unmounted(w.state, m.action) + m.mounted)
  }

  function WorldAfter(w: World, moves: seq<Move>): World {
    if moves == [] then w else Played(WorldAfter(w, moves[..|moves| - 1]), moves[|moves| - 1])
  }

  /** A Stop between its last-VM verdict on its image and the release of wlaMtx at the end of its teardown. */
  predicate InTeardown(th: Thread) {
    LastVm(th.mode)
  }

  predicate LastVm(m: Mode) {
    m.ruling == Found(Last) && m.Holds(WlaMtx)
  }

  /** A Start commits only for a mounted image, and not while a Stop is tearing that image down. */
  ghost predicate Orderly(w: World, a: Action) {
    Acts(w.state, a) && w.state.threads[a.t].code.act.CreateCommit? ==>
      var img := w.state.threads[a.t].code.act.img;
      img in w.up && forall t | 0 <= t < |w.state.threads| && InTeardown(w.state.threads[t]) ::
        w.state.threads[t].img != img
  }

  ghost predicate OrderlyRun(w: World, moves: seq<Move>) {
    forall k | 0 <= k < |moves| :: Orderly(WorldAfter(w, moves[..k]), moves[k].action)
  }

  ghost predicate CountedUp(w: World) {
    forall img | Count(w.state.assoc, img) > 0 :: img in w.up
  }

  /** No Start has slipped in behind a last-VM verdict. */
  ghost predicate TornDownUncounted(s: State) {
    forall t | 0 <= t < |s.threads| && InTeardown(s.threads[t]) :: Count(s.assoc, s.threads[t].img) == 0
  }

  ghost predicate AllUp(w: World) {
    CountedUp(w) && TornDownUncounted(w.state)
  }

  // ----- one step -----

  lemma ActStaysOut(m: Mode, a: Act)
    requires Allowed(m, a) && !a.DeleteCommit? && LastVm(After(m, a, Missing))
    ensures LastVm(m)
  {
  }

  lemma QuietActor(s: State, th: Thread)
    requires th.code.Then? && EventOf(th) == [] && Allowed(th.mode, th.code.act) && InTeardown(Moved(s, th))
    ensures InTeardown(th) && Moved(s, th).img == th.img
  {
    assert Moved(s, th).mode == After(th.mode, th.code.act, Missing);
    ActStaysOut(th.mode, th.code.act);
  }

  lemma QuietTable(s: State, th: Thread)
    requires th.code.Then? && EventOf(th) == []
    ensures Effect(s, th).assoc == s.assoc
  {
  }

  /** The actor of a step without a commit is in a teardown of an image only if it was before. */
  lemma ActorStaysOut(s: State, t: nat, coin: bool)
    requires Enabled(s, t) && Disciplined(s.threads[t].mode, s.threads[t].code)
    requires s.threads[t].code.Then? ==> EventOf(s.threads[t]) == []
    ensures var th, moved := s.threads[t], Step(s, t, coin).threads[t];
      InTeardown(moved) ==> InTeardown(th) && moved.img == th.img
    ensures Step(s, t, coin).assoc == s.assoc
  {
    var th := s.threads[t];
    if th.code.Then? {
      QuietTable(s, th);
      if InTeardown(Moved(s, th)) {
        QuietActor(s, th);
      }
    } else {
      assert Step(s, t, coin).threads[t] == Branched(s, th, coin);
      assert Branched(s, th, coin).mode.held == th.mode.held && Branched(s, th, coin).mode.ruling == th.mode.ruling;
    }
  }

  /** A step that commits nothing changes neither counts nor verdicts. */
  lemma QuietStep(s: State, t: nat, coin: bool)
    requires Inv(s) && TornDownUncounted(s) && Enabled(s, t)
    requires s.threads[t].code.Then? ==> EventOf(s.threads[t]) == []
    ensures TornDownUncounted(Step(s, t, coin)) && Step(s, t, coin).assoc == s.assoc
  {
    var after := Step(s, t, coin);
    assert ThreadOk(s.base, s.log, s.threads[t]);
    ActorStaysOut(s, t, coin);
    forall u | 0 <= u < |after.threads| && InTeardown(after.threads[u])
      ensures Count(after.assoc, after.threads[u].img) == 0
    {
      assert u != t ==> after.threads[u] == s.threads[u];
      assert InTeardown(s.threads[u]) && after.threads[u].img == s.threads[u].img;
    }
  }

  lemma CreateStep(s: State, t: nat, coin: bool)
    requires Inv(s) && TornDownUncounted(s) && Enabled(s, t) && s.threads[t].code.Then?
    requires s.threads[t].code.act.CreateCommit?
    requires forall u | 0 <= u < |s.threads| && InTeardown(s.threads[u]) ::
      s.threads[u].img != s.threads[t].code.act.img
    ensures TornDownUncounted(Step(s, t, coin))
    ensures forall img | img != s.threads[t].code.act.img :: Count(Step(s, t, coin).assoc, img) == Count(s.assoc, img)
  {
    var after := Step(s, t, coin);
    forall u | 0 <= u < |after.threads| && InTeardown(after.threads[u])
      ensures Count(after.assoc, after.threads[u].img) == 0
    {
      assert u != t ==> after.threads[u] == s.threads[u];
      assert InTeardown(s.threads[u]) && after.threads[u].img == s.threads[u].img;
    }
  }

  /** While one thread deletes or merges, no other is in a teardown. */
  lemma AloneUnderWla(s: State, t: nat, u: nat)
    requires Inv(s) && t < |s.threads| && u < |s.threads| && t != u && s.threads[t].mode.Holds(WlaMtx)
    ensures !InTeardown(s.threads[u])
  {
  }

  lemma DeleteStep(s: State, t: nat, coin: bool)
    requires Inv(s) && Enabled(s, t) && s.threads[t].code.Then? && s.threads[t].code.act.DeleteCommit?
    ensures TornDownUncounted(Step(s, t, coin))
    ensures forall img :: Count(Step(s, t, coin).assoc, img) <= Count(s.assoc, img)
  {
    var th, after := s.threads[t], Step(s, t, coin);
    assert ThreadOk(s.base, s.log, th);
    forall u | 0 <= u < |after.threads| && InTeardown(after.threads[u])
      ensures Count(after.assoc, after.threads[u].img) == 0
    {
      if u != t {
        AloneUnderWla(s, t, u);
      }
    }
  }

  lemma MergeLowersCounts(s: State, t: nat)
    requires Reachable(s) && Enabled(s, t) && AtMerge(s.threads[t])
    ensures forall img :: Count(Step(s, t, false).assoc, img) <= Count(s.assoc, img)
  {
    MergeEffect(s, t);
    var after, fromFile := Step(s, t, false).assoc, Decode(s.threads[t].read);
    forall img ensures Count(after, img) <= Count(s.assoc, img) {
      assert img in fromFile || img !in fromFile;
    }
  }

  lemma MergeStep(s: State, t: nat, coin: bool)
    requires Reachable(s) && Enabled(s, t) && AtMerge(s.threads[t])
    ensures TornDownUncounted(Step(s, t, coin))
    ensures forall img :: Count(Step(s, t, coin).assoc, img) <= Count(s.assoc, img)
  {
    ReachableInv(s);
    MergeLowersCounts(s, t);
    var th, after := s.threads[t], Step(s, t, coin);
    assert after == Step(s, t, false);
    assert ThreadOk(s.base, s.log, th);
    assert Disciplined(th.mode, Then(MergeFile, th.code.next));
    forall u | 0 <= u < |after.threads| ensures !InTeardown(after.threads[u]) {
      if u != t {
        AloneUnderWla(s, t, u);
      }
    }
  }

  /** What a Stop unmounts is not counted. */
  lemma UnmountStep(w: World, a: Action)
    requires Inv(w.state) && TornDownUncounted(w.state)
    ensures forall img | img in Unmounted(w.state, a) :: Count(w.state.assoc, img) == 0
  {
    if Unmounted(w.state, a) != {} {
      var th := w.state.threads[a.t];
      assert ThreadOk(w.state.base, w.state.log, th);
      assert Disciplined(th.mode, Then(UnmountImage, th.code.next));
      assert InTeardown(th);
    }
  }

  lemma TickKeepsUp(w: World, t: nat, coin: bool)
    requires Reachable(w.state) && CountedUp(w) && TornDownUncounted(w.state)
    requires Enabled(w.state, t) && Orderly(w, Tick(t, coin))
    ensures TornDownUncounted(Step(w.state, t, coin))
    ensures forall img | Count(Step(w.state, t, coin).assoc, img) > 0 :: img in w.up
  {
    var s := w.state;
    var th := s.threads[t];
    ReachableInv(s);
    if th.code.Branch? || EventOf(th) == [] {
      QuietStep(s, t, coin);
    } else if th.code.act.CreateCommit? {
      CreateStep(s, t, coin);
    } else if th.code.act.DeleteCommit? {
      DeleteStep(s, t, coin);
    } else {
      MergeStep(s, t, coin);
    }
  }

  lemma SpawnKeepsUp(s: State, c: Call)
    requires TornDownUncounted(s)
    ensures TornDownUncounted(Next(s, Spawn(c)))
  {
    var after := Next(s, Spawn(c));
    forall t | 0 <= t < |after.threads| && InTeardown(after.threads[t])
      ensures Count(after.assoc, after.threads[t].img) == 0
    {
      assert t < |s.threads| ==> after.threads[t] == s.threads[t];
    }
  }

  lemma MoveKeepsUp(w: World, m: Move)
    requires Reachable(w.state) && AllUp(w) && Orderly(w, m.action)
    ensures AllUp(Played(w, m))
  {
    ReachableInv(w.state);
    UnmountStep(w, m.action);
    match m.action
    case Spawn(c) => SpawnKeepsUp(w.state, c);
    case Tick(t, coin) =>
      if Enabled(w.state, t) {
        TickKeepsUp(w, t, coin);
        UnmountCountsNothing(w.state, t, coin);
      }
  }

  /** An unmount changes no count. */
  lemma UnmountCountsNothing(s: State, t: nat, coin: bool)
    requires Enabled(s, t)
    ensures Unmounted(s, Tick(t, coin)) != {} ==> Step(s, t, coin).assoc == s.assoc
  {
  }

  // ----- runs -----

  function Actions(moves: seq<Move>): seq<Action> {
    if moves == [] then [] else Actions(moves[..|moves| - 1]) + [moves[|moves| - 1].action]
  }

  lemma {:induction false} WorldsAreReachable(file: Content, up: set<string>, moves: seq<Move>)
    requires TableOk(Decode(file))
    ensures WorldAfter(World(Boot(file), up), moves).state == Run(Boot(file), Actions(moves))
    ensures Reachable(WorldAfter(World(Boot(file), up), moves).state)
  {
    if moves != [] {
      var init := moves[..|moves| - 1];
      WorldsAreReachable(file, up, init);
      assert Actions(moves)[..|Actions(init)|] == Actions(init);
    }
    assert WorldAfter(World(Boot(file), up), moves).state == Run(Boot(file), Actions(moves));
  }

  lemma StartIsUp(file: Content, up: set<string>)
    requires forall img | Count(Decode(file), img) > 0 :: img in up
    ensures AllUp(World(Boot(file), up))
  {
    assert Merged(map[], Decode(file)) == Decode(file);
  }

  lemma {:induction false} OrderlyInit(w: World, moves: seq<Move>)
    requires moves != [] && OrderlyRun(w, moves)
    ensures var init := moves[..|moves| - 1];
      OrderlyRun(w, init) && Orderly(WorldAfter(w, init), moves[|init|].action)
  {
    var init := moves[..|moves| - 1];
    forall k | 0 <= k < |init| ensures init[..k] == moves[..k] && init[k] == moves[k] {}
  }

  lemma {:induction false} OrderlyRunsStayUp(file: Content, up: set<string>, moves: seq<Move>)
    requires TableOk(Decode(file)) && AllUp(World(Boot(file), up)) && OrderlyRun(World(Boot(file), up), moves)
    ensures AllUp(WorldAfter(World(Boot(file), up), moves))
  {
    if moves != [] {
      var start := World(Boot(file), up);
      var init, last := moves[..|moves| - 1], moves[|moves| - 1];
      OrderlyInit(start, moves);
      OrderlyRunsStayUp(file, up, init);
      WorldsAreReachable(file, up, init);
      MoveKeepsUp(WorldAfter(start, init), last);
      WorldStep(start, moves);
    }
  }

  lemma {:induction false} WorldStep(w: World, moves: seq<Move>)
    requires moves != []
    ensures WorldAfter(w, moves) == Played(WorldAfter(w, moves[..|moves| - 1]), moves[|moves| - 1])
  {
  }

  /**
   In every interleaved run, with any mounting by Prepares: if each Start commits while
   its image is mounted and no Stop of that image is between its last-VM verdict and the
   end of its teardown, then in every state every counted image is mounted.
   */
  lemma {:induction false} CountedImagesAreMounted(file: Content, up: set<string>, moves: seq<Move>)
    requires TableOk(Decode(file)) && forall img | Count(Decode(file), img) > 0 :: img in up
    requires OrderlyRun(World(Boot(file), up), moves)
    ensures CountedUp(WorldAfter(World(Boot(file), up), moves))
    ensures TornDownUncounted(WorldAfter(World(Boot(file), up), moves).state)
  {
    StartIsUp(file, up);
    OrderlyRunsStayUp(file, up, moves);
  }
}
