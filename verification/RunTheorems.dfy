/**
 What holds of every interleaved run: the count at a teardown, the association file
 against the table, the lazy reload, and the locks.
 */
module RunTheorems {
  import opened Common
  import opened Association
  import opened History
  import opened Calls
  import opened Interleaving

  // ----- Stop -----

  predicate TearingDown(th: Thread) {
    th.code.Then? && th.code.act in {UnmountImage, CloseImage}
  }

  lemma {:induction false} LastDelete(base: Table, log: seq<Event>, th: Thread)
    requires RulingOk(base, log, th) && th.mode.ruling == Found(Last)
    ensures Count(Replay(base, log[..th.deletedAt]), th.img) == 0
  {
    var met := log[..th.deletedAt - 1];
    assert log[..th.deletedAt] == met + [DeleteE(th.img)];
    ReplayAppend(base, met, DeleteE(th.img));
  }

  /**
   When a Stop unmounts or closes the image, its own Delete took the count from one
   to zero, no other Delete and no reload has been committed since, and the count is
   exactly the number of Start commits for the image that slipped in behind it.
   */
  lemma CountAtTeardown(s: State, t: nat)
    requires Reachable(s) && t < |s.threads| && TearingDown(s.threads[t])
    ensures var th := s.threads[t];
      && 1 <= th.deletedAt <= |s.log|
      && s.log[th.deletedAt - 1] == DeleteE(th.img)
      && Count(Replay(s.base, s.log[..th.deletedAt - 1]), th.img) == 1
      && Quiet(s.log[th.deletedAt..])
      && Count(s.assoc, th.img) == Creates(s.log[th.deletedAt..], th.img)
  {
    ReachableInv(s);
    var th := s.threads[t];
    assert ThreadOk(s.base, s.log, th);
    assert Disciplined(th.mode, Then(th.code.act, th.code.next));
    LastDelete(s.base, s.log, th);
    ReplaySplit(s.base, s.log, th.deletedAt);
    QuietCount(Replay(s.base, s.log[..th.deletedAt]), s.log[th.deletedAt..], th.img);
  }

  /**
   Stop's test for the empty path: it is taken exactly when Delete met no live
   association; otherwise the path is the stored one, under the mount directory.
   */
  lemma EmptyPathInStop(s: State, t: nat)
    requires Reachable(s) && t < |s.threads| && s.threads[t].code.Branch? && s.threads[t].code.test == PathEmpty
    ensures var th := s.threads[t];
      && 1 <= th.deletedAt <= |s.log|
      && var met := Replay(s.base, s.log[..th.deletedAt - 1]);
      && (th.path == "" <==> Count(met, th.img) <= 0)
      && (th.path != "" ==> th.path == PathOf(met, th.img) && HasPrefix(th.path, MOUNT_PATH))
  {
    ReachableInv(s);
    var th := s.threads[t];
    assert ThreadOk(s.base, s.log, th);
    assert Disciplined(th.mode, Branch(PathEmpty, th.code.yes, th.code.no));
    EmptyPathMeansMiss(s.base, s.log, th);
    ReplayOk(s.base, s.log[..th.deletedAt - 1]);
  }

  // ----- the association file -----

  /**
   In every state the file is empty or encodes the table of one moment of the run,
   no older than the commit of the call that wrote it; it is empty only if nothing
   was ever written, a save failed, or a writer that holds MapMtx is between its
   truncation and its write.
   */
  lemma FileIsASnapshot(s: State)
    requires Reachable(s)
    ensures s.writerAt <= s.fileAt <= |s.log|
    ensures s.file == Blank || s.file == Encoded(Replay(s.base, s.log[..s.fileAt]))
    ensures s.file == Blank && s.touched && !s.failed ==>
      exists t :: 0 <= t < |s.threads| && s.threads[t].mode.stage == Truncated && s.threads[t].mode.Holds(MapMtx)
  {
    ReachableInv(s);
    if s.file == Blank && s.touched && !s.failed {
      var t :| 0 <= t < |s.threads| && s.threads[t].mode.stage == Truncated;
      assert ThreadOk(s.base, s.log, s.threads[t]);
    }
  }

  /** Creates minus successful deletes since the snapshot that was written last, minus what reloads took back. */
  function Drift(s: State, img: string): int
    requires s.file.Encoded? && s.fileAt <= |s.log|
  {
    var since, shown := s.log[s.fileAt..], s.file.table;
    Creates(since, img) - Removals(shown, since, img) - TakenBack(shown, since, img)
  }

  /**
   The drift of the file, in every reachable state: memory and file differ, image by
   image, by exactly the creates and the successful deletes committed after the snapshot
   that was written last and by what reloads took back since. They agree on the image if
   and only if these cancel out.
   */
  lemma FileDrift(s: State, img: string)
    requires Reachable(s) && s.file.Encoded?
    ensures s.fileAt <= |s.log| && Count(s.assoc, img) - Count(s.file.table, img) == Drift(s, img)
  {
    ReachableInv(s);
    Balance(s.base, s.log, s.fileAt, img);
  }

  /**
   A restart in any reachable state: an empty file loses every count, and a written one
   loses, or gains, exactly its drift.
   */
  lemma RestartLosesTheDrift(s: State, img: string)
    requires Reachable(s)
    ensures s.file == Blank ==> Boot(s.file).assoc == map[]
    ensures s.file.Encoded? ==>
      s.fileAt <= |s.log| && Count(Boot(s.file).assoc, img) == Count(s.assoc, img) - Drift(s, img)
  {
    if s.file.Encoded? {
      FileDrift(s, img);
      assert Merged(map[], s.file.table) == s.file.table;
    }
  }

  lemma EmptyTableEmptyFileInv(s: State)
    requires Inv(s) && s.assoc == map[]
    ensures Decode(s.file) == map[]
  {
    if s.file.Encoded? {
      ImagesAreKept(s.base, s.log, s.fileAt);
      assert s.file.table.Keys == {};
    }
  }

  /** An empty table means an empty file: the table never becomes empty again, and the file only shows its past. */
  lemma EmptyTableEmptyFile(s: State)
    requires Reachable(s) && s.assoc == map[]
    ensures Decode(s.file) == map[]
  {
    ReachableInv(s);
    EmptyTableEmptyFileInv(s);
  }

  // ----- runs in which saving calls do not overlap -----

  predicate Busy(th: Thread) {
    th.mode.stage != Idle
  }

  /** At most one call is between its commit (or its emptiness test) and the end of its save (or merge). */
  ghost predicate Solo(s: State) {
    forall t, u | 0 <= t < |s.threads| && 0 <= u < |s.threads| && Busy(s.threads[t]) && Busy(s.threads[u]) :: t == u
  }

  ghost predicate SoloRun(s: State, actions: seq<Action>) {
    forall k | 0 <= k <= |actions| :: Solo(Run(s, actions[..k]))
  }

  ghost predicate ThreadSynced(s: State, th: Thread) {
    && (th.mode.stage == Reloading ==> s.assoc == map[] && Decode(s.file) == map[] && Decode(th.read) == map[])
    && (th.mode.stage in {Saving, Truncated} && th.mode.recent ==> th.snap == s.assoc)
  }

  ghost predicate Synced(s: State) {
    && (forall t | 0 <= t < |s.threads| :: ThreadSynced(s, s.threads[t]))
    && ((forall t | 0 <= t < |s.threads| :: !Busy(s.threads[t])) ==> Decode(s.file) == s.assoc)
  }

  lemma SyncedBranch(s: State, t: nat, coin: bool)
    requires Synced(s) && Enabled(s, t) && s.threads[t].code.Branch? && Solo(Step(s, t, coin))
    requires s.assoc == map[] ==> Decode(s.file) == map[]
    ensures Synced(Step(s, t, coin))
  {
    var th, after := s.threads[t], Step(s, t, coin);
    assert ThreadSynced(s, th);
    forall u | 0 <= u < |after.threads| ensures ThreadSynced(after, after.threads[u]) {
      assert u != t ==> ThreadSynced(s, s.threads[u]) && after.threads[u] == s.threads[u];
    }
    if forall u | 0 <= u < |after.threads| :: !Busy(after.threads[u]) {
      assert !Busy(after.threads[t]);
      forall u | 0 <= u < |s.threads| ensures !Busy(s.threads[u]) {
        assert u != t ==> after.threads[u] == s.threads[u];
      }
    }
  }

  /** Acts that leave the table, the file and the actor's stage alone. */
  lemma SyncedNeutral(s: State, t: nat)
    requires Synced(s) && Enabled(s, t) && s.threads[t].code.Then?
    requires var th := s.threads[t];
      && Effect(s, th).assoc == s.assoc && Effect(s, th).file == s.file
      && Moved(s, th).mode.stage == th.mode.stage && ThreadSynced(s, Moved(s, th))
    ensures Synced(Step(s, t, false))
  {
    var th, after := s.threads[t], Step(s, t, false);
    forall u | 0 <= u < |after.threads| ensures ThreadSynced(after, after.threads[u]) {
      assert u != t ==> ThreadSynced(s, s.threads[u]) && after.threads[u] == s.threads[u];
    }
    if forall u | 0 <= u < |after.threads| :: !Busy(after.threads[u]) {
      assert !Busy(after.threads[t]);
      forall u | 0 <= u < |s.threads| ensures !Busy(s.threads[u]) {
        assert u != t ==> after.threads[u] == s.threads[u];
      }
    }
  }

  /** Acts after which, or before which, the actor is the one busy call. */
  lemma SyncedBusy(s: State, t: nat)
    requires Synced(s) && Solo(s) && Enabled(s, t) && s.threads[t].code.Then?
    requires var after := Step(s, t, false); Solo(after) && (Busy(s.threads[t]) || Busy(after.threads[t]))
    requires var after := Step(s, t, false);
      ThreadSynced(after, after.threads[t]) && (!Busy(after.threads[t]) ==> Decode(after.file) == after.assoc)
    ensures Synced(Step(s, t, false))
  {
    var after := Step(s, t, false);
    forall u | 0 <= u < |after.threads| ensures ThreadSynced(after, after.threads[u]) {
      if u != t {
        assert after.threads[u] == s.threads[u];
        assert !Busy(after.threads[u]);
      }
    }
  }

  predicate SaveOrReload(act: Act) {
    act.CreateCommit? || act in {Marshal, Truncate, WriteBytes, ReadFile, MergeFile, ReloadFailed}
  }

  lemma SyncedSaveOrReload(s: State, t: nat)
    requires Synced(s) && Solo(s) && Enabled(s, t) && s.threads[t].code.Then?
    requires Solo(Step(s, t, false)) && SaveOrReload(s.threads[t].code.act)
    requires Allowed(s.threads[t].mode, s.threads[t].code.act)
    ensures Synced(Step(s, t, false))
  {
    var th, after := s.threads[t], Step(s, t, false);
    assert ThreadSynced(s, th);
    assert after.threads[t] == Moved(s, th);
    if th.code.act == MergeFile {
      assert Merged(s.assoc, Decode(th.read)) == s.assoc;
    }
    SyncedBusy(s, t);
  }

  lemma SyncedDelete(s: State, t: nat)
    requires Synced(s) && Solo(s) && Enabled(s, t) && s.threads[t].code.Then?
    requires Solo(Step(s, t, false)) && s.threads[t].code.act.DeleteCommit?
    requires Allowed(s.threads[t].mode, s.threads[t].code.act)
    ensures Synced(Step(s, t, false))
  {
    var th := s.threads[t];
    if Judge(s.assoc, th.code.act.img) == Missing {
      assert Deleted(s.assoc, th.code.act.img) == s.assoc;
      SyncedNeutral(s, t);
    } else {
      SyncedBusy(s, t);
    }
  }

  lemma SyncedAct(s: State, t: nat)
    requires Synced(s) && Solo(s) && Enabled(s, t) && s.threads[t].code.Then?
    requires Solo(Step(s, t, false)) && !Step(s, t, false).failed
    requires Allowed(s.threads[t].mode, s.threads[t].code.act)
    ensures Synced(Step(s, t, false))
  {
    var th := s.threads[t];
    if SaveOrReload(th.code.act) {
      SyncedSaveOrReload(s, t);
    } else if th.code.act.DeleteCommit? {
      SyncedDelete(s, t);
    } else {
      assert ThreadSynced(s, th);
      SyncedNeutral(s, t);
    }
  }

  lemma SyncedStep(s: State, t: nat, coin: bool)
    requires Inv(s) && Synced(s) && Solo(s) && Enabled(s, t)
    requires Solo(Step(s, t, coin)) && !Step(s, t, coin).failed
    ensures Synced(Step(s, t, coin))
  {
    assert ThreadOk(s.base, s.log, s.threads[t]);
    if s.threads[t].code.Branch? {
      if s.assoc == map[] {
        EmptyTableEmptyFileInv(s);
      }
      SyncedBranch(s, t, coin);
    } else {
      assert Step(s, t, coin) == Step(s, t, false);
      SyncedAct(s, t);
    }
  }

  lemma {:induction false} SoloInit(s: State, actions: seq<Action>)
    requires actions != [] && SoloRun(s, actions)
    ensures SoloRun(s, actions[..|actions| - 1]) && Solo(Run(s, actions[..|actions| - 1])) && Solo(Run(s, actions))
  {
    var init := actions[..|actions| - 1];
    forall k | 0 <= k <= |init| ensures init[..k] == actions[..k] {}
    assert actions[..|init|] == init && actions[..|actions|] == actions;
  }

  lemma {:induction false} SoloRunStaysSynced(file: Content, actions: seq<Action>)
    requires TableOk(Decode(file)) && SoloRun(Boot(file), actions) && !Run(Boot(file), actions).failed
    ensures Synced(Run(Boot(file), actions))
  {
    if actions != [] {
      var init := actions[..|actions| - 1];
      var before := Run(Boot(file), init);
      SoloInit(Boot(file), actions);
      if before.failed {
        FailedStays(before, actions[|actions| - 1]);
      }
      SoloRunStaysSynced(file, init);
      EveryRunKeepsInv(file, init);
      SyncedNext(before, actions[|actions| - 1]);
    }
  }

  /** That a save has failed is not forgotten. */
  lemma FailedStays(s: State, a: Action)
    requires s.failed
    ensures Next(s, a).failed
  {
  }

  lemma SyncedNext(s: State, a: Action)
    requires Inv(s) && Synced(s) && Solo(s) && Solo(Next(s, a)) && !Next(s, a).failed
    ensures Synced(Next(s, a))
  {
    match a
    case Spawn(c) => SyncedSpawn(s, c);
    case Tick(t, coin) =>
      if Enabled(s, t) {
        SyncedStep(s, t, coin);
      }
  }

  lemma SyncedSpawn(s: State, c: Call)
    requires Synced(s)
    ensures Synced(Next(s, Spawn(c)))
  {
    var after := Next(s, Spawn(c));
    assert !Busy(after.threads[|s.threads|]);
    forall u | 0 <= u < |s.threads| ensures after.threads[u] == s.threads[u] && ThreadSynced(after, after.threads[u]) {
      assert ThreadSynced(s, s.threads[u]);
    }
    if forall u | 0 <= u < |after.threads| :: !Busy(after.threads[u]) {
      forall u | 0 <= u < |s.threads| ensures !Busy(s.threads[u]) {
        assert after.threads[u] == s.threads[u];
      }
    }
  }

  /**
   If no two saving or reloading calls overlap and no save fails, then whenever none
   of them is in progress the file is the table, and a restart restores the table.
   */
  lemma {:induction false} FileEqualsTableWithoutOverlap(file: Content, actions: seq<Action>)
    requires TableOk(Decode(file)) && SoloRun(Boot(file), actions)
    requires var s := Run(Boot(file), actions);
      !s.failed && forall t | 0 <= t < |s.threads| :: !Busy(s.threads[t])
    ensures var s := Run(Boot(file), actions);
      Decode(s.file) == s.assoc && Boot(s.file).assoc == s.assoc
  {
    SoloRunStaysSynced(file, actions);
    var s := Run(Boot(file), actions);
    assert Merged(map[], s.assoc) == s.assoc;
  }
}
