/**
 Three interleaved runs, step by step, each showing that a property fails when
 calls overlap: a teardown with a counted VM, a stale association file, and a
 reload that takes a count back.
 */
module Witnesses {
  import opened Common
  import opened Association
  import opened History
  import opened Calls
  import opened Interleaving

  // ----- driving one thread -----

  /** The state in which thread `t` is `th`. */
  function Put(s: State, t: nat, th: Thread): State
    requires t < |s.threads|
  {
    s.(threads := s.threads[t := th])
  }

  lemma Extend(s: State, a: Action)
    requires Reachable(s)
    ensures Reachable(Next(s, a))
  {
    var file, actions :| TableOk(Decode(file)) && s == Run(Boot(file), actions);
    assert (actions + [a])[..|actions|] == actions;
    assert Next(s, a) == Run(Boot(file), actions + [a]);
  }

  lemma Flip(s: State, t: nat, th: Thread, coin: bool) returns (moved: Thread)
    requires t < |s.threads| && Reachable(Put(s, t, th)) && th.code.Branch? && th.code.test == Chance
    ensures moved == th.(code := if coin then th.code.yes else th.code.no)
    ensures Reachable(Put(s, t, moved))
  {
    moved := th.(code := if coin then th.code.yes else th.code.no);
    Extend(Put(s, t, th), Tick(t, coin));
    assert Next(Put(s, t, th), Tick(t, coin)) == Put(s, t, moved);
  }

  lemma Check(s: State, t: nat, th: Thread) returns (moved: Thread)
    requires t < |s.threads| && Reachable(Put(s, t, th)) && th.code.Branch?
    ensures moved == Branched(s, th, true)
    ensures Reachable(Put(s, t, moved))
  {
    moved := Branched(s, th, true);
    Extend(Put(s, t, th), Tick(t, true));
    assert Next(Put(s, t, th), Tick(t, true)) == Put(s, t, moved);
  }

  lemma CommitPut(s: State, t: nat, th: Thread)
    requires t < |s.threads| && th.code.Then? && EventOf(th) != []
    ensures Effect(Put(s, t, th), th) == Put(Effect(s, th), t, th) && Effect(s, th).threads == s.threads
  {
  }

  predicate TouchesFile(act: Act) {
    act in {Truncate, WriteBytes, SaveFailed}
  }

  lemma FilePut(s: State, t: nat, th: Thread)
    requires t < |s.threads| && th.code.Then? && TouchesFile(th.code.act)
    ensures Effect(Put(s, t, th), th) == Put(Effect(s, th), t, th) && Effect(s, th).threads == s.threads
  {
  }

  lemma NoEffect(s: State, th: Thread)
    requires th.code.Then? && EventOf(th) == [] && !TouchesFile(th.code.act)
    ensures Effect(s, th) == s
  {
  }

  lemma EffectPut(s: State, t: nat, th: Thread)
    requires t < |s.threads| && th.code.Then?
    ensures Effect(Put(s, t, th), th) == Put(Effect(s, th), t, th)
    ensures Effect(s, th).threads == s.threads
  {
    if EventOf(th) != [] {
      CommitPut(s, t, th);
    } else if TouchesFile(th.code.act) {
      FilePut(s, t, th);
    } else {
      NoEffect(s, th);
      NoEffect(Put(s, t, th), th);
    }
  }

  lemma MovedPut(s: State, t: nat, th: Thread)
    requires t < |s.threads| && th.code.Then?
    ensures Moved(Put(s, t, th), th) == Moved(s, th)
  {
  }

  lemma Act(s: State, t: nat, th: Thread) returns (after: State, moved: Thread)
    requires t < |s.threads| && Reachable(Put(s, t, th)) && th.code.Then?
    requires CanTake(s.threads[t := th], th.code.act)
    ensures after == Effect(s, th) && moved == Moved(s, th) && after.threads == s.threads
    ensures Reachable(Put(after, t, moved))
  {
    after, moved := Effect(s, th), Moved(s, th);
    var now := Put(s, t, th);
    Extend(now, Tick(t, true));
    EffectPut(s, t, th);
    MovedPut(s, t, th);
    assert Step(now, t, true) == Effect(now, th).(threads := now.threads[t := moved]);
    assert s.threads[t := th][t := moved] == s.threads[t := moved];
  }

  /** Nobody but `t` holds the table's mutex. */
  predicate MapFree(threads: seq<Thread>, t: nat) {
    forall u | 0 <= u < |threads| && u != t :: !threads[u].mode.Holds(MapMtx) && ReadMap !in threads[u].mode.held
  }

  /** From the lock to the unlock around the commit of a Create. */
  lemma CreateCommits(img: string, path: string, s: State, t: nat, th: Thread, k: Prog)
    returns (after: State, moved: Thread)
    requires t < |s.threads| && Reachable(Put(s, t, th)) && MapFree(s.threads, t)
    requires th.mode == INITIAL && th.code == Create(img, path, k)
    ensures after == s.(assoc := Created(s.assoc, img, path), log := s.log + [CreateE(img, path)])
    ensures moved == th.(mode := INITIAL.(stage := Saving), code := Save(k, k), committedAt := |s.log| + 1)
    ensures Reachable(Put(after, t, moved))
  {
    after, moved := Act(s, t, th);
    after, moved := Act(after, t, moved);
    after, moved := Act(after, t, moved);
    assert INITIAL.held + {Excl(MapMtx)} - {Excl(MapMtx)} == INITIAL.held;
  }

  lemma Marshals(s: State, t: nat, th: Thread, k: Prog) returns (moved: Thread)
    requires t < |s.threads| && Reachable(Put(s, t, th))
    requires th.code == Save(k, k)
    ensures moved == th.(
      mode := th.mode.(recent := true), snap := s.assoc, snapAt := |s.log|,
      code := Branch(Chance, Then(Acquire(MapMtx), WriteFile(k, k)), Then(SaveFailed, k)))
    ensures Reachable(Put(s, t, moved))
  {
    moved := Flip(s, t, th, true);
    var after;
    after, moved := Act(s, t, moved);
  }

  lemma WritesLocked(s: State, t: nat, th: Thread, k: Prog) returns (after: State, moved: Thread)
    requires t < |s.threads| && Reachable(Put(s, t, th)) && th.code == WriteFile(k, k)
    ensures after == s.(file := Encoded(th.snap), fileAt := th.snapAt, writerAt := th.committedAt, touched := true)
    ensures moved == th.(mode := th.mode.(stage := Idle), code := Then(Release(MapMtx), k))
    ensures Reachable(Put(after, t, moved))
  {
    moved := Flip(s, t, th, true);
    after, moved := Act(s, t, moved);
    moved := Flip(after, t, moved, true);
    after, moved := Act(after, t, moved);
  }

  lemma Writes(s: State, t: nat, th: Thread, k: Prog) returns (after: State, moved: Thread)
    requires t < |s.threads| && Reachable(Put(s, t, th)) && MapFree(s.threads, t)
    requires th.mode.AtTop()
    requires th.code == Branch(Chance, Then(Acquire(MapMtx), WriteFile(k, k)), Then(SaveFailed, k))
    ensures after == s.(file := Encoded(th.snap), fileAt := th.snapAt, writerAt := th.committedAt, touched := true)
    ensures moved == th.(mode := th.mode.(stage := Idle), code := k)
    ensures Reachable(Put(after, t, moved))
  {
    moved := Flip(s, t, th, true);
    after, moved := Act(s, t, moved);
    after, moved := WritesLocked(after, t, moved, k);
    after, moved := Act(after, t, moved);
    assert th.mode.held + {Excl(MapMtx)} - {Excl(MapMtx)} == th.mode.held;
  }

  lemma Spawns(s: State, c: Call) returns (after: State)
    requires Reachable(s)
    ensures Reachable(after) && after == s.(threads := s.threads + [NewThread(s, c)])
  {
    after := Next(s, Spawn(c));
    Extend(s, Spawn(c));
  }

  /** A Start call from its beginning to the snapshot of its save. */
  lemma StartUpToSnapshot(img: string, path: string, s: State, t: nat) returns (after: State)
    requires HasPrefix(path, MOUNT_PATH)
    requires Reachable(s) && t < |s.threads| && MapFree(s.threads, t)
    requires s.threads[t] == NewThread(s, StartCall(img, path))
    ensures Reachable(after)
    ensures |after.threads| == |s.threads|
    ensures forall u | 0 <= u < |s.threads| && u != t :: after.threads[u] == s.threads[u]
    ensures var th := after.threads[t];
      && after == s.(assoc := Created(s.assoc, img, path), log := s.log + [CreateE(img, path)],
          threads := after.threads)
      && th.mode == INITIAL.(stage := Saving, recent := true)
      && th.snap == after.assoc && th.snapAt == |after.log|
      && th.code == Branch(Chance, Then(Acquire(MapMtx), WriteFile(Return, Return)), Then(SaveFailed, Return))
  {
    assert Put(s, t, s.threads[t]) == s;
    var th := Flip(s, t, s.threads[t], true);
    var mid;
    mid, th := CreateCommits(img, path, s, t, th, Return);
    th := Marshals(mid, t, th, Return);
    after := Put(mid, t, th);
  }

  /** The rest of that save. */
  lemma StartWrites(s: State, t: nat) returns (after: State)
    requires Reachable(s) && t < |s.threads| && MapFree(s.threads, t)
    requires s.threads[t].code
      == Branch(Chance, Then(Acquire(MapMtx), WriteFile(Return, Return)), Then(SaveFailed, Return))
    requires s.threads[t].mode == INITIAL.(stage := Saving, recent := true)
    ensures Reachable(after)
    ensures |after.threads| == |s.threads|
    ensures forall u | 0 <= u < |s.threads| && u != t :: after.threads[u] == s.threads[u]
    ensures after.threads[t].code == Return && after.threads[t].mode.held == {} && after.threads[t].mode.stage == Idle
    ensures var th := s.threads[t];
      after == s.(file := Encoded(th.snap), fileAt := th.snapAt, writerAt := th.committedAt, touched := true,
          threads := after.threads)
  {
    assert Put(s, t, s.threads[t]) == s;
    var mid, th := Writes(s, t, s.threads[t], Return);
    after := Put(mid, t, th);
  }

  /** Two Starts have committed and taken their snapshots; neither has written. */
  lemma SavesOverlap(img: string, path: string) returns (s: State)
    requires HasPrefix(path, MOUNT_PATH)
    ensures Reachable(s) && !s.failed && |s.threads| == 2 && Count(s.assoc, img) == 2
    ensures forall t | 0 <= t < 2 ::
      && s.threads[t].code == Branch(Chance, Then(Acquire(MapMtx), WriteFile(Return, Return)), Then(SaveFailed, Return))
      && s.threads[t].mode == INITIAL.(stage := Saving, recent := true)
    ensures Count(s.threads[0].snap, img) == 1
  {
    s := Boot(Blank);
    assert s == Run(s, []);
    s := Spawns(s, StartCall(img, path));
    s := StartUpToSnapshot(img, path, s, 0);
    s := Spawns(s, StartCall(img, path));
    s := StartUpToSnapshot(img, path, s, 1);
  }

  /**
   Two Starts whose saves overlap: both return, no save fails, and the file shows one
   VM where the table counts two. A restart would load the smaller count.
   */
  lemma OverlappingSavesLeaveTheFileStale(img: string, path: string) returns (s: State)
    requires HasPrefix(path, MOUNT_PATH)
    ensures Reachable(s) && !s.failed
    ensures forall th | th in s.threads :: th.code == Return
    ensures Count(s.assoc, img) == 2 && Count(Decode(s.file), img) == 1
  {
    s := SavesOverlap(img, path);
    s := StartWrites(s, 1);
    s := StartWrites(s, 0);
  }

  // ----- Prepare -----

  /** Prepare runs up to its emptiness test, which succeeds. */
  lemma PrepareTestsEmpty(img: string, s: State, t: nat) returns (after: State)
    requires Reachable(s) && t < |s.threads| && s.assoc == map[]
    requires s.threads[t] == NewThread(s, PrepareCall(img))
    requires forall u | 0 <= u < |s.threads| :: !s.threads[u].mode.Holds(WlaMtx)
    ensures Reachable(after)
    ensures |after.threads| == |s.threads|
    ensures forall u | 0 <= u < |s.threads| && u != t :: after.threads[u] == s.threads[u]
    ensures after == s.(threads := after.threads)
    ensures after.threads[t].code == Reload(LookUp(PrepareVolumes()))
    ensures after.threads[t].mode == INITIAL.(held := {Excl(WlaMtx)}, stage := Reloading)
  {
    var th := s.threads[t];
    assert Put(s, t, th) == s;
    var mid;
    mid, th := Act(s, t, th);
    assert th.mode == INITIAL.(held := {Excl(WlaMtx)});
    th := Flip(mid, t, th, true);
    th := Flip(mid, t, th, false);
    th := Check(mid, t, th);
    after := Put(mid, t, th);
  }

  lemma PrepareOpens(s: State, t: nat, k: Prog) returns (th: Thread)
    requires Reachable(s) && t < |s.threads| && MapFree(s.threads, t)
    requires s.threads[t].code == Reload(k) && s.threads[t].mode == INITIAL.(held := {Excl(WlaMtx)}, stage := Reloading)
    ensures th.mode == s.threads[t].mode
    ensures th.code == Branch(Chance,
      Then(ReadFile, Branch(Chance, Then(MergeFile, k), Then(ReloadFailed, Leave()))), Then(ReloadFailed, Leave()))
    ensures Reachable(Put(s, t, th))
  {
    assert Put(s, t, s.threads[t]) == s;
    var same;
    same, th := Act(s, t, s.threads[t]);
    same, th := Act(s, t, th);
    same, th := Act(s, t, th);
    assert s.threads[t].mode.held + {ReadMap} - {ReadMap} == s.threads[t].mode.held;
  }

  lemma PrepareMerges(s: State, t: nat, th: Thread, k: Prog) returns (after: State, moved: Thread)
    requires t < |s.threads| && Reachable(Put(s, t, th)) && s.file.Encoded?
    requires th.code == Branch(Chance,
      Then(ReadFile, Branch(Chance, Then(MergeFile, k), Then(ReloadFailed, Leave()))), Then(ReloadFailed, Leave()))
    ensures after == s.(assoc := Merged(s.assoc, s.file.table), log := s.log + [MergeE(s.file.table)])
    ensures Reachable(Put(after, t, moved))
  {
    moved := Flip(s, t, th, true);
    moved := ReadsFile(s, t, moved);
    moved := Flip(s, t, moved, true);
    after, moved := MergesRead(s, t, moved);
  }

  lemma MergesRead(s: State, t: nat, th: Thread) returns (after: State, moved: Thread)
    requires t < |s.threads| && Reachable(Put(s, t, th)) && th.code.Then? && th.code.act == MergeFile
    requires s.file.Encoded? && th.read == s.file
    ensures after == s.(assoc := Merged(s.assoc, s.file.table), log := s.log + [MergeE(s.file.table)])
    ensures Reachable(Put(after, t, moved))
  {
    after, moved := Act(s, t, th);
  }

  lemma ReadsFile(s: State, t: nat, th: Thread) returns (moved: Thread)
    requires t < |s.threads| && Reachable(Put(s, t, th)) && th.code.Then? && th.code.act == ReadFile
    ensures moved.read == s.file && moved.code == th.code.next && Reachable(Put(s, t, moved))
  {
    var same;
    same, moved := Act(s, t, th);
  }

  /** Prepare has found the table empty; nothing else has happened. */
  lemma ReloadBegins(img: string) returns (s: State, k: Prog)
    ensures Reachable(s) && !s.failed && |s.threads| == 1 && s.assoc == map[] && s.log == []
    ensures s.threads[0].code == Reload(k)
    ensures s.threads[0].mode == INITIAL.(held := {Excl(WlaMtx)}, stage := Reloading)
  {
    s := Boot(Blank);
    assert s == Run(s, []);
    s := Spawns(s, PrepareCall(img));
    s := PrepareTestsEmpty(img, s, 0);
    k := LookUp(PrepareVolumes());
  }

  /** A whole Start call by a new thread, with a save that works. */
  lemma StartRuns(img: string, path: string, s: State) returns (after: State)
    requires HasPrefix(path, MOUNT_PATH) && Reachable(s) && MapFree(s.threads, |s.threads|)
    ensures Reachable(after) && after.failed == s.failed
    ensures |after.threads| == |s.threads| + 1 && forall u | 0 <= u < |s.threads| :: after.threads[u] == s.threads[u]
    ensures after.threads[|s.threads|].mode.held == {} && after.threads[|s.threads|].code == Return
    ensures after.assoc == Created(s.assoc, img, path) && after.log == s.log + [CreateE(img, path)]
    ensures after.file == Encoded(after.assoc)
  {
    after := Spawns(s, StartCall(img, path));
    after := StartUpToSnapshot(img, path, after, |s.threads|);
    after := StartWrites(after, |s.threads|);
  }

  /** Prepare has tested, the first Start has returned, the second has not begun. */
  lemma ReloadOverlapBegins(img: string, path: string) returns (s: State, k: Prog)
    requires HasPrefix(path, MOUNT_PATH)
    ensures Reachable(s) && !s.failed && |s.threads| == 3
    ensures s.assoc == map[img := Entry(path, 1)] && s.log == [CreateE(img, path)] && s.file == Encoded(s.assoc)
    ensures s.threads[0].code == Reload(k)
    ensures s.threads[0].mode == INITIAL.(held := {Excl(WlaMtx)}, stage := Reloading)
    ensures s.threads[1].mode.held == {} && s.threads[2] == NewThread(s, StartCall(img, path))
  {
    s, k := ReloadBegins(img);
    s := StartRuns(img, path, s);
    s := Spawns(s, StartCall(img, path));
  }

  /**
   A reload that overlaps two Starts: the merge takes the second Start's increment
   back, so two creates and no delete leave a count of one.
   */
  lemma OverlappingReloadLosesACount(img: string, path: string) returns (s: State)
    requires HasPrefix(path, MOUNT_PATH)
    ensures Reachable(s) && !s.failed
    ensures s.log == [CreateE(img, path), CreateE(img, path), MergeE(map[img := Entry(path, 1)])]
    ensures Count(s.assoc, img) == 1
  {
    var k;
    s, k := SecondStartCommits(img, path);
    s := PrepareReloads(s, k);
  }

  /** The second Start has committed behind Prepare's emptiness test; the file still shows the first one. */
  lemma SecondStartCommits(img: string, path: string) returns (s: State, k: Prog)
    requires HasPrefix(path, MOUNT_PATH)
    ensures Reachable(s) && !s.failed && 0 < |s.threads| && MapFree(s.threads, 0)
    ensures s.log == [CreateE(img, path), CreateE(img, path)] && s.assoc.Keys == {img}
    ensures s.file == Encoded(map[img := Entry(path, 1)])
    ensures s.threads[0].code == Reload(k)
    ensures s.threads[0].mode == INITIAL.(held := {Excl(WlaMtx)}, stage := Reloading)
  {
    var before;
    before, k := ReloadOverlapBegins(img, path);
    s := StartUpToSnapshot(img, path, before, 2);
    assert s.assoc == Created(before.assoc, img, path) && s.file == before.file && s.threads[0] == before.threads[0];
    assert s.threads[1] == before.threads[1] && s.threads[2].mode.held == {};
  }

  lemma PrepareReloads(s: State, k: Prog) returns (after: State)
    requires Reachable(s) && 0 < |s.threads| && MapFree(s.threads, 0) && s.file.Encoded?
    requires s.threads[0].code == Reload(k) && s.threads[0].mode == INITIAL.(held := {Excl(WlaMtx)}, stage := Reloading)
    ensures Reachable(after) && after.failed == s.failed
    ensures after.assoc == Merged(s.assoc, s.file.table) && after.log == s.log + [MergeE(s.file.table)]
  {
    var th := PrepareOpens(s, 0, k);
    var merged;
    merged, th := PrepareMerges(s, 0, th, k);
    after := Put(merged, 0, th);
  }

  // ----- Stop -----

  lemma StopDeletes(img: string, path: string, s: State, t: nat, th: Thread, k: Prog)
    returns (after: State, moved: Thread)
    requires t < |s.threads| && Reachable(Put(s, t, th)) && MapFree(s.threads, t)
    requires th.mode == INITIAL.(held := {Excl(WlaMtx)}) && th.code == Delete(img, k)
    requires img in s.assoc && s.assoc[img] == Entry(path, 1)
    ensures after == s.(assoc := Deleted(s.assoc, img), log := s.log + [DeleteE(img)])
    ensures moved.mode == th.mode.(ruling := Found(Last), stage := Saving)
    ensures moved.path == path && moved.img == img && moved.deletedAt == |after.log|
    ensures moved.code == Save(k, k)
    ensures Reachable(Put(after, t, moved))
  {
    after, moved := Act(s, t, th);
    assert th.mode.held + {Excl(MapMtx)} - {Excl(MapMtx)} == th.mode.held;
    after, moved := LastIsRuled(img, path, after, t, moved, k);
    after, moved := Act(after, t, moved);
  }

  /** The commit of Delete for the last VM, and the branch after it. */
  lemma LastIsRuled(img: string, path: string, s: State, t: nat, th: Thread, k: Prog)
    returns (after: State, moved: Thread)
    requires t < |s.threads| && Reachable(Put(s, t, th))
    requires th.code.Then? && th.code == Delete(img, k).next
    requires img in s.assoc && s.assoc[img] == Entry(path, 1)
    ensures after == s.(assoc := Deleted(s.assoc, img), log := s.log + [DeleteE(img)])
    ensures moved.mode == th.mode.(ruling := Found(Last), stage := Saving, recent := false)
    ensures moved.path == path && moved.img == img && moved.deletedAt == |after.log|
    ensures moved.code == Then(Release(MapMtx), Save(k, k))
    ensures Reachable(Put(after, t, moved))
  {
    after, moved := Act(s, t, th);
    moved := Check(after, t, moved);
  }

  lemma StopEnters(img: string, s: State, t: nat) returns (moved: Thread)
    requires Reachable(s) && t < |s.threads|
    requires s.threads[t] == NewThread(s, StopCall(img))
    requires forall u | 0 <= u < |s.threads| :: !s.threads[u].mode.Holds(WlaMtx)
    ensures moved == s.threads[t].(mode := INITIAL.(held := {Excl(WlaMtx)}), code := Delete(img, Decide()))
    ensures Reachable(Put(s, t, moved))
  {
    assert Put(s, t, s.threads[t]) == s;
    var after;
    after, moved := Act(s, t, s.threads[t]);
    assert moved.mode == INITIAL.(held := {Excl(WlaMtx)});
    moved := Flip(s, t, moved, true);
    moved := Flip(s, t, moved, false);
  }

  lemma StopDecides(img: string, path: string, s: State, t: nat, th: Thread) returns (moved: Thread)
    requires HasPrefix(path, MOUNT_PATH)
    requires t < |s.threads| && Reachable(Put(s, t, th)) && th.code == Decide()
    requires th.path == path && th.mode.ruling == Found(Last)
    requires !th.mode.Holds(TeardownMtx)
    requires forall u | 0 <= u < |s.threads| && u != t :: !s.threads[u].mode.Holds(TeardownMtx)
    ensures moved.code.Then? && moved.code.act == UnmountImage && moved.img == th.img && moved.deletedAt == th.deletedAt
    ensures moved.mode == th.mode.(held := th.mode.held + {Excl(TeardownMtx)})
    ensures Reachable(Put(s, t, moved))
  {
    moved := Check(s, t, th);
    moved := Check(s, t, moved);
    var after;
    after, moved := Act(s, t, moved);
  }

  /** One Start has returned; a Stop and a second Start have not begun. */
  lemma StopOverlapBegins(img: string, path: string) returns (s: State)
    requires HasPrefix(path, MOUNT_PATH)
    ensures Reachable(s) && |s.threads| == 3
    ensures s.assoc == map[img := Entry(path, 1)]
    ensures s.threads[0].mode.held == {} && s.threads[0].code == Return
    ensures s.threads[1] == NewThread(s, StopCall(img)) && s.threads[2] == NewThread(s, StartCall(img, path))
  {
    s := Boot(Blank);
    assert s == Run(s, []);
    s := StartRuns(img, path, s);
    s := Spawns(s, StopCall(img));
    s := Spawns(s, StartCall(img, path));
  }

  lemma StopSaves(img: string, path: string, s: State, t: nat, th: Thread) returns (after: State, moved: Thread)
    requires HasPrefix(path, MOUNT_PATH)
    requires t < |s.threads| && Reachable(Put(s, t, th)) && MapFree(s.threads, t)
    requires th.mode.held == {Excl(WlaMtx)} && th.mode.ruling == Found(Last) && th.path == path
    requires forall u | 0 <= u < |s.threads| && u != t :: !s.threads[u].mode.Holds(TeardownMtx)
    requires th.code == Save(Decide(), Decide())
    ensures after.threads == s.threads && after.assoc == s.assoc && after.base == s.base
    ensures moved.code.Then? && moved.code.act == UnmountImage && moved.img == th.img
    ensures moved.mode.held == {Excl(WlaMtx), Excl(TeardownMtx)}
    ensures Reachable(Put(after, t, moved))
  {
    moved := Marshals(s, t, th, Decide());
    after, moved := Writes(s, t, moved, Decide());
    moved := StopDecides(img, path, after, t, moved);
  }

  /** Delete, save, decision and the teardown mutex, for the last VM of the image. */
  lemma StopFinishes(img: string, path: string, s: State, t: nat, th: Thread) returns (after: State, moved: Thread)
    requires HasPrefix(path, MOUNT_PATH)
    requires t < |s.threads| && Reachable(Put(s, t, th))
    requires forall u | 0 <= u < |s.threads| && u != t :: s.threads[u].mode.held == {}
    requires th.mode == INITIAL.(held := {Excl(WlaMtx)}) && th.code == Delete(img, Decide())
    requires s.assoc == map[img := Entry(path, 1)]
    ensures after.threads == s.threads && after.assoc == map[img := Entry(path, 0)] && after.base == s.base
    ensures moved.code.Then? && moved.code.act == UnmountImage && moved.img == img
    ensures moved.mode.held == {Excl(WlaMtx), Excl(TeardownMtx)}
    ensures Reachable(Put(after, t, moved))
  {
    after, moved := StopDeletes(img, path, s, t, th, Decide());
    after, moved := StopSaves(img, path, after, t, moved);
  }

  /** The Stop is about to unmount the image; the second Start has not begun. */
  lemma StopAtTeardown(img: string, path: string) returns (s: State)
    requires HasPrefix(path, MOUNT_PATH)
    ensures Reachable(s) && |s.threads| == 3 && MapFree(s.threads, 2)
    ensures s.assoc == map[img := Entry(path, 0)]
    ensures s.threads[1].code.Then? && s.threads[1].code.act == UnmountImage && s.threads[1].img == img
    ensures s.threads[2] == NewThread(s, StartCall(img, path))
  {
    s := StopOverlapBegins(img, path);
    assert forall u | 0 <= u < 3 :: s.threads[u].mode.held == {};
    s := StopReachesTeardown(img, path, s, 1);
  }

  lemma StopReachesTeardown(img: string, path: string, s: State, t: nat) returns (after: State)
    requires HasPrefix(path, MOUNT_PATH)
    requires Reachable(s) && t < |s.threads| && s.threads[t] == NewThread(s, StopCall(img))
    requires forall u | 0 <= u < |s.threads| :: s.threads[u].mode.held == {}
    requires s.assoc == map[img := Entry(path, 1)]
    ensures Reachable(after) && after.assoc == map[img := Entry(path, 0)] && after.base == s.base
    ensures |after.threads| == |s.threads|
    ensures forall u | 0 <= u < |s.threads| && u != t :: after.threads[u] == s.threads[u]
    ensures var th := after.threads[t];
      th.code.Then? && th.code.act == UnmountImage && th.img == img && th.mode.held == {Excl(WlaMtx), Excl(TeardownMtx)}
  {
    var th := StopEnters(img, s, t);
    var torn;
    torn, th := StopFinishes(img, path, s, t, th);
    after := Put(torn, t, th);
  }

  /** A Start that commits behind a Stop's Delete: the image is torn down with a counted VM on it. */
  lemma TeardownWithACountedVm(img: string, path: string) returns (s: State)
    requires HasPrefix(path, MOUNT_PATH)
    ensures Reachable(s) && |s.threads| == 3
    ensures s.threads[1].code.Then? && s.threads[1].code.act == UnmountImage && s.threads[1].img == img
    ensures Enabled(s, 1)
    ensures Count(s.assoc, img) == 1
  {
    s := StopAtTeardown(img, path);
    s := StartUpToSnapshot(img, path, s, 2);
  }
}
