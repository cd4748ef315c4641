/**
 The lazy reload of the association file. Its emptiness test, read and merge are
 separate steps, and Start does not take wlaMtx: what exactly a merge does to the
 table, and the runs in which it does nothing.
 */
module ReloadTheorems {
  import opened Common
  import opened Association
  import opened History
  import opened Calls
  import opened Interleaving

  predicate AtMerge(th: Thread) {
    th.code.Then? && th.code.act == MergeFile
  }

  lemma {:induction false} EmptyBefore(base: Table, log: seq<Event>, j: nat, k: nat)
    requires j <= k <= |log| && Replay(base, log[..k]) == map[]
    ensures Replay(base, log[..j]) == map[]
  {
    assert log[..k][..j] == log[..j];
    ImagesAreKept(base, log[..k], j);
    assert Replay(base, log[..j]).Keys == {};
  }

  /** A file that is not empty was read after the test, so only creates separate it from the table. */
  lemma {:induction false} ReadIsRecent(base: Table, log: seq<Event>, th: Thread)
    requires ReloadOk(base, log, th) && th.readAt <= |log|
    requires Replay(base, log[..th.readAt]) != map[]
    ensures Quiet(log[th.readAt..])
  {
    if th.readAt <= th.testedAt {
      EmptyBefore(base, log, th.readAt, th.testedAt);
      assert false;
    } else {
      assert log[th.readAt..] == log[th.testedAt..][th.readAt - th.testedAt..];
    }
  }

  lemma {:induction false} MergeOverQuiet(base: Table, log: seq<Event>, k: nat, img: string)
    requires k <= |log| && Quiet(log[k..]) && img in Replay(base, log[..k])
    ensures var old_, now := Replay(base, log[..k]), Replay(base, log);
      && img in now && now[img].path == old_[img].path
      && now[img].count == old_[img].count + Creates(log[k..], img)
  {
    var suffix := log[k..];
    ReplaySplit(base, log, k);
    QuietIsIdle(Replay(base, log[..k]), suffix);
    IdleKeeps(Replay(base, log[..k]), suffix, img);
    PathIsKept(Replay(base, log[..k]), suffix, img);
    QuietCount(Replay(base, log[..k]), suffix, img);
  }

  /**
   A merge takes back exactly the creates that were committed after the snapshot it
   read: each image of the file loses them, every other image is untouched. It
   leaves the table alone if and only if there were none for any image of the file.
   */
  lemma MergeEffect(s: State, t: nat)
    requires Reachable(s) && Enabled(s, t) && AtMerge(s.threads[t])
    ensures var th := s.threads[t];
      var after := Step(s, t, false).assoc;
      var fromFile := Decode(th.read);
      && th.readAt <= |s.log|
      && after.Keys == s.assoc.Keys
      && (forall img | img in fromFile :: Count(after, img) == Count(s.assoc, img) - Creates(s.log[th.readAt..], img))
      && (forall img | img !in fromFile :: Count(after, img) == Count(s.assoc, img))
      && (after == s.assoc <==> forall img | img in fromFile :: Creates(s.log[th.readAt..], img) == 0)
  {
    ReachableInv(s);
    var th := s.threads[t];
    assert ThreadOk(s.base, s.log, th);
    assert Disciplined(th.mode, Then(MergeFile, th.code.next));
    var fromFile := Decode(th.read);
    var after := Merged(s.assoc, fromFile);
    assert Step(s, t, false).assoc == after;
    if fromFile != map[] {
      ReadIsRecent(s.base, s.log, th);
      forall img | img in fromFile
        ensures img in s.assoc && s.assoc[img].path == fromFile[img].path
        ensures s.assoc[img].count == fromFile[img].count + Creates(s.log[th.readAt..], img)
      {
        MergeOverQuiet(s.base, s.log, th.readAt, img);
      }
      if forall img | img in fromFile :: Creates(s.log[th.readAt..], img) == 0 {
        assert forall img | img in fromFile :: after[img] == s.assoc[img];
      }
    }
  }

  lemma MergeTakesBack(s: State, t: nat, img: string)
    requires Reachable(s) && Enabled(s, t) && AtMerge(s.threads[t])
    ensures Count(Merged(s.assoc, Decode(s.threads[t].read)), img) <= Count(s.assoc, img)
  {
    MergeEffect(s, t);
    assert img in Decode(s.threads[t].read) || img !in Decode(s.threads[t].read);
  }

  lemma {:induction false} CommitTakesBack(s: State, t: nat, img: string)
    requires Reachable(s) && Enabled(s, t) && s.threads[t].code.Then? && TakenBack(s.base, s.log, img) >= 0
    ensures TakenBack(s.base, s.log + EventOf(s.threads[t]), img) >= 0
  {
    var th := s.threads[t];
    ReachableInv(s);
    if EventOf(th) == [] {
      assert s.log + EventOf(th) == s.log;
    } else {
      TakenBackAppend(s.base, s.log, EventOf(th)[0], img);
      if AtMerge(th) {
        MergeTakesBack(s, t, img);
      }
    }
  }

  lemma StepLog(s: State, t: nat, coin: bool)
    requires Enabled(s, t)
    ensures Step(s, t, coin).log == if s.threads[t].code.Then? then s.log + EventOf(s.threads[t]) else s.log
  {
    assert s.log + [] == s.log;
  }

  /** A step other than a merge takes nothing back; a merge takes back creates only. */
  lemma {:induction false} StepTakesBack(s: State, t: nat, coin: bool, img: string)
    requires Reachable(s) && Enabled(s, t) && TakenBack(s.base, s.log, img) >= 0
    ensures TakenBack(s.base, Step(s, t, coin).log, img) >= 0
  {
    StepLog(s, t, coin);
    if s.threads[t].code.Then? {
      CommitTakesBack(s, t, img);
    }
  }

  /** In every run, what reloads do to a count is to take something back: they never add to it. */
  lemma {:induction false} ReloadsOnlyTakeBack(file: Content, actions: seq<Action>, img: string)
    requires TableOk(Decode(file))
    ensures var s := Run(Boot(file), actions); TakenBack(s.base, s.log, img) >= 0
  {
    if actions != [] {
      var init := actions[..|actions| - 1];
      var before := Run(Boot(file), init);
      ReloadsOnlyTakeBack(file, init, img);
      assert Reachable(before);
      match actions[|actions| - 1]
      case Spawn(c) =>
      case Tick(t, coin) =>
        if Enabled(before, t) {
          StepTakesBack(before, t, coin, img);
          BaseStays(before, Tick(t, coin));
        }
    }
  }

  // ----- what holds in every run -----

  /** A file that a reload has read was written after the emptiness test, so it leaves no image uncounted. */
  lemma {:induction false} ReadCounts(base: Table, log: seq<Event>, th: Thread, img: string)
    requires ReloadOk(base, log, th) && th.readAt <= |log|
    requires img in Replay(base, log[..th.readAt])
    ensures th.testedAt <= th.readAt && Replay(base, log[..th.readAt])[img].count >= 1
  {
    if th.readAt < th.testedAt {
      EmptyBefore(base, log, th.readAt, th.testedAt);
      assert false;
    } else {
      var upto := log[..th.readAt];
      ReplaySplit(base, upto, th.testedAt);
      assert upto[..th.testedAt] == log[..th.testedAt];
      assert upto[th.testedAt..] == log[th.testedAt..][..th.readAt - th.testedAt];
      QuietCounts(upto[th.testedAt..], img);
    }
  }

  /** A merge never brings an image in, changes a path, or takes a count to or from zero. */
  lemma MergeKeeps(s: State, t: nat, img: string)
    requires Reachable(s) && Enabled(s, t) && AtMerge(s.threads[t])
    ensures Keeps(s.assoc, Merged(s.assoc, Decode(s.threads[t].read)), img)
  {
    ReachableInv(s);
    var th := s.threads[t];
    assert ThreadOk(s.base, s.log, th);
    assert Disciplined(th.mode, Then(MergeFile, th.code.next));
    if img in Decode(th.read) {
      ReadIsRecent(s.base, s.log, th);
      MergeOverQuiet(s.base, s.log, th.readAt, img);
      ReadCounts(s.base, s.log, th, img);
    }
  }

  lemma {:induction false} CommitKeeps(s: State, t: nat, img: string)
    requires Reachable(s) && Enabled(s, t) && s.threads[t].code.Then? && MergesKeep(s.base, s.log, img)
    ensures MergesKeep(s.base, s.log + EventOf(s.threads[t]), img)
  {
    var th := s.threads[t];
    ReachableInv(s);
    if EventOf(th) == [] {
      assert s.log + EventOf(th) == s.log;
    } else {
      assert (s.log + EventOf(th))[..|s.log|] == s.log;
      ReplayAppend(s.base, s.log, EventOf(th)[0]);
      if AtMerge(th) {
        MergeKeeps(s, t, img);
      }
    }
  }

  lemma {:induction false} EveryRunMergesKeep(file: Content, actions: seq<Action>, img: string)
    requires TableOk(Decode(file))
    ensures var s := Run(Boot(file), actions); MergesKeep(s.base, s.log, img)
  {
    if actions != [] {
      var init := actions[..|actions| - 1];
      var before := Run(Boot(file), init);
      EveryRunMergesKeep(file, init, img);
      assert Reachable(before);
      match actions[|actions| - 1]
      case Spawn(c) =>
      case Tick(t, coin) =>
        if Enabled(before, t) {
          StepLog(before, t, coin);
          BaseStays(before, Tick(t, coin));
          if before.threads[t].code.Then? {
            CommitKeeps(before, t, img);
          }
        }
    }
  }

  /**
   Over every run, whatever overlaps: no count is ever negative, and last-VM decisions
   strictly alternate with the rises of the count from zero.
   */
  lemma {:induction false} DecisionsAlternateInEveryRun(file: Content, actions: seq<Action>, img: string)
    requires TableOk(Decode(file))
    ensures var s := Run(Boot(file), actions);
      && Count(s.assoc, img) >= 0
      && Ruled(s.base, s.log, img, Last) + (if Count(s.assoc, img) > 0 then 1 else 0)
           == Rises(s.base, s.log, img) + (if Count(Decode(file), img) > 0 then 1 else 0)
  {
    var s := Run(Boot(file), actions);
    EveryRunKeepsInv(file, actions);
    EveryRunMergesKeep(file, actions, img);
    BaseIsFile(file, actions);
    DecisionsAlternateWithRises(s.base, s.log, img);
    ReplayOk(s.base, s.log);
  }

  /** Over every run an image keeps the path of its first create, also when it is no longer counted. */
  lemma {:induction false} FirstPathInEveryRun(file: Content, actions: seq<Action>, k: nat, img: string)
    requires TableOk(Decode(file)) && img !in Decode(file)
    requires var log := Run(Boot(file), actions).log;
      k < |log| && log[k].CreateE? && log[k].img == img && Creates(log[..k], img) == 0
    ensures var s := Run(Boot(file), actions);
      img in s.assoc && s.assoc[img].path == s.log[k].path && HasPrefix(s.log[k].path, MOUNT_PATH)
  {
    var s := Run(Boot(file), actions);
    EveryRunKeepsInv(file, actions);
    EveryRunMergesKeep(file, actions, img);
    BaseIsFile(file, actions);
    FirstPathWins(s.base, s.log, k, img);
    assert s.log[k] in s.log;
  }

  /** Over every run a loaded image keeps the path of the file. */
  lemma {:induction false} LoadedPathInEveryRun(file: Content, actions: seq<Action>, img: string)
    requires TableOk(Decode(file)) && img in Decode(file)
    ensures var s := Run(Boot(file), actions);
      img in s.assoc && s.assoc[img].path == Decode(file)[img].path
  {
    var s := Run(Boot(file), actions);
    EveryRunKeepsInv(file, actions);
    EveryRunMergesKeep(file, actions, img);
    BaseIsFile(file, actions);
    PathIsKept(s.base, s.log, img);
  }

  /**
   Conservation over every run: the loaded count plus the creates minus the deletes that
   hit, minus what reloads took back, which is never negative.
   */
  lemma {:induction false} ConservationInEveryRun(file: Content, actions: seq<Action>, img: string)
    requires TableOk(Decode(file))
    ensures var s := Run(Boot(file), actions);
      && TakenBack(s.base, s.log, img) >= 0
      && Count(s.assoc, img)
           == Count(Decode(file), img) + Creates(s.log, img)
                - Removals(s.base, s.log, img) - TakenBack(s.base, s.log, img)
  {
    var s := Run(Boot(file), actions);
    EveryRunKeepsInv(file, actions);
    ReloadsOnlyTakeBack(file, actions, img);
    BaseIsFile(file, actions);
    ConservationWithMerges(s.base, s.log, img);
  }

  // ----- runs in which no Create commits during a reload -----

  /** No Create commits while a reload is between its emptiness test and its merge. */
  ghost predicate CalmStep(s: State, a: Action) {
    a.Tick? && Enabled(s, a.t) && s.threads[a.t].code.Then? && s.threads[a.t].code.act.CreateCommit? ==>
      forall t | 0 <= t < |s.threads| :: s.threads[t].mode.stage != Reloading
  }

  ghost predicate CalmRun(s: State, actions: seq<Action>) {
    forall k | 0 <= k < |actions| :: CalmStep(Run(s, actions[..k]), actions[k])
  }

  /** Reloading threads have seen the whole history. */
  ghost predicate ReloadsCurrent(s: State) {
    forall t | 0 <= t < |s.threads| && s.threads[t].mode.stage == Reloading :: s.threads[t].testedAt == |s.log|
  }

  lemma ReloaderHoldsWla(s: State, t: nat, u: nat)
    requires Inv(s) && t < |s.threads| && u < |s.threads| && t != u && s.threads[u].mode.stage == Reloading
    ensures !s.threads[t].mode.Holds(WlaMtx)
  {
    assert ThreadOk(s.base, s.log, s.threads[u]);
  }

  /** Without wlaMtx nothing but a create can be committed. */
  lemma NoCommitWithoutWla(s: State, t: nat, coin: bool)
    requires Enabled(s, t) && Disciplined(s.threads[t].mode, s.threads[t].code) && !s.threads[t].mode.Holds(WlaMtx)
    requires s.threads[t].code.Then? ==> !s.threads[t].code.act.CreateCommit?
    ensures Step(s, t, coin).log == s.log
  {
    StepLog(s, t, coin);
  }

  /** The actor's own reload, if it is in one, is current after its step. */
  lemma ActorStaysCurrent(s: State, t: nat, coin: bool)
    requires Enabled(s, t) && Disciplined(s.threads[t].mode, s.threads[t].code) && ReloadsCurrent(s)
    requires CalmStep(s, Tick(t, coin)) && Step(s, t, coin).threads[t].mode.stage == Reloading
    ensures Step(s, t, coin).threads[t].testedAt == |Step(s, t, coin).log|
  {
    StepLog(s, t, coin);
  }

  lemma ReloadsStayCurrent(s: State, t: nat, coin: bool)
    requires Inv(s) && ReloadsCurrent(s) && Enabled(s, t) && CalmStep(s, Tick(t, coin))
    ensures ReloadsCurrent(Step(s, t, coin))
  {
    var after := Step(s, t, coin);
    assert ThreadOk(s.base, s.log, s.threads[t]);
    forall u | 0 <= u < |after.threads| && after.threads[u].mode.stage == Reloading
      ensures after.threads[u].testedAt == |after.log|
    {
      if u == t {
        ActorStaysCurrent(s, t, coin);
      } else {
        assert after.threads[u] == s.threads[u];
        ReloaderHoldsWla(s, t, u);
        NoCommitWithoutWla(s, t, coin);
      }
    }
  }

  lemma CurrentMergeIsIdle(s: State, t: nat)
    requires Inv(s) && ReloadsCurrent(s) && Enabled(s, t) && AtMerge(s.threads[t])
    ensures Merged(s.assoc, Decode(s.threads[t].read)) == s.assoc
  {
    var th := s.threads[t];
    assert ThreadOk(s.base, s.log, th);
    assert s.log[..th.testedAt] == s.log;
    ImagesAreKept(s.base, s.log, th.readAt);
    assert Decode(th.read).Keys == {};
  }

  lemma IdleStep(s: State, t: nat, coin: bool)
    requires Inv(s) && ReloadsCurrent(s) && MergesIdle(s.base, s.log) && Enabled(s, t)
    ensures MergesIdle(s.base, Step(s, t, coin).log)
  {
    var th := s.threads[t];
    if th.code.Then? && EventOf(th) != [] {
      assert (s.log + EventOf(th))[..|s.log|] == s.log;
      if AtMerge(th) {
        CurrentMergeIsIdle(s, t);
      }
    }
  }

  lemma {:induction false} CalmRunMergesIdle(file: Content, actions: seq<Action>)
    requires TableOk(Decode(file)) && CalmRun(Boot(file), actions)
    ensures var s := Run(Boot(file), actions); MergesIdle(s.base, s.log) && ReloadsCurrent(s)
  {
    if actions != [] {
      var init := actions[..|actions| - 1];
      var before := Run(Boot(file), init);
      assert CalmRun(Boot(file), init) by {
        forall k | 0 <= k < |init| ensures init[..k] == actions[..k] {}
      }
      assert CalmStep(before, actions[|init|]);
      CalmRunMergesIdle(file, init);
      EveryRunKeepsInv(file, init);
      match actions[|actions| - 1]
      case Spawn(c) =>
      case Tick(t, coin) =>
        if Enabled(before, t) {
          ReloadsStayCurrent(before, t, coin);
          IdleStep(before, t, coin);
        }
    }
  }

  /**
   Plain conservation: if no Create commits while a reload is under way, every count equals
   the loaded count plus the creates minus the deletes that hit.
   */
  lemma {:induction false} CountsAreConserved(file: Content, actions: seq<Action>, img: string)
    requires TableOk(Decode(file)) && CalmRun(Boot(file), actions)
    ensures var s := Run(Boot(file), actions);
      Count(s.assoc, img) == Count(Decode(file), img) + Creates(s.log, img) - Removals(s.base, s.log, img)
  {
    var s := Run(Boot(file), actions);
    EveryRunKeepsInv(file, actions);
    CalmRunMergesIdle(file, actions);
    BaseIsFile(file, actions);
    Conservation(s.base, s.log, img);
  }

  lemma EffectKeepsBase(s: State, th: Thread)
    requires th.code.Then?
    ensures Effect(s, th).base == s.base
  {
  }

  lemma BaseStays(s: State, a: Action)
    ensures Next(s, a).base == s.base
  {
    if a.Tick? && Enabled(s, a.t) && s.threads[a.t].code.Then? {
      EffectKeepsBase(s, s.threads[a.t]);
    }
  }

  lemma {:induction false} BaseIsFile(file: Content, actions: seq<Action>)
    ensures Run(Boot(file), actions).base == Decode(file)
  {
    if actions == [] {
      assert Merged(map[], Decode(file)) == Decode(file);
    } else {
      BaseIsFile(file, actions[..|actions| - 1]);
      BaseStays(Run(Boot(file), actions[..|actions| - 1]), actions[|actions| - 1]);
    }
  }
}
