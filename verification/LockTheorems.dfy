/**
 Freedom from deadlock for any number of calls and dispatched file events: while a
 call is unfinished some step is enabled, every step shortens a call, and a finished
 call holds nothing.
 */
module LockTheorems {
  import opened Calls
  import opened Interleaving

  predicate Unfinished(th: Thread) {
    th.code != Return
  }

  /** A thread inside a leaf critical section never waits. */
  lemma LeafHolderRuns(s: State, t: nat)
    requires Inv(s) && t < |s.threads| && !s.threads[t].mode.AtTop()
    ensures Enabled(s, t)
  {
    assert ThreadOk(s.base, s.log, s.threads[t]);
  }

  lemma NothingInTheWay(s: State, t: nat)
    requires Inv(s) && t < |s.threads| && Unfinished(s.threads[t])
    requires forall u | 0 <= u < |s.threads| :: s.threads[u].mode.AtTop()
    requires forall u | 0 <= u < |s.threads| :: u == t || s.threads[u].mode.held == {}
    ensures Enabled(s, t)
  {
    assert ThreadOk(s.base, s.log, s.threads[t]);
    assert Disciplined(s.threads[t].mode, s.threads[t].code);
  }

  lemma SomeStepEnabled(s: State, t: nat)
    requires Inv(s) && t < |s.threads| && Unfinished(s.threads[t])
    ensures exists u :: Enabled(s, u)
  {
    if u :| 0 <= u < |s.threads| && !s.threads[u].mode.AtTop() {
      LeafHolderRuns(s, u);
    } else if w :| 0 <= w < |s.threads| && s.threads[w].mode.held != {} {
      assert ThreadOk(s.base, s.log, s.threads[w]);
      assert s.threads[w].mode.Holds(WlaMtx);
      forall u | 0 <= u < |s.threads| && u != w ensures s.threads[u].mode.held == {} {
        assert !s.threads[u].mode.Holds(WlaMtx);
      }
      NothingInTheWay(s, w);
    } else {
      NothingInTheWay(s, t);
    }
  }

  /** No deadlock: in every state of every run with an unfinished call, some call can take a step. */
  lemma NoDeadlock(s: State)
    requires Reachable(s) && exists t :: 0 <= t < |s.threads| && Unfinished(s.threads[t])
    ensures exists u :: Enabled(s, u)
  {
    ReachableInv(s);
    var t :| 0 <= t < |s.threads| && Unfinished(s.threads[t]);
    SomeStepEnabled(s, t);
  }

  lemma FinishedHoldsNothing(s: State, t: nat)
    requires Reachable(s) && t < |s.threads| && !Unfinished(s.threads[t])
    ensures s.threads[t].mode.held == {} && s.threads[t].mode.stage == Idle
  {
    ReachableInv(s);
    assert ThreadOk(s.base, s.log, s.threads[t]);
  }

  // ----- every call can be driven to its end -----

  function Length(p: Prog): nat {
    match p
    case Return => 0
    case Then(_, k) => 1 + Length(k)
    case Branch(_, y, n) => 1 + if Length(y) > Length(n) then Length(y) else Length(n)
  }

  function TotalLength(threads: seq<Thread>): nat {
    if threads == [] then 0 else TotalLength(threads[..|threads| - 1]) + Length(threads[|threads| - 1].code)
  }

  lemma {:induction false} TotalAfterUpdate(threads: seq<Thread>, t: nat, th: Thread)
    requires t < |threads|
    ensures TotalLength(threads[t := th]) == TotalLength(threads) - Length(threads[t].code) + Length(th.code)
  {
    var init := threads[..|threads| - 1];
    if t == |threads| - 1 {
      assert threads[t := th][..|threads| - 1] == init;
    } else {
      assert threads[t := th][..|threads| - 1] == init[t := th];
      TotalAfterUpdate(init, t, th);
    }
  }

  lemma ActsShorten(s: State, th: Thread)
    requires th.code.Then?
    ensures Length(Moved(s, th).code) < Length(th.code) && Effect(s, th).threads == s.threads
  {
  }

  /** Every step shortens what is left to do, whatever the outcome of the calls that may fail. */
  lemma StepsShorten(s: State, t: nat, coin: bool)
    requires Enabled(s, t)
    ensures TotalLength(Step(s, t, coin).threads) < TotalLength(s.threads)
  {
    if s.threads[t].code.Then? {
      TotalAfterUpdate(s.threads, t, Moved(s, s.threads[t]));
      ActsShorten(s, s.threads[t]);
    } else {
      TotalAfterUpdate(s.threads, t, Branched(s, s.threads[t], coin));
    }
  }

  lemma {:induction false} RunConcat(s: State, a: seq<Action>, b: seq<Action>)
    ensures Run(s, a + b) == Run(Run(s, a), b)
  {
    if b == [] {
      assert a + b == a;
    } else {
      assert (a + b)[..|a + b| - 1] == a + b[..|b| - 1];
      RunConcat(s, a, b[..|b| - 1]);
    }
  }

  /** From every state of every run, all calls in flight can be scheduled to completion. */
  lemma EveryCallCanFinish(s: State) returns (schedule: seq<Action>)
    requires Inv(s)
    ensures |schedule| <= TotalLength(s.threads)
    ensures forall a | a in schedule :: a.Tick?
    ensures forall th | th in Run(s, schedule).threads :: th.code == Return && th.mode.held == {}
    decreases TotalLength(s.threads)
  {
    if t :| 0 <= t < |s.threads| && Unfinished(s.threads[t]) {
      SomeStepEnabled(s, t);
      var u :| Enabled(s, u);
      StepsShorten(s, u, true);
      StepKeepsInv(s, u, true);
      var rest := EveryCallCanFinish(Step(s, u, true));
      var first := [Tick(u, true)];
      schedule := first + rest;
      RunConcat(s, first, rest);
      assert first[..0] == [];
      assert Run(s, first) == Step(s, u, true);
    } else {
      schedule := [];
      forall th | th in s.threads ensures th.code == Return && th.mode.held == {} {
        assert ThreadOk(s.base, s.log, th);
        assert !Unfinished(th);
      }
    }
  }

  // ----- the locks of each call -----

  /** Some path through the program takes exactly these locks in this order; the read lock is left out. */
  predicate Takes(p: Prog, order: seq<Lock>)
    decreases p
  {
    match p
    case Return => order == []
    case Then(a, k) =>
      if a.Acquire? then order != [] && order[0] == a.lock && Takes(k, order[1..]) else Takes(k, order)
    case Branch(_, y, n) => Takes(y, order) || Takes(n, order)
  }

  lemma {:induction false} LockedTakes(lock: Lock, k: Prog, order: seq<Lock>)
    ensures Takes(Locked(lock, k), order) <==> order != [] && order[0] == lock && Takes(k, order[1..])
  {
    if order != [] {
      var unlock := Then(Release(lock), k);
      assert Takes(Then(External, unlock), order[1..]) <==> Takes(unlock, order[1..]);
    }
  }

  /** The VM's volume under its mutex, and then, if all went well, the handler under the watcher's. */
  predicate VmOrder(order: seq<Lock>) {
    order == [VmVolumeMtx] || order == [VmVolumeMtx, WatcherMtx]
  }

  lemma {:induction false} VmVolumeTakes(order: seq<Lock>)
    ensures Takes(VmVolume(), order) <==> VmOrder(order)
  {
    var watch := Branch(Chance, Locked(WatcherMtx, Leave()), Leave());
    LockedTakes(VmVolumeMtx, watch, order);
    if order != [] {
      LockedTakes(WatcherMtx, Leave(), order[1..]);
      assert order == [order[0]] + order[1..];
      if |order| > 1 {
        assert order[1..] == [order[1]] + order[1..][1..];
      }
    }
  }

  /** Behind the mutex of the image's volume comes the VM's volume, unless the image's has failed. */
  predicate ImageOrder(order: seq<Lock>) {
    order != [] && order[0] == ImgVolumeMtx && (order[1..] == [] || VmOrder(order[1..]))
  }

  lemma {:induction false} ImageThenVmTakes(order: seq<Lock>)
    ensures Takes(ImageThenVm(), order) <==> VmOrder(order) || ImageOrder(order)
  {
    VmVolumeTakes(order);
    LockedTakes(ImgVolumeMtx, Branch(Chance, VmVolume(), Leave()), order);
    if order != [] {
      VmVolumeTakes(order[1..]);
    }
  }

  /** The key is unwrapped under the mutex of the TPM, before any volume is made. */
  predicate KeyOrder(order: seq<Lock>) {
    order != [] && order[0] == TpmMtx && (order[1..] == [] || VmOrder(order[1..]) || ImageOrder(order[1..]))
  }

  lemma {:induction false} VolumesTake(order: seq<Lock>)
    ensures Takes(PrepareVolumes(), order) <==> order == [] || VmOrder(order) || KeyOrder(order)
  {
    VmVolumeTakes(order);
    LockedTakes(TpmMtx, Branch(Chance, ImageThenVm(), Leave()), order);
    if order != [] {
      ImageThenVmTakes(order[1..]);
    }
  }

  lemma {:induction false} UnderReadLock(k: Prog, order: seq<Lock>)
    ensures Takes(Then(AcquireRead, Then(External, Then(ReleaseRead, k))), order) <==> Takes(k, order)
  {
    assert Takes(Then(External, Then(ReleaseRead, k)), order) <==> Takes(Then(ReleaseRead, k), order);
  }

  lemma {:induction false} LookUpTakes(k: Prog, order: seq<Lock>)
    ensures Takes(LookUp(k), order) <==> Takes(k, order) || order == []
  {
    UnderReadLock(Branch(Chance, k, Leave()), order);
  }

  lemma {:induction false} AskingTakes(k: Prog, order: seq<Lock>)
    ensures Takes(ImagePathFromFile(k), order) <==> Takes(k, order) || order == []
  {
    var failed := Then(ReloadFailed, Leave());
    var merge := Branch(Chance, Then(MergeFile, LookUp(k)), failed);
    LookUpTakes(k, order);
    UnderReadLock(Branch(Chance, Then(ReadFile, merge), failed), order);
    assert Takes(failed, order) <==> order == [];
    assert Takes(merge, order) <==> Takes(k, order) || order == [];
    assert Takes(Then(ReadFile, merge), order) <==> Takes(merge, order);
  }

  /**
   Exactly the orders in which a Prepare takes its locks: wlaMtx first; the TPM's for an image
   with a header, and then the image volume's unless that is skipped; the VM volume's; and the
   watcher's last, each one only if everything before it has worked.
   */
  lemma {:induction false} PrepareTakes(order: seq<Lock>)
    ensures Takes(PrepareCode(), order) <==>
      && order != [] && order[0] == WlaMtx
      && (order[1..] == [] || VmOrder(order[1..]) || KeyOrder(order[1..]))
  {
    if order != [] {
      var k := PrepareVolumes();
      VolumesTake(order[1..]);
      AskingTakes(k, order[1..]);
      assert Takes(Branch(Chance, Branch(Chance, k, ImagePathFromFile(k)), Leave()), order[1..]) <==>
        Takes(k, order[1..]) || Takes(ImagePathFromFile(k), order[1..]) || order[1..] == [];
    }
  }
}
