/**
 Restarts of the agent inside serial runs. With clean saves a restart forgets handlers
 and nothing else; the run is the one without restarts, event by event, exactly as long
 as no removal of a watched file misses a handler that had something to remove.
 */
module Restarts {
  import opened Common
  import opened Volumes
  import opened VolumeTheorems
  import opened Agent
  import opened AgentRuns
  import opened HostTwins
  import A = Association
  import W = HostWitnesses

  // ----- the agent with and without a restart -----

  /** Equal but for the watched files. */
  predicate Alike(a: State, b: State) {
    a.table == b.table && a.file == b.file && Twins(a.host, b.host)
  }

  predicate InStep(a: State) {
    A.Decode(a.file) == a.table
  }

  predicate CleanSave(ev: Event) {
    match ev
    case Starts(_, e) => e.save.Clean()
    case Stops(_, _, _, save) => save.Clean()
    case _ => true
  }

  /**
   What a caller learns: replies, the path found in the table, the qemu-img calls,
   Delete's verdict and the teardown decision.
   */
  datatype Reply =
    | Started(ok: bool)
    | Prepared(outcome: Outcome, path: string, ran: seq<Command>)
    | Stopped(ok: bool, verdict: A.Verdict, imagePath: string, tornDown: bool)

  function StopReply(a: State, d: Domain, valid: bool, e: StopEnv, save: A.SaveFaults): Reply {
    var ok := StopCall(a, d, valid, e, save).1;
    var verdict := A.Judge(a.table, d.img);
    var path := if verdict == A.Missing then "" else A.PathOf(a.table, d.img);
    Stopped(ok, verdict, path, ok && path != "" && verdict == A.Last)
  }

  function PrepareReply(a: State, d: Domain, valid: bool, readFails: bool, e: PrepareEnv): Reply {
    var path := SavedPath(a, d, readFails, e);
    var ran := if valid then Prepare(a.host, d, e.(savedPath := path)).2 else [];
    Prepared(PrepareCall(a, d, valid, readFails, e).1, path, ran)
  }

  function ReplyTo(a: State, ev: Event): seq<Reply> {
    match ev
    case Starts(d, e) => [Started(StartCall(a, d, e).1)]
    case Prepares(d, valid, readFails, e) => [PrepareReply(a, d, valid, readFails, e)]
    case Stops(d, valid, e, save) => [StopReply(a, d, valid, e, save)]
    case _ => []
  }

  lemma StartAlike(a: State, b: State, d: Domain, e: StartEnv)
    requires Alike(a, b)
    ensures Alike(StartCall(a, d, e).0, StartCall(b, d, e).0) && StartCall(a, d, e).1 == StartCall(b, d, e).1
  {
  }

  lemma PrepareAlike(a: State, b: State, d: Domain, valid: bool, readFails: bool, e: PrepareEnv)
    requires Alike(a, b)
    ensures Alike(PrepareCall(a, d, valid, readFails, e).0, PrepareCall(b, d, valid, readFails, e).0)
    ensures PrepareReply(a, d, valid, readFails, e) == PrepareReply(b, d, valid, readFails, e)
  {
    ReadSame(a.host, b.host, d.vmPath);
    assert ConsultsTable(a.host, d, e) == ConsultsTable(b.host, d, e);
    assert SavedPath(a, d, readFails, e) == SavedPath(b, d, readFails, e);
    PrepareSame(a.host, b.host, d, e.(savedPath := SavedPath(b, d, readFails, e)));
  }

  lemma QuestionAlike(a: State, b: State, d: Domain, e: StopEnv, save: A.SaveFaults)
    requires Alike(a, b)
    ensures Alike(AfterQuestion(a, d, e, save), AfterQuestion(b, d, e, save))
  {
    TearDownSame(a.host, b.host, d, A.PathOf(a.table, d.img), e);
  }

  lemma StopAlike(a: State, b: State, d: Domain, valid: bool, e: StopEnv, save: A.SaveFaults)
    requires Alike(a, b)
    ensures Alike(StopCall(a, d, valid, e, save).0, StopCall(b, d, valid, e, save).0)
    ensures StopReply(a, d, valid, e, save) == StopReply(b, d, valid, e, save)
  {
    ReadSame(a.host, b.host, d.vmPath);
    CloseVmSame(a.host, b.host, d, e);
    QuestionAlike(a.(host := CloseVm(a.host, d, e)), b.(host := CloseVm(b.host, d, e)), d, e, save);
  }

  /** Any event but a removal or a restart. */
  lemma EventAlike(a: State, b: State, ev: Event)
    requires Alike(a, b) && !ev.Removes? && ev != Restarts
    ensures Alike(Apply(a, ev), Apply(b, ev))
  {
    match ev
    case Starts(d, e) => StartAlike(a, b, d, e);
    case Prepares(d, valid, readFails, e) => PrepareAlike(a, b, d, valid, readFails, e);
    case Stops(d, valid, e, save) => StopAlike(a, b, d, valid, e, save);
    case Writes(vm, data) => WriteSame(a.host, b.host, Under(MountDir(vm), "disk"), data);
  }

  lemma ReplyAlike(a: State, b: State, ev: Event)
    requires Alike(a, b)
    ensures ReplyTo(a, ev) == ReplyTo(b, ev)
  {
    match ev
    case Starts(d, e) => StartAlike(a, b, d, e);
    case Prepares(d, valid, readFails, e) => PrepareAlike(a, b, d, valid, readFails, e);
    case Stops(d, valid, e, save) => StopAlike(a, b, d, valid, e, save);
    case _ =>
  }

  /** After every event with a clean save the file shows the table. */
  lemma StaysInStep(a: State, ev: Event)
    requires InStep(a) && CleanSave(ev)
    ensures InStep(Apply(a, ev))
  {
    match ev
    case Stops(d, valid, e, save) =>
      if A.Judge(a.table, d.img) == A.Missing {
        assert A.Deleted(a.table, d.img) == a.table;
      }
    case Restarts => assert A.Merged(map[], A.Decode(a.file)) == A.Decode(a.file);
    case _ =>
  }

  /** A restart finds the whole table in the file. */
  lemma RestartAlike(a: State, b: State)
    requires Alike(a, b) && InStep(b)
    ensures Alike(Restarted(a), b)
  {
    assert A.Merged(map[], A.Decode(a.file)) == A.Decode(a.file);
  }

  /**
   One restart before one removal: the host is the one without the restart exactly when
   no handler was waiting for the file, or it would have found nothing to remove.
   */
  lemma RestartBeforeRemoval(a: State, file: string)
    ensures Twins(Apply(Restarted(a), Removes(file)).host, Apply(a, Removes(file)).host) <==>
      (file in a.host.watched ==> NothingBelow(a.host, MountDir(a.host.watched[file])))
  {
    RemovalTwins(Restarted(a).host, a.host, file);
  }

  // ----- runs -----

  function Replies(a: State, evs: seq<Event>): seq<Reply> {
    if evs == [] then [] else Replies(a, evs[..|evs| - 1]) + ReplyTo(Run(a, evs[..|evs| - 1]), evs[|evs| - 1])
  }

  function WithoutRestarts(evs: seq<Event>): seq<Event> {
    if evs == [] then []
    else WithoutRestarts(evs[..|evs| - 1]) + (if evs[|evs| - 1] == Restarts then [] else [evs[|evs| - 1]])
  }

  ghost predicate CleanSaves(evs: seq<Event>) {
    forall ev | ev in evs :: CleanSave(ev)
  }

  lemma {:induction false} RunStaysInStep(a: State, evs: seq<Event>)
    requires InStep(a) && CleanSaves(evs)
    ensures InStep(Run(a, evs)) && CleanSaves(WithoutRestarts(evs))
  {
    if evs != [] {
      assert evs[|evs| - 1] in evs;
      RunStaysInStep(a, evs[..|evs| - 1]);
      StaysInStep(Run(a, evs[..|evs| - 1]), evs[|evs| - 1]);
    }
  }

  /** The run after its first `k` events, and the run without restarts after the same events. */
  ghost predicate AlikeAt(a: State, evs: seq<Event>, k: nat) {
    k <= |evs| && Alike(Run(a, evs[..k]), Run(a, WithoutRestarts(evs[..k])))
  }

  /** After every event both runs have the same table, file and host, but for forgotten handlers. */
  ghost predicate AlikeThroughout(a: State, evs: seq<Event>) {
    forall k | 0 <= k <= |evs| :: AlikeAt(a, evs, k)
  }

  ghost predicate MissesNothingAt(a: State, evs: seq<Event>, k: nat) {
    k < |evs| && evs[k].Removes? ==>
      NothingMissed(Run(a, evs[..k]).host, Run(a, WithoutRestarts(evs[..k])).host, evs[k].file)
  }

  /** Every removal either finds its handler, or had none, or the forgotten one had nothing to remove. */
  ghost predicate MissesNothing(a: State, evs: seq<Event>) {
    forall k | 0 <= k < |evs| :: MissesNothingAt(a, evs, k)
  }

  lemma ThroughoutSplits(a: State, evs: seq<Event>)
    requires evs != []
    ensures AlikeThroughout(a, evs) <==> AlikeThroughout(a, evs[..|evs| - 1]) && AlikeAt(a, evs, |evs|)
  {
    var init := evs[..|evs| - 1];
    forall k | 0 <= k <= |init| ensures AlikeAt(a, evs, k) <==> AlikeAt(a, init, k) {
      assert evs[..k] == init[..k];
    }
  }

  lemma MissesSplits(a: State, evs: seq<Event>)
    requires evs != []
    ensures MissesNothing(a, evs) <==> MissesNothing(a, evs[..|evs| - 1]) && MissesNothingAt(a, evs, |evs| - 1)
  {
    var init := evs[..|evs| - 1];
    forall k | 0 <= k < |init| ensures MissesNothingAt(a, evs, k) <==> MissesNothingAt(a, init, k) {
      assert evs[..k] == init[..k] && evs[k] == init[k];
    }
  }

  lemma LastEvent(a: State, evs: seq<Event>)
    requires evs != [] && InStep(a) && CleanSaves(evs) && AlikeAt(a, evs, |evs| - 1)
    ensures AlikeAt(a, evs, |evs|) <==> MissesNothingAt(a, evs, |evs| - 1)
  {
    var init, last := evs[..|evs| - 1], evs[|evs| - 1];
    var kept := WithoutRestarts(init);
    var with, without := Run(a, init), Run(a, kept);
    assert evs[..|evs|] == evs && last in evs;
    assert CleanSaves(init);
    if last == Restarts {
      RunStaysInStep(a, init);
      RunStaysInStep(a, kept);
      RestartAlike(with, without);
      assert WithoutRestarts(evs) == kept;
    } else {
      assert WithoutRestarts(evs)[..|kept|] == kept && WithoutRestarts(evs)[|kept|] == last;
      if last.Removes? {
        RemovalTwins(with.host, without.host, last.file);
      } else {
        EventAlike(with, without, last);
      }
    }
  }

  /**
   Restarts at any places of a serial run of the whole agent with clean saves: after every
   event the table, the file and the host but for its handlers are those of the run without
   restarts, if and only if no removal of a watched file missed a handler that a restart had
   forgotten and that had something to remove.
   */
  lemma {:induction false} RestartsAreNotNoticed(a: State, evs: seq<Event>)
    requires InStep(a) && CleanSaves(evs)
    ensures AlikeThroughout(a, evs) <==> MissesNothing(a, evs)
  {
    if evs == [] {
      assert evs[..0] == [];
    } else {
      assert CleanSaves(evs[..|evs| - 1]);
      RestartsAreNotNoticed(a, evs[..|evs| - 1]);
      ThroughoutSplits(a, evs);
      MissesSplits(a, evs);
      if AlikeThroughout(a, evs[..|evs| - 1]) {
        assert AlikeAt(a, evs[..|evs| - 1], |evs| - 1);
        assert evs[..|evs| - 1][..|evs| - 1] == evs[..|evs| - 1];
        LastEvent(a, evs);
      }
    }
  }

  /** Runs that stay alike give the same replies, paths, commands, verdicts and teardown decisions. */
  lemma {:induction false} AlikeRunsReplyAlike(a: State, evs: seq<Event>)
    requires AlikeThroughout(a, evs)
    ensures Replies(a, evs) == Replies(a, WithoutRestarts(evs))
  {
    if evs != [] {
      var init, last := evs[..|evs| - 1], evs[|evs| - 1];
      var kept := WithoutRestarts(init);
      ThroughoutSplits(a, evs);
      AlikeRunsReplyAlike(a, init);
      assert AlikeAt(a, init, |init|) && init[..|init|] == init;
      if last == Restarts {
        assert WithoutRestarts(evs) == kept;
      } else {
        ReplyAlike(Run(a, init), Run(a, kept), last);
        assert WithoutRestarts(evs)[..|kept|] == kept && WithoutRestarts(evs)[|kept|] == last;
      }
    }
  }

  // ----- a restart that is noticed -----

  /** A counted VM with its disk in its mounted volume, and a handler that waits for the removal of `file`. */
  ghost predicate Watched(a: State, d: Domain, file: string, data: Bytes) {
    && d.vm in a.host.devices && MountDir(d.vm) in a.host.mounts && a.host.mounts[MountDir(d.vm)] == d.vm
    && var sparse := a.host.devices[d.vm];
    && sparse != d.vmPath && sparse in a.host.root && a.host.root[sparse] == Sparse(map["disk" := data])
    && d.vmPath in a.host.root && a.host.root[d.vmPath] == Symlink(Under(MountDir(d.vm), "disk"))
    && DirOf(d.vmPath) !in a.host.mounts
    && file in a.host.watched && a.host.watched[file] == d.vm && A.Count(a.table, d.img) > 0
  }

  lemma DiskIsThere(a: State, d: Domain, file: string, data: Bytes)
    requires Watched(a, d, file, data)
    ensures Exists(a.host, d.vmPath) && !Exists(DiskInfoRemoved(a.host, file), d.vmPath)
  {
    UnderMount(d.vm, "disk");
  }

  lemma {:induction false} OneMore(a: State, evs: seq<Event>, ev: Event)
    ensures Run(a, evs + [ev]) == Apply(Run(a, evs), ev)
  {
    assert (evs + [ev])[..|evs|] == evs;
  }

  lemma {:induction false} TwoEvents(a: State, x: Event, y: Event)
    ensures Run(a, [x]) == Apply(a, x) && Run(a, [x, y]) == Apply(Apply(a, x), y)
  {
    OneMore(a, [], x);
    OneMore(a, [x], y);
    assert [] + [x] == [x] && [x] + [y] == [x, y];
  }

  lemma {:induction false} ThreeEvents(a: State, x: Event, y: Event, z: Event)
    ensures Run(a, [x, y, z]) == Apply(Apply(Apply(a, x), y), z)
  {
    TwoEvents(a, x, y);
    OneMore(a, [x, y], z);
    assert [x, y] + [z] == [x, y, z];
  }

  lemma StopRefused(a: State, d: Domain, e: StopEnv, save: A.SaveFaults)
    requires !StopProceeds(a.host, d, e)
    ensures StopCall(a, d, true, e, save) == (a, false)
  {
  }

  lemma StopCounts(a: State, d: Domain, e: StopEnv, save: A.SaveFaults)
    requires StopProceeds(a.host, d, e) && A.Count(a.table, d.img) > 0
    ensures var (after, ok) := StopCall(a, d, true, e, save);
      ok && A.Count(after.table, d.img) == A.Count(a.table, d.img) - 1
  {
  }

  lemma RemovalIs(a: State, file: string)
    ensures Apply(a, Removes(file)) == a.(host := DiskInfoRemoved(a.host, file))
    ensures Apply(Apply(a, Restarts), Removes(file)) == Restarted(a)
  {
  }

  /** The restarted agent has the same table, and sees the same disk. */
  lemma RestartedSees(a: State, d: Domain)
    requires InStep(a)
    ensures Restarted(a).table == a.table && Exists(Restarted(a).host, d.vmPath) == Exists(a.host, d.vmPath)
  {
    RestartAlike(a, a);
    ReadSame(Restarted(a).host, a.host, d.vmPath);
  }

  /**
   A removal of the VM's disk.info and then a Stop. With a restart before them the handler
   is forgotten, the Stop succeeds and takes the VM off the count; without the restart the
   handler has emptied the volume, so the Stop finds no VM behind the link, replies false
   and leaves the count as it was.
   */
  lemma {:induction false} RestartChangesAStop(a: State, d: Domain, file: string, data: Bytes, e: StopEnv,
                                               save: A.SaveFaults)
    requires InStep(a) && Watched(a, d, file, data) && e.parse && e.status && !e.statFails
    ensures var stop := Stops(d, true, e, save);
      && StopCall(Run(a, [Restarts, Removes(file)]), d, true, e, save).1
      && !StopCall(Run(a, [Removes(file)]), d, true, e, save).1
      && A.Count(Run(a, [Restarts, Removes(file), stop]).table, d.img) == A.Count(a.table, d.img) - 1
      && A.Count(Run(a, [Removes(file), stop]).table, d.img) == A.Count(a.table, d.img)
  {
    var stop := Stops(d, true, e, save);
    ThreeEvents(a, Restarts, Removes(file), stop);
    TwoEvents(a, Restarts, Removes(file));
    TwoEvents(a, Removes(file), stop);
    RemovalIs(a, file);
    DiskIsThere(a, d, file, data);
    RestartedSees(a, d);
    StopCounts(Restarted(a), d, e, save);
    StopRefused(a.(host := DiskInfoRemoved(a.host, file)), d, e, save);
  }

  /** An agent in that state: one VM, prepared and started, on any image. */
  function PreparedAgent(img: string, path: string, file: string, data: Bytes): State {
    var table: A.Table := map[img := A.Entry(path, 1)];
    State(
      Host(map[W.VM_PATH := Symlink(Under(MountDir(W.VM), "disk")), W.VM_SPARSE := Sparse(map["disk" := data])],
           map[W.VM := W.VM_SPARSE], map[MountDir(W.VM) := W.VM], map[file := W.VM]),
      table, A.Encoded(table))
  }

  lemma PreparedAgentIsWatched(img: string, path: string, file: string, data: Bytes)
    ensures var a := PreparedAgent(img, path, file, data);
      InStep(a) && HostInv(W.SITE, a.host) && Watched(a, Domain(W.VM, W.VM_PATH, img, ""), file, data)
  {
    W.SiteIsWellFormed();
    OutsideMounts(W.SITE, PreparedAgent(img, path, file, data).host, W.VM_PATH);
  }
}
