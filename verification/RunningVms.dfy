/**
 Interleaved runs whose commits are the counted starts and completed stops of VMs: the
 counts, verdicts and teardowns of the run in terms of the VMs that run.
 */
module RunningVms {
  import opened Association
  import opened History
  import opened Calls
  import opened Interleaving
  import R = RunTheorems
  import L = ReloadTheorems

  /** The commits of a history apart from its merges. */
  function WithoutMerges(log: seq<Event>): seq<Event> {
    if log == [] then []
    else WithoutMerges(log[..|log| - 1]) + (if log[|log| - 1].MergeE? then [] else [log[|log| - 1]])
  }

  lemma {:induction false} IdleMergesDrop(t: Table, log: seq<Event>)
    requires MergesIdle(t, log)
    ensures Replay(t, WithoutMerges(log)) == Replay(t, log)
  {
    if log != [] {
      var init, e := log[..|log| - 1], log[|log| - 1];
      IdleMergesDrop(t, init);
      if e.MergeE? {
        assert WithoutMerges(log) == WithoutMerges(init);
      } else {
        ReplayAppend(t, WithoutMerges(init), e);
      }
    }
  }

  lemma {:induction false} WithoutMergesConcat(a: seq<Event>, b: seq<Event>)
    ensures WithoutMerges(a + b) == WithoutMerges(a) + WithoutMerges(b)
  {
    if b == [] {
      assert a + b == a;
    } else {
      WithoutMergesConcat(a, b[..|b| - 1]);
      assert (a + b)[..|a + b| - 1] == a + b[..|b| - 1];
    }
  }

  lemma {:induction false} EraseIs(evs: seq<VmEvent>, k: nat)
    requires k <= |evs|
    ensures |Erase(evs)| == |evs| && Erase(evs)[..k] == Erase(evs[..k])
    ensures k < |evs| ==> Erase(evs)[k] == Commit(evs[k])
  {
    if k == |evs| {
      assert evs[..k] == evs;
      if k > 0 {
        EraseIs(evs[..k - 1], k - 1);
      }
    } else {
      EraseIs(evs[..|evs| - 1], k);
      assert evs[..|evs| - 1][..k] == evs[..k];
    }
  }

  /**
   The run began on a table that counts the VMs in `start`, its merges changed nothing, and
   its commits are those of `evs`.
   */
  ghost predicate Commits(s: State, start: map<string, string>, evs: seq<VmEvent>) {
    && (forall img :: Count(s.base, img) == |VmsOn(start, img)|)
    && MergesIdle(s.base, s.log) && WithoutMerges(s.log) == Erase(evs) && Alternating(start, evs)
  }

  /** In such a run the count of an image is the number of its running VMs, in every state. */
  lemma {:induction false} CountIsRunningVms(s: State, start: map<string, string>, evs: seq<VmEvent>, img: string)
    requires Reachable(s) && Commits(s, start, evs)
    ensures Count(s.assoc, img) == |VmsOn(Running(start, evs), img)|
  {
    ReachableInv(s);
    IdleMergesDrop(s.base, s.log);
    CountIsNumberOfRunningVms(s.base, start, evs, img);
  }

  /**
   What a Stop is told in such a run: its Delete is the stop of some VM that was running
   on the image, and the verdict is "last VM" exactly when no other one was.
   */
  lemma VerdictIsAboutRunningVms(s: State, start: map<string, string>, evs: seq<VmEvent>, t: nat) returns (k: nat)
    requires Reachable(s) && Commits(s, start, evs) && t < |s.threads|
    requires s.threads[t].mode.ruling != Undecided && s.threads[t].mode.Holds(WlaMtx)
    ensures var th := s.threads[t];
      && 1 <= th.deletedAt <= |s.log| && k < |evs| && evs[k].Stopped? && evs[k].img == th.img
      && Erase(evs[..k]) == WithoutMerges(s.log[..th.deletedAt - 1])
      && evs[k].vm in VmsOn(Running(start, evs[..k]), th.img)
      && th.mode.ruling == Found(if VmsOn(Running(start, evs[..k]), th.img) == {evs[k].vm} then Last else Shared)
  {
    ReachableInv(s);
    var th := s.threads[t];
    assert ThreadOk(s.base, s.log, th);
    var met := s.log[..th.deletedAt - 1];
    k := |WithoutMerges(met)|;
    PlaceOfDelete(s.log, th.deletedAt - 1, evs);
    PrefixIsIdle(s.base, s.log, th.deletedAt - 1);
    IdleMergesDrop(s.base, met);
    AlternatingInit(start, evs, k);
    assert evs[k] == evs[k];
    StopVerdicts(s.base, start, evs[..k], evs[k].vm, th.img);
  }

  /** Where a delete of the history is among the events. */
  lemma {:induction false} PlaceOfDelete(log: seq<Event>, p: nat, evs: seq<VmEvent>)
    requires p < |log| && log[p].DeleteE? && WithoutMerges(log) == Erase(evs)
    ensures var k := |WithoutMerges(log[..p])|;
      k < |evs| && Erase(evs[..k]) == WithoutMerges(log[..p]) && Commit(evs[k]) == log[p]
  {
    var before, rest := WithoutMerges(log[..p]), log[p + 1..];
    var k := |before|;
    assert log == log[..p] + ([log[p]] + rest);
    WithoutMergesConcat(log[..p], [log[p]] + rest);
    WithoutMergesConcat([log[p]], rest);
    assert WithoutMerges([log[p]]) == [log[p]];
    assert Erase(evs) == before + ([log[p]] + WithoutMerges(rest));
    EraseIs(evs, 0);
    EraseIs(evs, k);
  }

  /**
   At a teardown of such a run the VMs running on the image are as many as the starts
   that slipped in behind the Delete.
   */
  lemma {:induction false} RunningVmsAtTeardown(s: State, start: map<string, string>, evs: seq<VmEvent>, t: nat)
    requires Reachable(s) && Commits(s, start, evs) && t < |s.threads| && R.TearingDown(s.threads[t])
    ensures var th := s.threads[t];
      && th.deletedAt <= |s.log|
      && |VmsOn(Running(start, evs), th.img)| == Creates(s.log[th.deletedAt..], th.img)
  {
    R.CountAtTeardown(s, t);
    CountIsRunningVms(s, start, evs, s.threads[t].img);
  }

  /**
   Runs in which no Create commits during a reload, from a file that counts the VMs running
   at the start: the counts are those of the running VMs.
   */
  lemma {:induction false} CalmRunCountsVms(file: Content, start: map<string, string>, actions: seq<Action>,
                                            evs: seq<VmEvent>, img: string)
    requires TableOk(Decode(file)) && forall i :: Count(Decode(file), i) == |VmsOn(start, i)|
    requires L.CalmRun(Boot(file), actions)
    requires WithoutMerges(Run(Boot(file), actions).log) == Erase(evs) && Alternating(start, evs)
    ensures Count(Run(Boot(file), actions).assoc, img) == |VmsOn(Running(start, evs), img)|
  {
    L.CalmRunMergesIdle(file, actions);
    L.BaseIsFile(file, actions);
    CountIsRunningVms(Run(Boot(file), actions), start, evs, img);
  }
}
