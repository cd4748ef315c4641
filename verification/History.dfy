/**
 Histories of committed table changes. The table is always the replay of the
 history, so the laws about counts are laws about replays.
 */
module History {
  import opened Common
  import opened Association

  datatype Event =
    | CreateE(img: string, path: string)
    | DeleteE(img: string)
    | MergeE(table: Table)

  function Apply(t: Table, e: Event): Table {
    match e
    case CreateE(img, path) => Created(t, img, path)
    case DeleteE(img) => Deleted(t, img)
    case MergeE(u) => Merged(t, u)
  }

  function Replay(t: Table, log: seq<Event>): Table {
    if log == [] then t else Apply(Replay(t, log[..|log| - 1]), log[|log| - 1])
  }

  /** No merge of the history changed the table it met. */
  predicate MergesIdle(t: Table, log: seq<Event>) {
    log == [] ||
      var before := log[..|log| - 1];
      var e := log[|log| - 1];
      MergesIdle(t, before) && (e.MergeE? ==> Merged(Replay(t, before), e.table) == Replay(t, before))
  }

  /** A change that leaves an image in or out of the table, with its path, and counted or uncounted as it was. */
  predicate Keeps(t: Table, u: Table, img: string) {
    && (img in t <==> img in u)
    && (img in t ==> t[img].path == u[img].path)
    && (Count(t, img) > 0 <==> Count(u, img) > 0)
  }

  /** Every merge of the history kept that of the image. */
  predicate MergesKeep(t: Table, log: seq<Event>, img: string) {
    log == [] ||
      var before := log[..|log| - 1];
      var e := log[|log| - 1];
      MergesKeep(t, before, img) && (e.MergeE? ==> Keeps(Replay(t, before), Replay(t, log), img))
  }

  /** Only `Create` commits. */
  predicate Quiet(log: seq<Event>) {
    forall e | e in log :: e.CreateE?
  }

  /** Every created path passed the guard of `Start`; every merged table came from a file of this program. */
  predicate LogOk(log: seq<Event>) {
    forall e | e in log :: (e.CreateE? ==> HasPrefix(e.path, MOUNT_PATH)) && (e.MergeE? ==> TableOk(e.table))
  }

  // ----- what happened to one image -----

  /** `Create` commits for the image. */
  function Creates(log: seq<Event>, img: string): nat {
    if log == [] then 0
    else Creates(log[..|log| - 1], img) + (var e := log[|log| - 1]; if e.CreateE? && e.img == img then 1 else 0)
  }

  /** `Delete` commits for the image that got the given verdict. */
  function Ruled(t: Table, log: seq<Event>, img: string, v: Verdict): nat {
    if log == [] then 0
    else
      var before := log[..|log| - 1];
      var e := log[|log| - 1];
      Ruled(t, before, img, v) + (if e == DeleteE(img) && Judge(Replay(t, before), img) == v then 1 else 0)
  }

  /** Deletes that decremented the count. */
  function Removals(t: Table, log: seq<Event>, img: string): nat {
    Ruled(t, log, img, Last) + Ruled(t, log, img, Shared)
  }

  /** `Create` commits that found the count at zero. */
  function Rises(t: Table, log: seq<Event>, img: string): nat {
    if log == [] then 0
    else
      var before := log[..|log| - 1];
      var e := log[|log| - 1];
      Rises(t, before, img) + (if e.CreateE? && e.img == img && Count(Replay(t, before), img) == 0 then 1 else 0)
  }

  // ----- replay laws -----

  lemma {:induction false} ReplayConcat(t: Table, a: seq<Event>, b: seq<Event>)
    ensures Replay(t, a + b) == Replay(Replay(t, a), b)
  {
    if b == [] {
      assert a + b == a;
    } else {
      var init := b[..|b| - 1];
      ReplayConcat(t, a, init);
      assert (a + b)[..|a + b| - 1] == a + init;
    }
  }

  lemma {:induction false} ReplaySplit(t: Table, log: seq<Event>, k: nat)
    requires k <= |log|
    ensures Replay(t, log) == Replay(Replay(t, log[..k]), log[k..])
  {
    ReplayConcat(t, log[..k], log[k..]);
    assert log[..k] + log[k..] == log;
  }

  lemma {:induction false} ReplayAppend(t: Table, log: seq<Event>, e: Event)
    ensures Replay(t, log + [e]) == Apply(Replay(t, log), e)
  {
    assert (log + [e])[..|log|] == log;
  }

  lemma {:induction false} ReplayOk(t: Table, log: seq<Event>)
    requires TableOk(t) && LogOk(log)
    ensures TableOk(Replay(t, log))
  {
    if log != [] {
      ReplayOk(t, log[..|log| - 1]);
    }
  }

  /** No image ever leaves the table, so a table that is not empty never becomes empty again. */
  lemma {:induction false} ImagesAreKept(t: Table, log: seq<Event>, k: nat)
    requires k <= |log|
    ensures Replay(t, log[..k]).Keys <= Replay(t, log).Keys
  {
    if k == |log| {
      assert log[..k] == log;
    } else {
      var init := log[..|log| - 1];
      ImagesAreKept(t, init, k);
      assert init[..k] == log[..k];
    }
  }

  lemma {:induction false} QuietIsIdle(t: Table, log: seq<Event>)
    requires Quiet(log)
    ensures MergesIdle(t, log)
  {
    if log != [] {
      assert log[|log| - 1] in log;
      QuietIsIdle(t, log[..|log| - 1]);
    }
  }

  lemma {:induction false} SuffixIsIdle(t: Table, log: seq<Event>, k: nat)
    requires k <= |log| && MergesIdle(t, log)
    ensures MergesIdle(Replay(t, log[..k]), log[k..])
  {
    if k < |log| {
      var init, tail := log[..|log| - 1], log[k..];
      SuffixIsIdle(t, init, k);
      assert init[..k] == log[..k] && init[k..] == tail[..|tail| - 1];
      ReplaySplit(t, init, k);
    }
  }

  /** Conservation: the count is the initial count plus the creates minus the deletes that hit. */
  lemma {:induction false} Conservation(t: Table, log: seq<Event>, img: string)
    requires MergesIdle(t, log)
    ensures Count(Replay(t, log), img) == Count(t, img) + Creates(log, img) - Removals(t, log, img)
  {
    if log != [] {
      Conservation(t, log[..|log| - 1], img);
    }
  }

  lemma {:induction false} QuietRemovals(t: Table, log: seq<Event>, img: string)
    requires Quiet(log)
    ensures Removals(t, log, img) == 0
  {
    if log != [] {
      QuietRemovals(t, log[..|log| - 1], img);
    }
  }

  /** In a history of creates only, the count grows by exactly the creates. */
  lemma {:induction false} QuietCount(t: Table, log: seq<Event>, img: string)
    requires Quiet(log)
    ensures Count(Replay(t, log), img) == Count(t, img) + Creates(log, img)
  {
    QuietIsIdle(t, log);
    Conservation(t, log, img);
    QuietRemovals(t, log, img);
  }

  /** What merges took from the count of the image. */
  function TakenBack(t: Table, log: seq<Event>, img: string): int {
    if log == [] then 0
    else
      var before, e := log[..|log| - 1], log[|log| - 1];
      TakenBack(t, before, img) + (if e.MergeE? then Count(Replay(t, before), img) - Count(Replay(t, log), img) else 0)
  }

  /** Conservation over any history: creates minus the deletes that hit, minus what merges took back. */
  lemma {:induction false} ConservationWithMerges(t: Table, log: seq<Event>, img: string)
    ensures Count(Replay(t, log), img)
      == Count(t, img) + Creates(log, img) - Removals(t, log, img) - TakenBack(t, log, img)
  {
    if log != [] {
      ConservationWithMerges(t, log[..|log| - 1], img);
    }
  }

  lemma {:induction false} TakenBackAppend(t: Table, log: seq<Event>, e: Event, img: string)
    ensures var before := Replay(t, log);
      TakenBack(t, log + [e], img)
        == TakenBack(t, log, img) + (if e.MergeE? then Count(before, img) - Count(Apply(before, e), img) else 0)
  {
    assert (log + [e])[..|log|] == log;
  }

  lemma {:induction false} IdleTakesNothing(t: Table, log: seq<Event>, img: string)
    requires MergesIdle(t, log)
    ensures TakenBack(t, log, img) == 0
  {
    if log != [] {
      IdleTakesNothing(t, log[..|log| - 1], img);
    }
  }

  /** The balance of a suffix: what the count changed by since position `k`. */
  lemma {:induction false} Balance(t: Table, log: seq<Event>, k: nat, img: string)
    requires k <= |log|
    ensures var mark := Replay(t, log[..k]);
      Count(Replay(t, log), img) - Count(mark, img)
        == Creates(log[k..], img) - Removals(mark, log[k..], img) - TakenBack(mark, log[k..], img)
  {
    ReplaySplit(t, log, k);
    ConservationWithMerges(Replay(t, log[..k]), log[k..], img);
  }

  /** Paths: an image keeps the path under which it entered the table. */
  lemma {:induction false} PathIsKept(t: Table, log: seq<Event>, img: string)
    requires img in t && MergesKeep(t, log, img)
    ensures img in Replay(t, log) && Replay(t, log)[img].path == t[img].path
  {
    if log != [] {
      PathIsKept(t, log[..|log| - 1], img);
    }
  }

  lemma {:induction false} AbsentUntilCreated(t: Table, log: seq<Event>, img: string)
    requires img !in t && MergesKeep(t, log, img) && Creates(log, img) == 0
    ensures img !in Replay(t, log)
  {
    if log != [] {
      AbsentUntilCreated(t, log[..|log| - 1], img);
    }
  }

  /**
   The stored path is the one of the image's first create, whatever the later creates and
   deletes were, and it is still found when the count is back at zero.
   */
  lemma {:induction false} FirstPathWins(t: Table, log: seq<Event>, k: nat, img: string)
    requires k < |log| && img !in t && MergesKeep(t, log, img)
    requires log[k].CreateE? && log[k].img == img && Creates(log[..k], img) == 0
    ensures img in Replay(t, log) && Replay(t, log)[img].path == log[k].path
  {
    var upto := log[..k + 1];
    PrefixKeeps(t, log, k, img);
    AbsentUntilCreated(t, log[..k], img);
    assert upto[..k] == log[..k];
    SuffixKeeps(t, log, k + 1, img);
    PathIsKept(Replay(t, upto), log[k + 1..], img);
    ReplaySplit(t, log, k + 1);
  }

  lemma {:induction false} PrefixKeeps(t: Table, log: seq<Event>, k: nat, img: string)
    requires k <= |log| && MergesKeep(t, log, img)
    ensures MergesKeep(t, log[..k], img)
  {
    if k < |log| {
      PrefixKeeps(t, log[..|log| - 1], k, img);
      assert log[..|log| - 1][..k] == log[..k];
    } else {
      assert log[..k] == log;
    }
  }

  lemma {:induction false} SuffixKeeps(t: Table, log: seq<Event>, k: nat, img: string)
    requires k <= |log| && MergesKeep(t, log, img)
    ensures MergesKeep(Replay(t, log[..k]), log[k..], img)
  {
    if k < |log| {
      var init, tail := log[..|log| - 1], log[k..];
      SuffixKeeps(t, init, k, img);
      assert init[..k] == log[..k] && init[k..] == tail[..|tail| - 1];
      ReplaySplit(t, init, k);
      ReplaySplit(t, log, k);
    }
  }

  lemma {:induction false} IdleKeeps(t: Table, log: seq<Event>, img: string)
    requires MergesIdle(t, log)
    ensures MergesKeep(t, log, img)
  {
    if log != [] {
      IdleKeeps(t, log[..|log| - 1], img);
    }
  }

  /** From an empty table, creates alone leave no image uncounted. */
  lemma {:induction false} QuietCounts(log: seq<Event>, img: string)
    requires Quiet(log) && img in Replay(map[], log)
    ensures Replay(map[], log)[img].count >= 1
  {
    if log != [] {
      var init := log[..|log| - 1];
      assert log[|log| - 1] in log;
      if img in Replay(map[], init) {
        QuietCounts(init, img);
      }
    }
  }

  lemma {:induction false} PrefixIsIdle(t: Table, log: seq<Event>, k: nat)
    requires k <= |log| && MergesIdle(t, log)
    ensures MergesIdle(t, log[..k])
  {
    if k < |log| {
      PrefixIsIdle(t, log[..|log| - 1], k);
      assert log[..|log| - 1][..k] == log[..k];
    } else {
      assert log[..k] == log;
    }
  }

  /** Last-VM decisions alternate with the rises of the count from zero. */
  lemma {:induction false} DecisionsAlternateWithRises(t: Table, log: seq<Event>, img: string)
    requires TableOk(t) && LogOk(log) && MergesKeep(t, log, img)
    ensures Ruled(t, log, img, Last) + (if Count(Replay(t, log), img) > 0 then 1 else 0)
         == Rises(t, log, img) + (if Count(t, img) > 0 then 1 else 0)
  {
    if log != [] {
      var before := log[..|log| - 1];
      DecisionsAlternateWithRises(t, before, img);
      ReplayOk(t, before);
    }
  }

  // ----- counts as sets of running VMs -----

  datatype VmEvent = Started(vm: string, img: string, path: string) | Stopped(vm: string, img: string)

  /** The commit of a start or a stop. */
  function Commit(e: VmEvent): Event {
    if e.Started? then CreateE(e.img, e.path) else DeleteE(e.img)
  }

  function Erase(evs: seq<VmEvent>): seq<Event> {
    if evs == [] then []
    else
      var e := evs[|evs| - 1];
      Erase(evs[..|evs| - 1]) + [Commit(e)]
  }

  /** The counted VMs with their images, from those that were counted at the start. */
  function Running(start: map<string, string>, evs: seq<VmEvent>): map<string, string> {
    if evs == [] then start
    else
      var before := Running(start, evs[..|evs| - 1]);
      var e := evs[|evs| - 1];
      if e.Started? then before[e.vm := e.img] else before - {e.vm}
  }

  /** Every VM alternates a counted start with a stop from the same image. */
  ghost predicate Alternating(start: map<string, string>, evs: seq<VmEvent>) {
    forall k | 0 <= k < |evs| ::
      var running := Running(start, evs[..k]);
      if evs[k].Started? then evs[k].vm !in running
      else evs[k].vm in running && running[evs[k].vm] == evs[k].img
  }

  function VmsOn(running: map<string, string>, img: string): set<string> {
    set vm | vm in running && running[vm] == img
  }

  lemma VmsOnStep(running: map<string, string>, e: VmEvent, img: string)
    requires if e.Started? then e.vm !in running else e.vm in running && running[e.vm] == e.img
    ensures var now := if e.Started? then running[e.vm := e.img] else running - {e.vm};
            |VmsOn(now, img)| == |VmsOn(running, img)| + (if e.img != img then 0 else if e.Started? then 1 else -1)
  {
    var now := if e.Started? then running[e.vm := e.img] else running - {e.vm};
    if e.img != img {
      assert VmsOn(now, img) == VmsOn(running, img);
    } else if e.Started? {
      assert VmsOn(now, img) == VmsOn(running, img) + {e.vm};
    } else {
      assert VmsOn(now, img) == VmsOn(running, img) - {e.vm};
    }
  }

  lemma AlternatingInit(start: map<string, string>, evs: seq<VmEvent>, k: nat)
    requires Alternating(start, evs) && k <= |evs|
    ensures Alternating(start, evs[..k])
  {
    forall i | 0 <= i < k ensures evs[..k][..i] == evs[..i] {}
  }

  lemma CountStep(t: Table, running: map<string, string>, e: VmEvent, img: string)
    requires if e.Started? then e.vm !in running else e.vm in running && running[e.vm] == e.img
    requires Count(t, img) == |VmsOn(running, img)|
    ensures Count(Apply(t, Commit(e)), img)
      == |VmsOn(if e.Started? then running[e.vm := e.img] else running - {e.vm}, img)|
  {
    VmsOnStep(running, e, img);
    if e.Stopped? && e.img == img {
      assert e.vm in VmsOn(running, img);
    }
  }

  /**
   In an alternating run from a table that counts the VMs running at its start, the count of
   the image is the number of its running VMs.
   */
  lemma {:induction false} CountIsNumberOfRunningVms(t: Table, start: map<string, string>, evs: seq<VmEvent>,
                                                     img: string)
    requires Alternating(start, evs) && Count(t, img) == |VmsOn(start, img)|
    ensures Count(Replay(t, Erase(evs)), img) == |VmsOn(Running(start, evs), img)|
  {
    if evs != [] {
      var before, e := evs[..|evs| - 1], evs[|evs| - 1];
      AlternatingInit(start, evs, |before|);
      CountIsNumberOfRunningVms(t, start, before, img);
      CountStep(Replay(t, Erase(before)), Running(start, before), e, img);
      ReplayAppend(t, Erase(before), Commit(e));
    }
  }

  /**
   In an alternating run every stop finds its association, and it is told "last VM"
   exactly when no other VM of the image is running.
   */
  lemma {:induction false} StopVerdicts(t: Table, start: map<string, string>, evs: seq<VmEvent>, vm: string,
                                        img: string)
    requires Alternating(start, evs) && Count(t, img) == |VmsOn(start, img)|
    requires vm in Running(start, evs) && Running(start, evs)[vm] == img
    ensures Judge(Replay(t, Erase(evs)), img) == if VmsOn(Running(start, evs), img) == {vm} then Last else Shared
  {
    var vms := VmsOn(Running(start, evs), img);
    CountIsNumberOfRunningVms(t, start, evs, img);
    assert vm in vms;
    if |vms| == 1 {
      assert |vms - {vm}| == 0;
      assert vms == {vm};
    }
  }
}
