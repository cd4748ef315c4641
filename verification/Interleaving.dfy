/**
 The interleaving machine: any number of calls, spawned at any time, take atomic
 steps in any order over one table, one file and the locks. The invariant relates
 every thread's private data to the history of commits.
 */
module Interleaving {
  import opened Association
  import opened History
  import opened Calls

  /**
   One call in flight. `img`, `path` and the verdict in `mode` are what Delete
   returned, `snap` is the marshalled table and `read` the bytes a reload read. The
   remaining fields record the history length at which each of these was obtained.
   */
  datatype Thread = Thread(
    mode: Mode, code: Prog,
    img: string, path: string, deletedAt: nat, committedAt: nat,
    snap: Table, snapAt: nat,
    read: Content, readAt: nat, testedAt: nat)

  /**
   `base` is the table loaded at start and `log` the commits since then. `fileAt` is
   the history length that the file shows and `writerAt` the commit of the call that
   wrote it.
   */
  datatype State = State(
    base: Table, assoc: Table, log: seq<Event>,
    file: Content, fileAt: nat, writerAt: nat, touched: bool, failed: bool,
    threads: seq<Thread>)

  /** runservice: the map is empty and the file is merged into it. */
  function Boot(file: Content): State {
    var base := Merged(map[], Decode(file));
    State(base, base, [], file, 0, 0, false, false, [])
  }

  function NewThread(s: State, c: Call): Thread {
    Thread(INITIAL, Code(c), "", "", 0, 0, s.base, 0, Blank, 0, 0)
  }

  // ----- steps -----

  predicate CanTake(threads: seq<Thread>, act: Act) {
    match act
    case Acquire(lock) =>
      forall t | 0 <= t < |threads| ::
        !threads[t].mode.Holds(lock) && (lock == MapMtx ==> ReadMap !in threads[t].mode.held)
    case AcquireRead =>
      forall t | 0 <= t < |threads| :: !threads[t].mode.Holds(MapMtx)
    case _ => true
  }

  predicate Enabled(s: State, t: nat) {
    && t < |s.threads|
    && s.threads[t].code != Return
    && (s.threads[t].code.Then? ==> CanTake(s.threads, s.threads[t].code.act))
  }

  function Answer(s: State, th: Thread, test: Test, coin: bool): bool {
    match test
    case Chance => coin
    case TableEmpty => s.assoc == map[]
    case Hit => th.mode.ruling != Found(Missing)
    case PathEmpty => th.path == ""
    case IsLastVM => th.mode.ruling != Found(Shared)
  }

  function Branched(s: State, th: Thread, coin: bool): Thread
    requires th.code.Branch?
  {
    if Answer(s, th, th.code.test, coin) then
      if th.code.test == TableEmpty
      then th.(code := th.code.yes, mode := th.mode.(stage := Reloading), testedAt := |s.log|, read := Blank,
          readAt := |s.log|)
      else th.(code := th.code.yes)
    else th.(code := th.code.no)
  }

  /** The verdict of a Delete that commits now. */
  function VerdictOf(s: State, act: Act): Verdict {
    if act.DeleteCommit? then Judge(s.assoc, act.img) else Missing
  }

  /** What one act makes of the acting thread's variables. */
  function Moved(s: State, th: Thread): Thread
    requires th.code.Then?
  {
    var v := VerdictOf(s, th.code.act);
    var moved := th.(code := th.code.next, mode := After(th.mode, th.code.act, v));
    match th.code.act
    case CreateCommit(_, _) => moved.(committedAt := |s.log| + 1)
    case DeleteCommit(img) =>
      moved.(img := img, path := if v == Missing then "" else PathOf(s.assoc, img),
             deletedAt := |s.log| + 1, committedAt := |s.log| + 1)
    case Marshal => moved.(snap := s.assoc, snapAt := |s.log|)
    case ReadFile => moved.(read := s.file, readAt := if s.file == Blank then |s.log| else s.fileAt)
    case _ => moved
  }

  function EventOf(th: Thread): seq<Event>
    requires th.code.Then?
  {
    match th.code.act
    case CreateCommit(img, path) => [CreateE(img, path)]
    case DeleteCommit(img) => [DeleteE(img)]
    case MergeFile => [MergeE(Decode(th.read))]
    case _ => []
  }

  /** The effect of one act on the shared table and file. */
  function Effect(s: State, th: Thread): State
    requires th.code.Then?
  {
    match th.code.act
    case CreateCommit(img, path) => s.(assoc := Created(s.assoc, img, path), log := s.log + EventOf(th))
    case DeleteCommit(img) => s.(assoc := Deleted(s.assoc, img), log := s.log + EventOf(th))
    case MergeFile => s.(assoc := Merged(s.assoc, Decode(th.read)), log := s.log + EventOf(th))
    case Truncate => s.(file := Blank, touched := true)
    case WriteBytes => s.(file := Encoded(th.snap), fileAt := th.snapAt, writerAt := th.committedAt)
    case SaveFailed => s.(failed := true)
    case _ => s
  }

  function Step(s: State, t: nat, coin: bool): State
    requires Enabled(s, t)
  {
    var th := s.threads[t];
    if th.code.Then?
    then Effect(s, th).(threads := s.threads[t := Moved(s, th)])
    else s.(threads := s.threads[t := Branched(s, th, coin)])
  }

  datatype Action = Spawn(call: Call) | Tick(t: nat, coin: bool)

  /** A blocked or finished thread that is scheduled does nothing. */
  function Next(s: State, a: Action): State {
    match a
    case Spawn(c) => s.(threads := s.threads + [NewThread(s, c)])
    case Tick(t, coin) => if Enabled(s, t) then Step(s, t, coin) else s
  }

  function Run(s: State, actions: seq<Action>): State {
    if actions == [] then s else Next(Run(s, actions[..|actions| - 1]), actions[|actions| - 1])
  }

  // ----- invariant -----

  /** A reload started on an empty table and nothing but creates has been committed since. */
  ghost predicate ReloadOk(base: Table, log: seq<Event>, th: Thread) {
    && th.mode.Holds(WlaMtx)
    && th.testedAt <= |log|
    && Replay(base, log[..th.testedAt]) == map[]
    && Quiet(log[th.testedAt..])
  }

  /** The thread's own Delete is the last Delete, and its verdict and path are those of the table it met. */
  ghost predicate RulingOk(base: Table, log: seq<Event>, th: Thread) {
    && 1 <= th.deletedAt <= |log|
    && log[th.deletedAt - 1] == DeleteE(th.img)
    && Quiet(log[th.deletedAt..])
    && var met := Replay(base, log[..th.deletedAt - 1]);
    && th.mode.ruling == Found(Judge(met, th.img))
    && th.path == (if Judge(met, th.img) == Missing then "" else PathOf(met, th.img))
  }

  ghost predicate ThreadOk(base: Table, log: seq<Event>, th: Thread) {
    && Disciplined(th.mode, th.code)
    && (th.mode.stage == Truncated ==> th.mode.Holds(MapMtx))
    && th.snapAt <= |log| && th.snap == Replay(base, log[..th.snapAt])
    && th.committedAt <= |log| && (th.mode.recent ==> th.committedAt <= th.snapAt)
    && th.readAt <= |log| && (th.read == Blank || th.read == Encoded(Replay(base, log[..th.readAt])))
    && (th.mode.stage == Reloading ==> ReloadOk(base, log, th))
    && (th.mode.ruling != Undecided && th.mode.Holds(WlaMtx) ==> RulingOk(base, log, th))
  }

  ghost predicate Exclusive(threads: seq<Thread>) {
    forall t, u, lock: Lock | 0 <= t < |threads| && 0 <= u < |threads| && t != u && threads[t].mode.Holds(lock) ::
      !threads[u].mode.Holds(lock) && (lock == MapMtx ==> ReadMap !in threads[u].mode.held)
  }

  /** The file shows the table of an earlier or the present moment, never older than its writer's own commit. */
  ghost predicate FileOk(s: State) {
    && s.writerAt <= s.fileAt <= |s.log|
    && (s.file == Blank || s.file == Encoded(Replay(s.base, s.log[..s.fileAt])))
  }

  /** An empty file: nothing was ever written, a write failed, or a write is under way. */
  ghost predicate BlankOk(s: State) {
    s.file == Blank ==>
      || s.failed || (!s.touched && s.base == map[])
      || exists t :: 0 <= t < |s.threads| && s.threads[t].mode.stage == Truncated
  }

  ghost predicate Inv(s: State) {
    && TableOk(s.base) && LogOk(s.log)
    && s.assoc == Replay(s.base, s.log)
    && (forall t | 0 <= t < |s.threads| :: ThreadOk(s.base, s.log, s.threads[t]))
    && Exclusive(s.threads)
    && FileOk(s)
    && BlankOk(s)
  }

  // ----- preservation -----

  /** A create by anyone else, or any commit by the holder of wlaMtx, leaves a thread's facts true. */
  lemma OtherThreadOk(base: Table, log: seq<Event>, e: Event, th: Thread)
    requires ThreadOk(base, log, th) && (e.CreateE? || !th.mode.Holds(WlaMtx))
    ensures ThreadOk(base, log + [e], th)
  {
    var longer := log + [e];
    assert longer[..th.snapAt] == log[..th.snapAt];
    assert longer[..th.readAt] == log[..th.readAt];
    if th.mode.stage == Reloading {
      assert longer[..th.testedAt] == log[..th.testedAt];
      assert longer[th.testedAt..] == log[th.testedAt..] + [e];
    }
    if th.mode.ruling != Undecided && th.mode.Holds(WlaMtx) {
      assert longer[..th.deletedAt - 1] == log[..th.deletedAt - 1];
      assert longer[th.deletedAt..] == log[th.deletedAt..] + [e];
    }
  }

  /** A thread whose mode and code alone change, with no fact newly claimed by the mode. */
  lemma {:induction false} ModeChange(base: Table, log: seq<Event>, th: Thread, m: Mode, code: Prog)
    requires ThreadOk(base, log, th) && Disciplined(m, code)
    requires m.stage == Truncated ==> m.Holds(MapMtx)
    requires m.recent ==> th.mode.recent
    requires m.stage == Reloading ==> th.mode.stage == Reloading && m.Holds(WlaMtx)
    requires m.ruling != Undecided && m.Holds(WlaMtx) ==> m.ruling == th.mode.ruling && th.mode.Holds(WlaMtx)
    ensures ThreadOk(base, log, th.(mode := m, code := code))
  {
  }

  lemma NoNewClaim(m: Mode, a: Act)
    requires Allowed(m, a) && !a.CreateCommit? && !a.DeleteCommit? && a != Marshal
    requires m.stage == Truncated ==> m.Holds(MapMtx)
    ensures var after := After(m, a, Missing);
      && (after.stage == Truncated ==> after.Holds(MapMtx))
      && (after.recent ==> m.recent)
      && (after.stage == Reloading && m.Holds(WlaMtx) ==> m.stage == Reloading && after.Holds(WlaMtx))
      && (after.stage == Reloading ==> m.stage == Reloading)
      && (after.ruling != Undecided && after.Holds(WlaMtx) ==> after.ruling == m.ruling && m.Holds(WlaMtx))
  {
  }

  lemma MarshalOk(s: State, th: Thread)
    requires s.assoc == Replay(s.base, s.log) && ThreadOk(s.base, s.log, th)
    requires th.code.Then? && th.code.act == Marshal
    ensures ThreadOk(s.base, s.log, Moved(s, th))
  {
    assert s.log[..|s.log|] == s.log;
    assert Disciplined(After(th.mode, Marshal, Missing), th.code.next);
    assert Moved(s, th).mode == th.mode.(recent := true);
  }

  /** The variables after an act that is not a commit or a marshal, before the mode changes. */
  lemma ReadOk(s: State, th: Thread) returns (taken: Thread)
    requires FileOk(s) && ThreadOk(s.base, s.log, th)
    requires th.code.Then? && EventOf(th) == [] && th.code.act != Marshal
    ensures ThreadOk(s.base, s.log, taken) && taken.mode == th.mode
    ensures Moved(s, th) == taken.(mode := After(th.mode, th.code.act, Missing), code := th.code.next)
  {
    taken := th;
    if th.code.act == ReadFile {
      taken := th.(read := s.file, readAt := if s.file == Blank then |s.log| else s.fileAt);
    }
  }

  /** The acts that commit nothing. */
  lemma ActorOkNoCommit(s: State, th: Thread)
    requires FileOk(s) && s.assoc == Replay(s.base, s.log) && ThreadOk(s.base, s.log, th)
    requires th.code.Then? && EventOf(th) == []
    ensures ThreadOk(s.base, s.log, Moved(s, th))
  {
    if th.code.act == Marshal {
      MarshalOk(s, th);
    } else {
      var taken := ReadOk(s, th);
      NoNewClaim(th.mode, th.code.act);
      ModeChange(s.base, s.log, taken, After(th.mode, th.code.act, Missing), th.code.next);
    }
  }

  lemma ActorOkCreate(s: State, th: Thread)
    requires s.assoc == Replay(s.base, s.log) && ThreadOk(s.base, s.log, th)
    requires th.code.Then? && th.code.act.CreateCommit?
    ensures ThreadOk(s.base, s.log + EventOf(th), Moved(s, th))
  {
    OtherThreadOk(s.base, s.log, EventOf(th)[0], th);
  }

  /** The acting Delete rules on the table it meets. */
  lemma DeleteRules(s: State, th: Thread)
    requires s.assoc == Replay(s.base, s.log)
    requires th.code.Then? && th.code.act.DeleteCommit?
    ensures RulingOk(s.base, s.log + EventOf(th), Moved(s, th))
  {
    var longer := s.log + [DeleteE(th.code.act.img)];
    assert longer[..|s.log|] == s.log && longer[|s.log| + 1..] == [];
  }

  lemma ActorOkDelete(s: State, th: Thread)
    requires s.assoc == Replay(s.base, s.log) && ThreadOk(s.base, s.log, th)
    requires th.code.Then? && th.code.act.DeleteCommit?
    ensures ThreadOk(s.base, s.log + EventOf(th), Moved(s, th))
  {
    DeleteRules(s, th);
    var longer, v, k := s.log + EventOf(th), VerdictOf(s, th.code.act), th.code.next;
    assert longer[..th.snapAt] == s.log[..th.snapAt];
    assert longer[..th.readAt] == s.log[..th.readAt];
    assert Disciplined(th.mode, Then(th.code.act, k));
    assert Disciplined(After(th.mode, th.code.act, v), k);
    assert Moved(s, th).mode == th.mode.(ruling := Found(v), stage := if v == Missing then Idle else Saving,
        recent := false);
  }

  lemma ActorOkMerge(s: State, th: Thread)
    requires s.assoc == Replay(s.base, s.log) && ThreadOk(s.base, s.log, th)
    requires th.code.Then? && th.code.act.MergeFile? && th.mode.ruling == Undecided
    ensures ThreadOk(s.base, s.log + EventOf(th), Moved(s, th))
  {
    var longer := s.log + EventOf(th);
    assert longer[..th.snapAt] == s.log[..th.snapAt];
    assert longer[..th.readAt] == s.log[..th.readAt];
  }

  /** A thread that takes a lock found it free; no other act adds to what it holds. */
  lemma OnlyFreeLocksAreTaken(threads: seq<Thread>, act: Act, m: Mode, v: Verdict, u: nat)
    requires CanTake(threads, act) && u < |threads|
    ensures forall lock: Lock | After(m, act, v).Holds(lock) && !m.Holds(lock) ::
      !threads[u].mode.Holds(lock) && (lock == MapMtx ==> ReadMap !in threads[u].mode.held)
    ensures ReadMap in After(m, act, v).held && ReadMap !in m.held ==> !threads[u].mode.Holds(MapMtx)
  {
    match act
    case Acquire(lock) =>
    case AcquireRead =>
    case _ =>
  }

  lemma MutualExclusion(s: State, t: nat)
    requires Exclusive(s.threads) && Enabled(s, t) && s.threads[t].code.Then?
    ensures Exclusive(s.threads[t := Moved(s, s.threads[t])])
  {
    var th := s.threads[t];
    var moved := Moved(s, th);
    assert moved.mode == After(th.mode, th.code.act, VerdictOf(s, th.code.act));
    forall u: nat, lock: Lock | u < |s.threads| && u != t
      ensures moved.mode.Holds(lock) ==>
        !s.threads[u].mode.Holds(lock) && (lock == MapMtx ==> ReadMap !in s.threads[u].mode.held)
      ensures s.threads[u].mode.Holds(lock) ==>
        !moved.mode.Holds(lock) && (lock == MapMtx ==> ReadMap !in moved.mode.held)
    {
      OnlyFreeLocksAreTaken(s.threads, th.code.act, th.mode, VerdictOf(s, th.code.act), u);
      assert th.mode.Holds(lock) ==> !s.threads[u].mode.Holds(lock);
    }
  }

  lemma HeldUnchanged(threads: seq<Thread>, t: nat, th: Thread)
    requires t < |threads| && Exclusive(threads) && th.mode.held == threads[t].mode.held
    ensures Exclusive(threads[t := th])
  {
    var after := threads[t := th];
    forall u, w, lock: Lock | 0 <= u < |after| && 0 <= w < |after| && u != w && after[u].mode.Holds(lock)
      ensures !after[w].mode.Holds(lock) && (lock == MapMtx ==> ReadMap !in after[w].mode.held)
    {
      assert threads[u].mode.Holds(lock);
    }
  }

  /** The act of thread `t` keeps the history and every thread's facts. */
  ghost predicate Acted(s: State, t: nat)
    requires t < |s.threads| && s.threads[t].code.Then?
  {
    var after := Effect(s, s.threads[t]);
    && LogOk(after.log) && after.base == s.base && after.assoc == Replay(s.base, after.log)
    && (forall u | 0 <= u < |s.threads| && u != t :: ThreadOk(s.base, after.log, s.threads[u]))
    && ThreadOk(s.base, after.log, Moved(s, s.threads[t]))
  }

  lemma EffectCommits(s: State, th: Thread)
    requires th.code.Then? && EventOf(th) != []
    ensures var after := Effect(s, th);
      && EventOf(th) == [EventOf(th)[0]] && after.log == s.log + EventOf(th) && after.base == s.base
      && after.file == s.file && after.fileAt == s.fileAt && after.writerAt == s.writerAt
      && after.assoc == Apply(s.assoc, EventOf(th)[0])
  {
    match th.code.act
    case CreateCommit(_, _) =>
    case DeleteCommit(_) =>
    case MergeFile =>
  }

  lemma EventOk(base: Table, log: seq<Event>, th: Thread)
    requires TableOk(base) && LogOk(log) && ThreadOk(base, log, th) && th.code.Then?
    ensures LogOk(EventOf(th))
  {
    if th.code.act.MergeFile? {
      ReplayOk(base, log[..th.readAt]);
    }
  }

  /** A commit appends one well-formed event, and the table is what that event makes of it. */
  lemma CommitReplays(s: State, th: Thread)
    requires TableOk(s.base) && LogOk(s.log) && s.assoc == Replay(s.base, s.log) && ThreadOk(s.base, s.log, th)
    requires th.code.Then? && EventOf(th) != []
    ensures var after := Effect(s, th);
      && LogOk(after.log) && after.base == s.base && after.assoc == Replay(s.base, after.log)
      && after.log == s.log + EventOf(th)
  {
    EffectCommits(s, th);
    EventOk(s.base, s.log, th);
    ReplayAppend(s.base, s.log, EventOf(th)[0]);
  }

  lemma ActorOkCommit(s: State, th: Thread)
    requires s.assoc == Replay(s.base, s.log) && ThreadOk(s.base, s.log, th)
    requires th.code.Then? && EventOf(th) != []
    ensures ThreadOk(s.base, s.log + EventOf(th), Moved(s, th))
  {
    match th.code.act
    case CreateCommit(_, _) => ActorOkCreate(s, th);
    case DeleteCommit(_) => ActorOkDelete(s, th);
    case MergeFile => ActorOkMerge(s, th);
  }

  /** Only the holder of wlaMtx deletes or merges, so everybody else's facts survive each commit. */
  lemma CommitStep(s: State, t: nat)
    requires Inv(s) && Enabled(s, t) && s.threads[t].code.Then? && EventOf(s.threads[t]) != []
    ensures Acted(s, t)
  {
    var th := s.threads[t];
    var e := EventOf(th)[0];
    assert ThreadOk(s.base, s.log, th) && EventOf(th) == [e];
    CommitReplays(s, th);
    ActorOkCommit(s, th);
    forall u | 0 <= u < |s.threads| && u != t ensures ThreadOk(s.base, s.log + [e], s.threads[u]) {
      assert ThreadOk(s.base, s.log, s.threads[u]);
      OtherThreadOk(s.base, s.log, e, s.threads[u]);
    }
  }

  lemma NoCommitNoChange(s: State, th: Thread)
    requires th.code.Then? && EventOf(th) == []
    ensures var after := Effect(s, th); after.log == s.log && after.base == s.base && after.assoc == s.assoc
  {
  }

  lemma NoCommitStep(s: State, t: nat)
    requires Inv(s) && Enabled(s, t) && s.threads[t].code.Then? && EventOf(s.threads[t]) == []
    ensures Acted(s, t)
  {
    NoCommitNoChange(s, s.threads[t]);
    ActorOkNoCommit(s, s.threads[t]);
  }

  lemma ActStep(s: State, t: nat)
    requires Inv(s) && Enabled(s, t) && s.threads[t].code.Then?
    ensures Acted(s, t)
  {
    if EventOf(s.threads[t]) != [] {
      CommitStep(s, t);
    } else {
      NoCommitStep(s, t);
    }
  }

  /** Commits leave the file alone, and it shows the same moment of the longer history. */
  lemma FileAtCommit(s: State, th: Thread)
    requires FileOk(s) && th.code.Then? && EventOf(th) != []
    ensures FileOk(Effect(s, th))
  {
    EffectCommits(s, th);
    assert (s.log + EventOf(th))[..s.fileAt] == s.log[..s.fileAt];
  }

  lemma FileStep(s: State, th: Thread)
    requires FileOk(s) && th.code.Then? && Allowed(th.mode, th.code.act)
    requires th.snapAt <= |s.log| && th.snap == Replay(s.base, s.log[..th.snapAt])
    requires th.mode.recent ==> th.committedAt <= th.snapAt
    ensures FileOk(Effect(s, th))
  {
    if EventOf(th) != [] {
      FileAtCommit(s, th);
    }
  }

  /** A truncated file is explained by its truncating thread until that thread writes or fails. */
  lemma TruncatingThread(th: Thread, s: State, coin: bool)
    requires th.mode.stage == Truncated && Disciplined(th.mode, th.code)
    ensures th.code.Branch? ==> Branched(s, th, coin).mode.stage == Truncated
    ensures th.code.Then? ==>
      Moved(s, th).mode.stage == Truncated || Effect(s, th).failed || Effect(s, th).file != Blank
  {
  }

  lemma BlankStep(s: State, t: nat, coin: bool)
    requires BlankOk(s) && Enabled(s, t) && Disciplined(s.threads[t].mode, s.threads[t].code)
    ensures BlankOk(Step(s, t, coin))
  {
    var th, after := s.threads[t], Step(s, t, coin);
    if after.file == Blank && !after.failed && (after.touched || s.base != map[]) {
      if th.code.Then? && th.code.act == Truncate {
        assert after.threads[t].mode.stage == Truncated;
      } else {
        assert s.file == Blank;
        var u :| 0 <= u < |s.threads| && s.threads[u].mode.stage == Truncated;
        if u == t {
          TruncatingThread(th, s, coin);
        }
        assert after.threads[u].mode.stage == Truncated;
      }
    }
  }

  /** Delete returns the empty path exactly when it found no live association: stored paths are never empty. */
  lemma EmptyPathMeansMiss(base: Table, log: seq<Event>, th: Thread)
    requires TableOk(base) && LogOk(log) && RulingOk(base, log, th)
    ensures th.path == "" <==> th.mode.ruling == Found(Missing)
  {
    ReplayOk(base, log[..th.deletedAt - 1]);
  }

  /** The branch that the thread's variables select is the one that the discipline follows. */
  lemma BranchDisciplined(s: State, th: Thread, coin: bool)
    requires TableOk(s.base) && LogOk(s.log) && ThreadOk(s.base, s.log, th) && th.code.Branch?
    ensures Disciplined(Branched(s, th, coin).mode, Branched(s, th, coin).code)
  {
    if th.code.test == PathEmpty {
      EmptyPathMeansMiss(s.base, s.log, th);
    }
  }

  /** A successful emptiness test opens a reload. */
  lemma ReloadOpens(s: State, th: Thread, coin: bool)
    requires s.assoc == map[] == Replay(s.base, s.log)
    requires ThreadOk(s.base, s.log, th) && th.code.Branch? && th.code.test == TableEmpty
    ensures ThreadOk(s.base, s.log, Branched(s, th, coin))
  {
    assert s.log[..|s.log|] == s.log && s.log[|s.log|..] == [];
  }

  lemma BranchStep(s: State, th: Thread, coin: bool)
    requires TableOk(s.base) && LogOk(s.log) && s.assoc == Replay(s.base, s.log)
    requires ThreadOk(s.base, s.log, th) && th.code.Branch?
    ensures ThreadOk(s.base, s.log, Branched(s, th, coin))
    ensures Branched(s, th, coin).mode.held == th.mode.held
  {
    if th.code.test == TableEmpty && s.assoc == map[] {
      ReloadOpens(s, th, coin);
    } else {
      BranchDisciplined(s, th, coin);
      ModeChange(s.base, s.log, th, th.mode, Branched(s, th, coin).code);
    }
  }

  lemma ThreadsOk(s: State, after: State, t: nat, moved: Thread)
    requires t < |s.threads| && after.base == s.base && after.threads == s.threads[t := moved]
    requires forall u | 0 <= u < |s.threads| && u != t :: ThreadOk(s.base, after.log, s.threads[u])
    requires ThreadOk(s.base, after.log, moved)
    ensures forall u | 0 <= u < |after.threads| :: ThreadOk(after.base, after.log, after.threads[u])
  {
  }

  lemma StepKeepsInv(s: State, t: nat, coin: bool)
    requires Inv(s) && Enabled(s, t)
    ensures Inv(Step(s, t, coin))
  {
    var th, after := s.threads[t], Step(s, t, coin);
    assert ThreadOk(s.base, s.log, th);
    BlankStep(s, t, coin);
    if th.code.Branch? {
      BranchStep(s, th, coin);
      ThreadsOk(s, after, t, Branched(s, th, coin));
      HeldUnchanged(s.threads, t, Branched(s, th, coin));
    } else {
      ActStep(s, t);
      ThreadsOk(s, after, t, Moved(s, th));
      MutualExclusion(s, t);
      FileStep(s, th);
    }
  }

  lemma SpawnKeepsInv(s: State, c: Call)
    requires Inv(s)
    ensures Inv(Next(s, Spawn(c)))
  {
    EveryCallIsDisciplined(c);
    var after := Next(s, Spawn(c));
    assert s.log[..0] == [];
    forall t | 0 <= t < |s.threads| ensures after.threads[t] == s.threads[t] {}
    assert after.threads[|s.threads|] == NewThread(s, c);
  }

  lemma {:induction false} RunKeepsInv(s: State, actions: seq<Action>)
    requires Inv(s)
    ensures Inv(Run(s, actions))
  {
    if actions != [] {
      var before := Run(s, actions[..|actions| - 1]);
      RunKeepsInv(s, actions[..|actions| - 1]);
      match actions[|actions| - 1]
      case Spawn(c) => SpawnKeepsInv(before, c);
      case Tick(t, coin) =>
        if Enabled(before, t) {
          StepKeepsInv(before, t, coin);
        }
    }
  }

  /** The file at start is empty or holds a table of this program. */
  lemma BootInv(file: Content)
    requires TableOk(Decode(file))
    ensures Inv(Boot(file))
  {
    assert Boot(file).log[..0] == [];
  }

  /** The invariant holds in every state of every interleaved run. */
  lemma {:induction false} EveryRunKeepsInv(file: Content, actions: seq<Action>)
    requires TableOk(Decode(file))
    ensures Inv(Run(Boot(file), actions))
  {
    BootInv(file);
    RunKeepsInv(Boot(file), actions);
  }

  ghost predicate Reachable(s: State) {
    exists file, actions :: TableOk(Decode(file)) && s == Run(Boot(file), actions)
  }

  lemma ReachableInv(s: State)
    requires Reachable(s)
    ensures Inv(s)
  {
    var file, actions :| TableOk(Decode(file)) && s == Run(Boot(file), actions);
    EveryRunKeepsInv(file, actions);
  }
}
