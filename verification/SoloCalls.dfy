/**
 One call at a time: what the interleaving machine makes of a call that runs while no
 other call holds a lock. Its locks and steps drop out, and what is left is the serial
 call: a Start that counts, a Stop that tears down, a Prepare that looks a path up.
 */
module SoloCalls {
  import opened Common
  import opened Association
  import opened Calls
  import opened Interleaving
  import W = HostedRuns
  import V = Volumes
  import G = Agent
  import L = LockTheorems
  import R = AgentRuns
  import X = AgentAnswers

  // ----- the meaning of a program -----

  /** What the outside decides at one step: an outcome, what an external step does, whether a teardown call works. */
  datatype Choice = Choice(coin: bool, effect: W.Effect, works: bool)

  /** What calls share, and what a call remembers. */
  datatype Store = Store(table: Table, file: Content, failed: bool, host: V.Host)

  datatype Vars = Vars(ruling: Ruling, img: string, path: string, snap: Table, read: Content)

  function StoreOf(w: W.World): Store {
    Store(w.state.assoc, w.state.file, w.state.failed, w.host)
  }

  function VarsOf(th: Thread): Vars {
    Vars(th.mode.ruling, th.img, th.path, th.snap, th.read)
  }

  function StoreAfter(s: Store, v: Vars, a: Act, c: Choice): Store {
    match a
    case CreateCommit(img, path) => s.(table := Created(s.table, img, path))
    case DeleteCommit(img) => s.(table := Deleted(s.table, img))
    case MergeFile => s.(table := Merged(s.table, Decode(v.read)))
    case Truncate => s.(file := Blank)
    case WriteBytes => s.(file := Encoded(v.snap))
    case SaveFailed => s.(failed := true)
    case UnmountImage => s.(host := V.Unmount(s.host, v.path, c.works))
    case CloseImage => s.(host := V.DeleteVolume(s.host, v.img, c.works))
    case External => s.(host := W.HostBy(s.host, c.effect))
    case _ => s
  }

  function VarsAfter(s: Store, v: Vars, a: Act): Vars {
    match a
    case DeleteCommit(img) =>
      var verdict := Judge(s.table, img);
      v.(ruling := Found(verdict), img := img, path := if verdict == Missing then "" else PathOf(s.table, img))
    case Marshal => v.(snap := s.table)
    case ReadFile => v.(read := s.file)
    case _ => v
  }

  predicate Holds(s: Store, v: Vars, test: Test, c: Choice) {
    match test
    case Chance => c.coin
    case TableEmpty => s.table == map[]
    case Hit => v.ruling != Found(Missing)
    case PathEmpty => v.path == ""
    case IsLastVM => v.ruling != Found(Shared)
  }

  /** A program run step by step on the choices from `i` on, without any lock; None if they run out. */
  function Meaning(p: Prog, s: Store, v: Vars, cs: seq<Choice>, i: nat): Option<Store>
    decreases p
  {
    match p
    case Return => Some(s)
    case Then(a, k) =>
      if i >= |cs| then None else Meaning(k, StoreAfter(s, v, a, cs[i]), VarsAfter(s, v, a), cs, i + 1)
    case Branch(test, y, n) =>
      if i >= |cs| then None
      else if Holds(s, v, test, cs[i])
      then Meaning(y, s, if test == TableEmpty then v.(read := Blank) else v, cs, i + 1)
      else Meaning(n, s, v, cs, i + 1)
  }

  // ----- a thread of the machine that runs alone -----

  /** No other thread holds a lock. */
  ghost predicate OthersFree(s: State, t: nat) {
    t < |s.threads| && forall u | 0 <= u < |s.threads| && u != t :: s.threads[u].mode.held == {}
  }

  function MoveOf(t: nat, c: Choice): W.Move {
    W.Move(Tick(t, c.coin), c.effect, c.works)
  }

  /** The machine steps the one thread by the choices from `i` on. */
  function Alone(w: W.World, t: nat, cs: seq<Choice>, i: nat): W.World
    decreases |cs| - i
  {
    if i >= |cs| then w else Alone(W.After(w, MoveOf(t, cs[i])), t, cs, i + 1)
  }

  function MovesOf(t: nat, cs: seq<Choice>): seq<W.Move> {
    seq(|cs|, i requires 0 <= i < |cs| => MoveOf(t, cs[i]))
  }

  /** Running alone is one of the runs of the machine on its host. */
  lemma {:induction false} AloneIsARun(w: W.World, t: nat, cs: seq<Choice>, i: nat)
    requires i <= |cs|
    ensures Alone(W.Run(w, MovesOf(t, cs[..i])), t, cs, i) == W.Run(w, MovesOf(t, cs))
    decreases |cs| - i
  {
    if i < |cs| {
      var moves := MovesOf(t, cs[..i + 1]);
      assert moves[..i] == MovesOf(t, cs[..i]);
      AloneIsARun(w, t, cs, i + 1);
    } else {
      assert cs[..i] == cs;
    }
  }

  /** Alone, a thread that has not returned is never blocked. */
  lemma NeverBlocked(s: State, t: nat)
    requires Inv(s) && OthersFree(s, t) && s.threads[t].code != Return
    ensures Enabled(s, t)
  {
    var th := s.threads[t];
    assert ThreadOk(s.base, s.log, th);
    if th.code.Then? {
      assert Disciplined(th.mode, Then(th.code.act, th.code.next));
    }
  }

  lemma StaysAlone(s: State, t: nat, coin: bool)
    requires Inv(s) && OthersFree(s, t) && s.threads[t].code != Return
    ensures Inv(Next(s, Tick(t, coin))) && OthersFree(Next(s, Tick(t, coin)), t)
  {
    NeverBlocked(s, t);
    StepKeepsInv(s, t, coin);
  }

  lemma ActVars(w: W.World, th: Thread)
    requires th.code.Then?
    ensures Moved(w.state, th).code == th.code.next
    ensures VarsOf(Moved(w.state, th)) == VarsAfter(StoreOf(w), VarsOf(th), th.code.act)
  {
  }

  lemma ActTable(w: W.World, th: Thread, c: Choice)
    requires th.code.Then?
    ensures Effect(w.state, th).assoc == StoreAfter(StoreOf(w), VarsOf(th), th.code.act, c).table
  {
    match th.code.act
    case CreateCommit(_, _) =>
    case DeleteCommit(_) =>
    case MergeFile =>
    case _ =>
  }

  lemma ActFile(w: W.World, th: Thread, c: Choice)
    requires th.code.Then?
    ensures var s := StoreAfter(StoreOf(w), VarsOf(th), th.code.act, c);
      Effect(w.state, th).file == s.file && Effect(w.state, th).failed == s.failed
  {
    match th.code.act
    case Truncate =>
    case WriteBytes =>
    case SaveFailed =>
    case _ =>
  }

  lemma ActHost(w: W.World, t: nat, c: Choice)
    requires Enabled(w.state, t) && w.state.threads[t].code.Then?
    ensures var th := w.state.threads[t];
      W.HostAfter(w, MoveOf(t, c)) == StoreAfter(StoreOf(w), VarsOf(th), th.code.act, c).host
  {
  }

  lemma ActStore(w: W.World, t: nat, c: Choice)
    requires Enabled(w.state, t) && w.state.threads[t].code.Then?
    ensures var th := w.state.threads[t];
      StoreOf(W.After(w, MoveOf(t, c))) == StoreAfter(StoreOf(w), VarsOf(th), th.code.act, c)
  {
    ActTable(w, w.state.threads[t], c);
    ActFile(w, w.state.threads[t], c);
    ActHost(w, t, c);
    assert W.After(w, MoveOf(t, c)).state
      == Effect(w.state, w.state.threads[t]).(threads := w.state.threads[t := Moved(w.state, w.state.threads[t])]);
  }

  lemma ActAlone(w: W.World, t: nat, c: Choice)
    requires Inv(w.state) && OthersFree(w.state, t) && w.state.threads[t].code.Then?
    ensures var after := W.After(w, MoveOf(t, c));
      var s, v, code := StoreOf(w), VarsOf(w.state.threads[t]), w.state.threads[t].code;
      && Inv(after.state) && OthersFree(after.state, t) && after.state.threads[t].code == code.next
      && StoreOf(after) == StoreAfter(s, v, code.act, c)
      && VarsOf(after.state.threads[t]) == VarsAfter(s, v, code.act)
  {
    NeverBlocked(w.state, t);
    StaysAlone(w.state, t, c.coin);
    ActStore(w, t, c);
    ActVars(w, w.state.threads[t]);
    assert W.After(w, MoveOf(t, c)).state.threads[t] == Moved(w.state, w.state.threads[t]);
  }

  lemma BranchAlone(w: W.World, t: nat, c: Choice)
    requires Inv(w.state) && OthersFree(w.state, t) && w.state.threads[t].code.Branch?
    ensures var after := W.After(w, MoveOf(t, c));
      var s, v, code := StoreOf(w), VarsOf(w.state.threads[t]), w.state.threads[t].code;
      && Inv(after.state) && OthersFree(after.state, t) && StoreOf(after) == s
      && after.state.threads[t].code == (if Holds(s, v, code.test, c) then code.yes else code.no)
      && VarsOf(after.state.threads[t])
           == if Holds(s, v, code.test, c) && code.test == TableEmpty then v.(read := Blank) else v
  {
    NeverBlocked(w.state, t);
    StaysAlone(w.state, t, c.coin);
    assert W.After(w, MoveOf(t, c)).state.threads[t] == Branched(w.state, w.state.threads[t], c.coin);
  }

  lemma ReturnedStays(w: W.World, t: nat, c: Choice)
    requires t < |w.state.threads| && w.state.threads[t].code == Return
    ensures W.After(w, MoveOf(t, c)) == w
  {
  }

  /**
   A thread that runs alone returns exactly when the choices suffice for its program, and
   then table, file and host are those of the meaning of the program: locks make no
   difference, and every step is taken.
   */
  lemma {:induction false} AloneIsMeaning(w: W.World, t: nat, cs: seq<Choice>, i: nat)
    requires Inv(w.state) && OthersFree(w.state, t) && i <= |cs|
    ensures var last := Alone(w, t, cs, i);
      var meaning := Meaning(w.state.threads[t].code, StoreOf(w), VarsOf(w.state.threads[t]), cs, i);
      && t < |last.state.threads|
      && (last.state.threads[t].code == Return <==> meaning.Some?)
      && (meaning.Some? ==> StoreOf(last) == meaning.value)
    decreases |cs| - i
  {
    var code := w.state.threads[t].code;
    if i < |cs| {
      match code {
        case Return => ReturnedStays(w, t, cs[i]);
        case Then(_, _) => ActAlone(w, t, cs[i]);
        case Branch(_, _, _) => BranchAlone(w, t, cs[i]);
      }
      AloneIsMeaning(W.After(w, MoveOf(t, cs[i])), t, cs, i + 1);
    }
  }

  // ----- saving -----

  /** Every outcome is good; every teardown call works, or none does. */
  ghost predicate Lucky(cs: seq<Choice>) {
    forall c | c in cs :: c.coin
  }

  ghost predicate AllWork(cs: seq<Choice>, works: bool) {
    forall c | c in cs :: c.works == works
  }

  function StoreSaved(s: Store, snap: Table, f: SaveFaults): Store {
    s.(file := Saved(s.file, snap, f), failed := s.failed || !f.Clean())
  }

  lemma WriteMeans(k: Prog, s: Store, v: Vars, cs: seq<Choice>, i: nat) returns (f: SaveFaults, j: nat)
    requires Meaning(WriteFile(k, k), s, v, cs, i).Some?
    ensures !f.marshalFails && !f.badPermissions && (Lucky(cs) ==> f.Clean())
    ensures Meaning(WriteFile(k, k), s, v, cs, i) == Meaning(k, StoreSaved(s, v.snap, f), v, cs, j)
  {
    assert cs[i] in cs;
    if cs[i].coin {
      f, j := WriteBytesMeans(k, s, v, cs, i + 1);
    } else {
      f, j := SaveFaults(false, false, true, false), i + 3;
      assert Meaning(Then(Release(MapMtx), k), s.(failed := true), v, cs, i + 2)
        == Meaning(k, s.(failed := true), v, cs, i + 3);
    }
  }

  lemma WriteBytesMeans(k: Prog, s: Store, v: Vars, cs: seq<Choice>, i: nat) returns (f: SaveFaults, j: nat)
    requires var unlock := Then(Release(MapMtx), k);
      Meaning(Then(Truncate, Branch(Chance, Then(WriteBytes, unlock), Then(SaveFailed, unlock))), s, v, cs, i).Some?
    ensures !f.marshalFails && !f.badPermissions && !f.openFails && (Lucky(cs) ==> f.Clean())
    ensures var unlock := Then(Release(MapMtx), k);
      Meaning(Then(Truncate, Branch(Chance, Then(WriteBytes, unlock), Then(SaveFailed, unlock))), s, v, cs, i)
        == Meaning(k, StoreSaved(s, v.snap, f), v, cs, j)
  {
    var unlock, cut := Then(Release(MapMtx), k), s.(file := Blank);
    var write := Branch(Chance, Then(WriteBytes, unlock), Then(SaveFailed, unlock));
    assert Meaning(write, cut, v, cs, i + 1).Some?;
    assert cs[i + 1] in cs;
    f, j := SaveFaults(false, false, false, !cs[i + 1].coin), i + 4;
    var done := if cs[i + 1].coin then cut.(file := Encoded(v.snap)) else cut.(failed := true);
    assert Meaning(write, cut, v, cs, i + 1) == Meaning(unlock, done, v, cs, i + 3);
    assert Meaning(unlock, done, v, cs, i + 3) == Meaning(k, done, v, cs, i + 4);
  }

  /** A save, whatever fails, leaves the file of a serial save of the table that it meets. */
  lemma SaveMeans(k: Prog, s: Store, v: Vars, cs: seq<Choice>, i: nat) returns (f: SaveFaults, j: nat, after: Vars)
    requires Meaning(Save(k, k), s, v, cs, i).Some?
    ensures (Lucky(cs) ==> f.Clean()) && after.(snap := v.snap) == v
    ensures Meaning(Save(k, k), s, v, cs, i) == Meaning(k, StoreSaved(s, s.table, f), after, cs, j)
  {
    var failed, marshalled := s.(failed := true), v.(snap := s.table);
    var permitted := Then(Acquire(MapMtx), WriteFile(k, k));
    assert cs[i] in cs;
    if !cs[i].coin {
      f, j, after := SaveFaults(true, false, false, false), i + 2, v;
      assert Meaning(Then(SaveFailed, k), s, v, cs, i + 1) == Meaning(k, failed, v, cs, i + 2);
    } else {
      var rest := Branch(Chance, permitted, Then(SaveFailed, k));
      after := marshalled;
      assert Meaning(Then(Marshal, rest), s, v, cs, i + 1) == Meaning(rest, s, after, cs, i + 2);
      assert cs[i + 2] in cs;
      if cs[i + 2].coin {
        assert Meaning(permitted, s, after, cs, i + 3) == Meaning(WriteFile(k, k), s, after, cs, i + 4);
        f, j := WriteMeans(k, s, after, cs, i + 4);
      } else {
        f, j := SaveFaults(false, true, false, false), i + 4;
        assert Meaning(Then(SaveFailed, k), s, after, cs, i + 3) == Meaning(k, failed, after, cs, i + 4);
      }
    }
  }

  // ----- Start -----

  function AgentOf(s: Store): G.State {
    G.State(s.host, s.table, s.file)
  }

  /**
   A Start alone, whatever fails in its save, is the serial Start: the first choice of a
   counting Start is whether all of its checks pass.
   */
  lemma StartMeans(d: V.Domain, e: G.StartEnv, s: Store, v: Vars, cs: seq<Choice>) returns (save: SaveFaults)
    requires Meaning(StartCode(d.img, d.imagePath), s, v, cs, 0).Some?
    requires cs != [] ==> cs[0].coin == (e.valid && e.parse && e.hardware && e.flavor && e.manifest && e.report)
    ensures Lucky(cs) ==> save.Clean()
    ensures var after := Meaning(StartCode(d.img, d.imagePath), s, v, cs, 0).value;
      && AgentOf(after) == G.StartCall(AgentOf(s), d, e.(save := save)).0
      && (after.failed <==> s.failed || (X.StartCounts(d, e) && !save.Clean()))
  {
    save := SaveFaults(false, false, false, false);
    if HasPrefix(d.imagePath, MOUNT_PATH) && cs[0].coin {
      var counted := s.(table := Created(s.table, d.img, d.imagePath));
      var saving := Then(Release(MapMtx), Save(Return, Return));
      assert Meaning(Then(CreateCommit(d.img, d.imagePath), saving), s, v, cs, 2) == Meaning(saving, counted, v, cs, 3);
      assert Meaning(saving, counted, v, cs, 3) == Meaning(Save(Return, Return), counted, v, cs, 4);
      var j, last;
      save, j, last := SaveMeans(Return, counted, v, cs, 4);
    }
  }

  // ----- Stop -----

  lemma DeleteMeans(img: string, k: Prog, s: Store, v: Vars, cs: seq<Choice>, i: nat)
    returns (f: SaveFaults, j: nat, after: Vars)
    requires Meaning(Delete(img, k), s, v, cs, i).Some?
    ensures Lucky(cs) ==> f.Clean()
    ensures var verdict := Judge(s.table, img);
      var deleted := s.(table := Deleted(s.table, img));
      && after.ruling == Found(verdict) && after.img == img
      && after.path == (if verdict == Missing then "" else PathOf(s.table, img))
      && Meaning(Delete(img, k), s, v, cs, i)
           == Meaning(k, if verdict == Missing then s else StoreSaved(deleted, deleted.table, f), after, cs, j)
  {
    var deleted := s.(table := Deleted(s.table, img));
    var hit, miss := Then(Release(MapMtx), Save(k, k)), Then(Release(MapMtx), k);
    after := VarsAfter(s, v, DeleteCommit(img));
    assert Meaning(Then(DeleteCommit(img), Branch(Hit, hit, miss)), s, v, cs, i + 1)
      == Meaning(Branch(Hit, hit, miss), deleted, after, cs, i + 2);
    if Judge(s.table, img) == Missing {
      f, j := SaveFaults(false, false, false, false), i + 4;
      assert Meaning(miss, deleted, after, cs, i + 3) == Meaning(k, deleted, after, cs, i + 4);
    } else {
      assert Meaning(hit, deleted, after, cs, i + 3) == Meaning(Save(k, k), deleted, after, cs, i + 4);
      f, j, after := SaveMeans(k, deleted, after, cs, i + 4);
    }
  }

  lemma {:induction false} LeaveMeans(s: Store, v: Vars, cs: seq<Choice>, i: nat)
    requires Meaning(Leave(), s, v, cs, i).Some?
    ensures Meaning(Leave(), s, v, cs, i) == Some(s)
  {
  }

  lemma TeardownMeans(s: Store, v: Vars, cs: seq<Choice>, i: nat) returns (unmount: bool, close: bool)
    requires Meaning(Teardown(), s, v, cs, i).Some?
    ensures forall works | AllWork(cs, works) :: unmount == works && close == works
    ensures Meaning(Teardown(), s, v, cs, i)
      == Some(s.(host := V.DeleteVolume(V.Unmount(s.host, v.path, unmount), v.img, close)))
  {
    var unlock := Then(Release(TeardownMtx), Leave());
    assert Meaning(Then(UnmountImage, Then(CloseImage, unlock)), s, v, cs, i + 1).Some?;
    unmount := cs[i + 1].works;
    var unmounted := s.(host := V.Unmount(s.host, v.path, unmount));
    assert Meaning(Then(CloseImage, unlock), unmounted, v, cs, i + 2).Some?;
    close := cs[i + 2].works;
    assert cs[i + 1] in cs && cs[i + 2] in cs;
    var closed := unmounted.(host := V.DeleteVolume(unmounted.host, v.img, close));
    assert Meaning(unlock, closed, v, cs, i + 3) == Meaning(Leave(), closed, v, cs, i + 4);
    LeaveMeans(closed, v, cs, i + 4);
  }

  lemma DecideMeans(s: Store, v: Vars, cs: seq<Choice>, i: nat) returns (unmount: bool, close: bool)
    requires Meaning(Decide(), s, v, cs, i).Some?
    ensures forall works | AllWork(cs, works) :: unmount == works && close == works
    ensures Meaning(Decide(), s, v, cs, i) == Some(s.(host :=
      if v.path == "" || v.ruling == Found(Shared) then s.host
      else V.DeleteVolume(V.Unmount(s.host, v.path, unmount), v.img, close)))
  {
    assert cs[i] in cs;
    unmount, close := cs[i].works, cs[i].works;
    if v.path == "" {
      LeaveMeans(s, v, cs, i + 1);
    } else {
      assert Meaning(Branch(IsLastVM, Teardown(), Leave()), s, v, cs, i + 1).Some?;
      if v.ruling == Found(Shared) {
        LeaveMeans(s, v, cs, i + 2);
      } else {
        unmount, close := TeardownMeans(s, v, cs, i + 2);
      }
    }
  }

  /** The Stop from its Delete on, on a host whose VM volume has been dealt with. */
  lemma QuestionMeans(d: V.Domain, e: V.StopEnv, s: Store, v: Vars, cs: seq<Choice>, i: nat)
    returns (sure: V.StopEnv, save: SaveFaults)
    requires Meaning(Delete(d.img, Decide()), s, v, cs, i).Some?
    ensures sure == e.(unmountImage := sure.unmountImage, closeImage := sure.closeImage)
    ensures forall works | AllWork(cs, works) :: sure.unmountImage == works && sure.closeImage == works
    ensures Lucky(cs) ==> save.Clean()
    ensures var after := Meaning(Delete(d.img, Decide()), s, v, cs, i).value;
      && AgentOf(after) == G.AfterQuestion(AgentOf(s), d, sure, save)
      && (after.failed <==> s.failed || (X.Counted(s.table, d.img) && !save.Clean()))
  {
    var j, after;
    save, j, after := DeleteMeans(d.img, Decide(), s, v, cs, i);
    var verdict, deleted := Judge(s.table, d.img), s.(table := Deleted(s.table, d.img));
    var saved := if verdict == Missing then s else StoreSaved(deleted, deleted.table, save);
    var unmount, close := DecideMeans(saved, after, cs, j);
    sure := e.(unmountImage := unmount, closeImage := close);
  }

  /**
   A Stop alone, whatever fails, is the serial Stop. Its second choice is whether it proceeds,
   the third whether the VM's device is open, and then the fourth step closes the VM.
   */
  lemma StopMeans(d: V.Domain, valid: bool, e: V.StopEnv, s: Store, v: Vars, cs: seq<Choice>)
    returns (sure: V.StopEnv, save: SaveFaults)
    requires Meaning(StopCode(d.img), s, v, cs, 0).Some?
    requires |cs| > 1 ==> cs[1].coin == (valid && V.StopProceeds(s.host, d, e))
    requires |cs| > 2 ==> cs[2].coin == (d.vm in s.host.devices)
    requires |cs| > 3 && cs[2].coin ==> cs[3].effect == W.ClosesVm(d, e)
    ensures sure == e.(unmountImage := sure.unmountImage, closeImage := sure.closeImage)
    ensures forall works | AllWork(cs, works) :: sure.unmountImage == works && sure.closeImage == works
    ensures Lucky(cs) ==> save.Clean()
    ensures var after := Meaning(StopCode(d.img), s, v, cs, 0).value;
      && AgentOf(after) == G.StopCall(AgentOf(s), d, valid, sure, save).0
      && (after.failed <==>
            s.failed || (valid && V.StopProceeds(s.host, d, e) && X.Counted(s.table, d.img) && !save.Clean()))
  {
    var ask := Delete(d.img, Decide());
    var proceed := Branch(Chance, Then(External, ask), ask);
    assert Meaning(Branch(Chance, proceed, Leave()), s, v, cs, 1).Some?;
    assert cs[0] in cs;
    if cs[1].coin {
      assert Meaning(proceed, s, v, cs, 2).Some?;
      var closed := s.(host := V.CloseVm(s.host, d, e));
      if cs[2].coin {
        assert Meaning(Then(External, ask), s, v, cs, 3) == Meaning(ask, closed, v, cs, 4);
        sure, save := QuestionMeans(d, e, closed, v, cs, 4);
      } else {
        assert closed == s;
        sure, save := QuestionMeans(d, e, closed, v, cs, 3);
      }
      assert V.CloseVm(s.host, d, sure) == V.CloseVm(s.host, d, e);
      assert V.StopProceeds(s.host, d, sure);
    } else {
      LeaveMeans(s, v, cs, 2);
      sure := e.(unmountImage := cs[0].works, closeImage := cs[0].works);
      save := SaveFaults(false, false, false, false);
    }
  }

  // ----- Prepare and the watcher -----

  /** No step of the program touches the table, its file or an image's volume. */
  predicate Harmless(p: Prog) {
    match p
    case Return => true
    case Then(a, k) => a in {AcquireRead, ReleaseRead, External} + Locks() && Harmless(k)
    case Branch(test, y, n) => test == Chance && Harmless(y) && Harmless(n)
  }

  function Locks(): set<Act> {
    {Acquire(WlaMtx), Acquire(TpmMtx), Acquire(ImgVolumeMtx), Acquire(VmVolumeMtx), Acquire(WatcherMtx),
     Release(WlaMtx), Release(TpmMtx), Release(ImgVolumeMtx), Release(VmVolumeMtx), Release(WatcherMtx)}
  }

  lemma {:induction false} HarmlessMeans(p: Prog, s: Store, v: Vars, cs: seq<Choice>, i: nat)
    requires Harmless(p) && Meaning(p, s, v, cs, i).Some?
    ensures Meaning(p, s, v, cs, i).value == s.(host := Meaning(p, s, v, cs, i).value.host)
    decreases p
  {
    match p
    case Return =>
    case Then(a, k) => HarmlessMeans(k, StoreAfter(s, v, a, cs[i]), VarsAfter(s, v, a), cs, i + 1);
    case Branch(test, y, n) => HarmlessMeans(if cs[i].coin then y else n, s, v, cs, i + 1);
  }

  lemma {:induction false} LockedIsHarmless(lock: Lock, k: Prog)
    requires lock !in {MapMtx, TeardownMtx} && Harmless(k)
    ensures Harmless(Locked(lock, k))
  {
    assert Harmless(Then(Release(lock), k));
    assert Harmless(Then(External, Then(Release(lock), k)));
  }

  lemma VolumesAreHarmless()
    ensures Harmless(PrepareVolumes()) && Harmless(Leave())
  {
    assert Harmless(Leave());
    LockedIsHarmless(WatcherMtx, Leave());
    LockedIsHarmless(VmVolumeMtx, Branch(Chance, Locked(WatcherMtx, Leave()), Leave()));
    LockedIsHarmless(ImgVolumeMtx, Branch(Chance, VmVolume(), Leave()));
    LockedIsHarmless(TpmMtx, Branch(Chance, ImageThenVm(), Leave()));
  }

  lemma {:induction false} LookUpIsHarmless(k: Prog)
    requires Harmless(k)
    ensures Harmless(LookUp(k))
  {
    VolumesAreHarmless();
    assert Harmless(Branch(Chance, k, Leave()));
    assert Harmless(Then(ReleaseRead, Branch(Chance, k, Leave())));
    assert Harmless(Then(External, Then(ReleaseRead, Branch(Chance, k, Leave()))));
  }

  /** The reload once the file is open. */
  function ReadAndMerge(k: Prog): Prog {
    Then(ReadFile, Branch(Chance, Then(MergeFile, k), Then(ReloadFailed, Leave())))
  }

  lemma {:induction false} ReadMeans(k: Prog, s: Store, v: Vars, cs: seq<Choice>, i: nat)
    requires Harmless(k) && Meaning(ReadAndMerge(k), s, v, cs, i).Some?
    ensures i + 1 < |cs|
    ensures var after := Meaning(ReadAndMerge(k), s, v, cs, i).value;
      && after.table == (if cs[i + 1].coin then Merged(s.table, Decode(s.file)) else s.table)
      && after.file == s.file
  {
    var merge := Branch(Chance, Then(MergeFile, k), Then(ReloadFailed, Leave()));
    var read := v.(read := s.file);
    assert Meaning(merge, s, read, cs, i + 1).Some?;
    if cs[i + 1].coin {
      HarmlessMeans(k, s.(table := Merged(s.table, Decode(s.file))), read, cs, i + 3);
    } else {
      FailedReload(s, read, cs, i + 2);
    }
  }

  lemma {:induction false} FailedReload(s: Store, v: Vars, cs: seq<Choice>, i: nat)
    requires Meaning(Then(ReloadFailed, Leave()), s, v, cs, i).Some?
    ensures Meaning(Then(ReloadFailed, Leave()), s, v, cs, i).value == s
  {
    LeaveMeans(s, v, cs, i + 1);
  }

  /** The reload: the open and the read must both work, else the table stays as it is. */
  lemma {:induction false} ReloadMeans(k: Prog, s: Store, v: Vars, cs: seq<Choice>, i: nat)
    requires Harmless(k) && Meaning(Reload(k), s, v, cs, i).Some?
    ensures i + 3 < |cs| && (cs[i + 3].coin ==> i + 5 < |cs|)
    ensures var after := Meaning(Reload(k), s, v, cs, i).value;
      && after.table == (if cs[i + 3].coin && cs[i + 5].coin then Merged(s.table, Decode(s.file)) else s.table)
      && after.file == s.file
  {
    var try_ := Branch(Chance, ReadAndMerge(k), Then(ReloadFailed, Leave()));
    var s1 := s.(host := W.HostBy(s.host, cs[i + 1].effect));
    assert Reload(k) == Then(AcquireRead, Then(External, Then(ReleaseRead, try_)));
    OpenMeans(try_, s, v, cs, i);
    if cs[i + 3].coin {
      ReadMeans(k, s1, v, cs, i + 4);
    } else {
      FailedReload(s1, v, cs, i + 4);
    }
  }

  lemma {:induction false} OpenMeans(k: Prog, s: Store, v: Vars, cs: seq<Choice>, i: nat)
    requires Meaning(Then(AcquireRead, Then(External, Then(ReleaseRead, k))), s, v, cs, i).Some?
    ensures i + 2 < |cs|
    ensures Meaning(Then(AcquireRead, Then(External, Then(ReleaseRead, k))), s, v, cs, i)
      == Meaning(k, s.(host := W.HostBy(s.host, cs[i + 1].effect)), v, cs, i + 3)
  {
    assert Meaning(Then(External, Then(ReleaseRead, k)), s, v, cs, i + 1).Some?;
    assert Meaning(Then(ReleaseRead, k), s.(host := W.HostBy(s.host, cs[i + 1].effect)), v, cs, i + 2).Some?;
  }

  /** Whether the choices of a Prepare reload the table: no path is known, and open and read work. */
  predicate Reloads(cs: seq<Choice>) {
    |cs| > 9 && cs[1].coin && !cs[2].coin && cs[7].coin && cs[9].coin
  }

  lemma {:induction false} AskMeans(k: Prog, s: Store, v: Vars, cs: seq<Choice>, i: nat)
    requires Harmless(k) && Meaning(ImagePathFromFile(k), s, v, cs, i).Some?
    ensures s.table == map[] ==> i + 4 < |cs| && (cs[i + 4].coin ==> i + 6 < |cs|)
    ensures var after := Meaning(ImagePathFromFile(k), s, v, cs, i).value;
      && after.file == s.file
      && after.table == if s.table == map[] && cs[i + 4].coin && cs[i + 6].coin then Decode(s.file) else s.table
  {
    LookUpIsHarmless(k);
    if s.table == map[] {
      ReloadMeans(LookUp(k), s, v.(read := Blank), cs, i + 1);
      assert Merged(map[], Decode(s.file)) == Decode(s.file);
    } else {
      HarmlessMeans(LookUp(k), s, v, cs, i + 1);
    }
  }

  function PrepareWith(k: Prog): Prog {
    Then(Acquire(WlaMtx), Branch(Chance, Branch(Chance, k, ImagePathFromFile(k)), Leave()))
  }

  lemma {:induction false} AnyPrepareMeans(k: Prog, s: Store, v: Vars, cs: seq<Choice>)
    requires Harmless(k) && Meaning(PrepareWith(k), s, v, cs, 0).Some?
    ensures var after := Meaning(PrepareWith(k), s, v, cs, 0).value;
      && after.file == s.file
      && after.table == if s.table == map[] && Reloads(cs) then Decode(s.file) else s.table
  {
    UnderWlaMeans(Branch(Chance, k, ImagePathFromFile(k)), s, v, cs);
    if !cs[1].coin {
      LeaveMeans(s, v, cs, 2);
    } else if cs[2].coin {
      HarmlessMeans(k, s, v, cs, 3);
    } else {
      AskMeans(k, s, v, cs, 3);
    }
  }

  /** A Prepare alone never writes the file, and it loads it into an empty table exactly when it asks for a path. */
  lemma {:induction false} PrepareMeans(s: Store, v: Vars, cs: seq<Choice>)
    requires Meaning(PrepareCode(), s, v, cs, 0).Some?
    ensures var after := Meaning(PrepareCode(), s, v, cs, 0).value;
      && after.file == s.file
      && after.table == if s.table == map[] && Reloads(cs) then Decode(s.file) else s.table
  {
    VolumesAreHarmless();
    assert PrepareCode() == PrepareWith(PrepareVolumes());
    AnyPrepareMeans(PrepareVolumes(), s, v, cs);
  }

  lemma {:induction false} UnderWlaMeans(k: Prog, s: Store, v: Vars, cs: seq<Choice>)
    requires Meaning(Then(Acquire(WlaMtx), Branch(Chance, k, Leave())), s, v, cs, 0).Some?
    ensures |cs| > 1
    ensures Meaning(Then(Acquire(WlaMtx), Branch(Chance, k, Leave())), s, v, cs, 0)
      == Meaning(if cs[1].coin then k else Leave(), s, v, cs, 2)
  {
    assert Meaning(Branch(Chance, k, Leave()), s, v, cs, 1).Some?;
  }

  // ----- calls alone on the machine -----

  /** The thread has just been spawned for the call, runs by the choices, and returns. */
  ghost predicate RunsAlone(w: W.World, t: nat, c: Call, cs: seq<Choice>) {
    && Inv(w.state) && OthersFree(w.state, t) && w.state.threads[t].code == Code(c)
    && t < |Alone(w, t, cs, 0).state.threads| && Alone(w, t, cs, 0).state.threads[t].code == Return
  }

  lemma {:induction false} EnoughChoices(p: Prog, s: Store, v: Vars, cs: seq<Choice>, i: nat)
    requires i + L.Length(p) <= |cs|
    ensures Meaning(p, s, v, cs, i).Some?
    decreases p
  {
    match p
    case Return =>
    case Then(a, k) => EnoughChoices(k, StoreAfter(s, v, a, cs[i]), VarsAfter(s, v, a), cs, i + 1);
    case Branch(test, y, n) =>
      EnoughChoices(y, s, v, cs, i + 1);
      EnoughChoices(y, s, v.(read := Blank), cs, i + 1);
      EnoughChoices(n, s, v, cs, i + 1);
  }

  /** Any call that is spawned while no lock is held can run alone, and returns within the length of its program. */
  lemma CallsReturnAlone(w: W.World, c: Call, cs: seq<Choice>)
    requires Inv(w.state) && forall u | 0 <= u < |w.state.threads| :: w.state.threads[u].mode.held == {}
    requires L.Length(Code(c)) <= |cs|
    ensures RunsAlone(W.World(Next(w.state, Spawn(c)), w.host), |w.state.threads|, c, cs)
  {
    var t, spawned := |w.state.threads|, W.World(Next(w.state, Spawn(c)), w.host);
    SpawnKeepsInv(w.state, c);
    AloneIsMeaning(spawned, t, cs, 0);
    EnoughChoices(Code(c), StoreOf(spawned), VarsOf(spawned.state.threads[t]), cs, 0);
  }

  function AgentAt(w: W.World): G.State {
    G.State(w.host, w.state.assoc, w.state.file)
  }

  /** A Start that runs alone on the machine leaves what the serial Start leaves, for some outcome of its save. */
  lemma StartAlone(w: W.World, t: nat, d: V.Domain, e: G.StartEnv, cs: seq<Choice>) returns (save: SaveFaults)
    requires RunsAlone(w, t, StartCall(d.img, d.imagePath), cs)
    requires cs != [] ==> cs[0].coin == (e.valid && e.parse && e.hardware && e.flavor && e.manifest && e.report)
    ensures Lucky(cs) ==> save.Clean()
    ensures var after := Alone(w, t, cs, 0);
      && AgentAt(after) == R.Apply(AgentAt(w), R.Starts(d, e.(save := save)))
      && (after.state.failed <==> w.state.failed || (X.StartCounts(d, e) && !save.Clean()))
  {
    AloneIsMeaning(w, t, cs, 0);
    save := StartMeans(d, e, StoreOf(w), VarsOf(w.state.threads[t]), cs);
  }

  /**
   A Stop that runs alone on the machine leaves what the serial Stop leaves, for some outcome
   of its save and of its teardown: of one that works, if every teardown call works.
   */
  lemma StopAlone(w: W.World, t: nat, d: V.Domain, valid: bool, e: V.StopEnv, cs: seq<Choice>)
    returns (sure: V.StopEnv, save: SaveFaults)
    requires RunsAlone(w, t, StopCall(d.img), cs)
    requires |cs| > 1 ==> cs[1].coin == (valid && V.StopProceeds(w.host, d, e))
    requires |cs| > 2 ==> cs[2].coin == (d.vm in w.host.devices)
    requires |cs| > 3 && cs[2].coin ==> cs[3].effect == W.ClosesVm(d, e)
    ensures sure == e.(unmountImage := sure.unmountImage, closeImage := sure.closeImage)
    ensures forall works | AllWork(cs, works) :: sure.unmountImage == works && sure.closeImage == works
    ensures Lucky(cs) ==> save.Clean()
    ensures AgentAt(Alone(w, t, cs, 0)) == R.Apply(AgentAt(w), R.Stops(d, valid, sure, save))
  {
    AloneIsMeaning(w, t, cs, 0);
    sure, save := StopMeans(d, valid, e, StoreOf(w), VarsOf(w.state.threads[t]), cs);
  }

  /** A Prepare that runs alone loads the file into an empty table exactly when it asks for a path and can read it. */
  lemma {:induction false} PrepareAlone(w: W.World, t: nat, img: string, cs: seq<Choice>)
    requires RunsAlone(w, t, PrepareCall(img), cs)
    ensures var s, after := w.state, Alone(w, t, cs, 0).state;
      && after.file == s.file
      && after.assoc == if s.assoc == map[] && Reloads(cs) then Decode(s.file) else s.assoc
  {
    AloneIsMeaning(w, t, cs, 0);
    PrepareMeans(StoreOf(w), VarsOf(w.state.threads[t]), cs);
  }
}
