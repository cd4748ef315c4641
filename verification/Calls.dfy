/**
 The RPC calls as small programs of atomic steps, each a finite tree: a step with
 an effect is followed by one program, a test by two. The trees follow the order of
 the locks, commits, saves and error exits in the source.
 */
module Calls {
  import opened Common
  import opened Association

  datatype Lock = WlaMtx | MapMtx | TpmMtx | ImgVolumeMtx | VmVolumeMtx | TeardownMtx | WatcherMtx

  /** A lock held exclusively, or a read lock on the one read-write mutex (MapMtx). */
  datatype Hold = Excl(lock: Lock) | ReadMap

  datatype Act =
    | Acquire(lock: Lock)
    | Release(lock: Lock)
    | AcquireRead
    | ReleaseRead
    | External                                  // calls that touch neither the table, its file nor a lock
    | CreateCommit(img: string, path: string)
    | DeleteCommit(img: string)
    | Marshal
    | Truncate                                  // WriteFile opens the file with O_TRUNC ...
    | WriteBytes                                // ... and then writes the marshalled bytes
    | SaveFailed
    | ReadFile
    | MergeFile
    | ReloadFailed
    | UnmountImage
    | CloseImage

  /** Chance: the outcome of a call that is not modelled. The others read the table or the thread's variables. */
  datatype Test = Chance | TableEmpty | Hit | PathEmpty | IsLastVM

  datatype Prog = Return | Then(act: Act, next: Prog) | Branch(test: Test, yes: Prog, no: Prog)

  // ----- the programs -----

  /** The write of the marshalled bytes, with MapMtx held. */
  function WriteFile(done: Prog, failed: Prog): Prog {
    Branch(Chance,
      Then(Truncate,
        Branch(Chance,
          Then(WriteBytes, Then(Release(MapMtx), done)),
          Then(SaveFailed, Then(Release(MapMtx), failed)))),
      Then(SaveFailed, Then(Release(MapMtx), failed)))
  }

  /** SaveImageVMAssociation: the snapshot is taken outside MapMtx and written under it. */
  function Save(done: Prog, failed: Prog): Prog {
    Branch(Chance,
      Then(Marshal,
        Branch(Chance,                          // permission bits of the file
          Then(Acquire(MapMtx), WriteFile(done, failed)),
          Then(SaveFailed, failed))),
      Then(SaveFailed, failed))
  }

  /** ImageVMAssociation.Create */
  function Create(img: string, path: string, k: Prog): Prog {
    Then(Acquire(MapMtx), Then(CreateCommit(img, path), Then(Release(MapMtx), Save(k, k))))
  }

  /** ImageVMAssociation.Delete: a miss unlocks and returns without saving. */
  function Delete(img: string, k: Prog): Prog {
    Then(Acquire(MapMtx), Then(DeleteCommit(img),
      Branch(Hit,
        Then(Release(MapMtx), Save(k, k)),
        Then(Release(MapMtx), k))))
  }

  /** VirtualMachine.Start and wlavm.Start: no wlaMtx; only a path under the mount directory is counted. */
  function StartCode(img: string, path: string): Prog {
    if HasPrefix(path, MOUNT_PATH)
    then Branch(Chance, Create(img, path, Return), Return)
    else Return
  }

  /** The deferred unlock that ends Prepare and Stop. */
  function Leave(): Prog {
    Then(Release(WlaMtx), Return)
  }

  function Teardown(): Prog {
    Then(Acquire(TeardownMtx), Then(UnmountImage, Then(CloseImage, Then(Release(TeardownMtx), Leave()))))
  }

  /** wlavm.Stop after Delete has returned; Delete's error is only logged. */
  function Decide(): Prog {
    Branch(PathEmpty, Leave(), Branch(IsLastVM, Teardown(), Leave()))
  }

  /** VirtualMachine.Stop and wlavm.Stop. */
  function StopCode(img: string): Prog {
    Then(Acquire(WlaMtx),
      Branch(Chance,                            // valid, parsed, VM present, device status known
        Branch(Chance, Then(External, Delete(img, Decide())), Delete(img, Decide())),
        Leave()))
  }

  /** A call made under one leaf mutex; the result is examined after the unlock. */
  function Locked(lock: Lock, k: Prog): Prog {
    Then(Acquire(lock), Then(External, Then(Release(lock), k)))
  }

  function LookUp(k: Prog): Prog {
    Then(AcquireRead, Then(External, Then(ReleaseRead, Branch(Chance, k, Leave()))))
  }

  /** LoadImageVMAssociation: only the open happens under the read lock. */
  function Reload(k: Prog): Prog {
    Then(AcquireRead, Then(External, Then(ReleaseRead,
      Branch(Chance,
        Then(ReadFile, Branch(Chance, Then(MergeFile, k), Then(ReloadFailed, Leave()))),
        Then(ReloadFailed, Leave())))))
  }

  /** imagePathFromVMAssociationFile */
  function ImagePathFromFile(k: Prog): Prog {
    Branch(TableEmpty, Reload(LookUp(k)), LookUp(k))
  }

  /** vmVolumeManager, with the registration of the disk.info handler at its end. */
  function VmVolume(): Prog {
    Locked(VmVolumeMtx, Branch(Chance, Locked(WatcherMtx, Leave()), Leave()))
  }

  /** imageVolumeManager, or nothing when the image is already decrypted; then vmVolumeManager. */
  function ImageThenVm(): Prog {
    Branch(Chance, Locked(ImgVolumeMtx, Branch(Chance, VmVolume(), Leave())), VmVolume())
  }

  /** The key is unwrapped whether or not the image volume is then skipped. */
  function ImageVolume(): Prog {
    Locked(TpmMtx, Branch(Chance, ImageThenVm(), Leave()))
  }

  /** wlavm.Prepare once an image path is known. */
  function PrepareVolumes(): Prog {
    Branch(Chance, Branch(Chance, ImageVolume(), VmVolume()), Leave())
  }

  function PrepareCode(): Prog {
    Then(Acquire(WlaMtx),
      Branch(Chance, Branch(Chance, PrepareVolumes(), ImagePathFromFile(PrepareVolumes())), Leave()))
  }

  /** One iteration of Watcher.Watch: the handler runs under the watcher's mutex. */
  function DispatchCode(): Prog {
    Locked(WatcherMtx, Return)
  }

  datatype Call = StartCall(img: string, path: string) | PrepareCall(img: string) | StopCall(img: string) | FileEvent

  function Code(c: Call): Prog {
    match c
    case StartCall(img, path) => StartCode(img, path)
    case PrepareCall(_) => PrepareCode()
    case StopCall(img) => StopCode(img)
    case FileEvent => DispatchCode()
  }

  // ----- the discipline that every program keeps -----

  datatype Ruling = Undecided | Found(verdict: Verdict)

  datatype Stage = Idle | Saving | Truncated | Reloading

  /**
   What the discipline tracks of a thread: locks held, Delete's verdict, a snapshot newer
   than the commit, work in progress.
   */
  datatype Mode = Mode(held: set<Hold>, ruling: Ruling, recent: bool, stage: Stage) {
    predicate Holds(lock: Lock) {
      Excl(lock) in held
    }

    /** No leaf lock is held. */
    predicate AtTop() {
      held <= {Excl(WlaMtx)}
    }
  }

  const INITIAL := Mode({}, Undecided, false, Idle)

  predicate Allowed(m: Mode, a: Act) {
    match a
    case Acquire(lock) => if lock == WlaMtx then m.held == {} && m.ruling == Undecided else m.AtTop()
    case Release(lock) => 
      && m.Holds(lock)
      && (lock == WlaMtx ==> m.stage == Idle && m.held == {Excl(WlaMtx)})
      && (lock == MapMtx ==> m.stage != Truncated)
    case AcquireRead => m.AtTop()
    case ReleaseRead => ReadMap in m.held
    case External => true
    case CreateCommit(_, path) => m.Holds(MapMtx) && m.stage == Idle && HasPrefix(path, MOUNT_PATH)
    case DeleteCommit(_) => m.Holds(WlaMtx) && m.Holds(MapMtx) && m.stage == Idle
    case Marshal => m.stage == Saving && !m.Holds(MapMtx)
    case Truncate => m.stage == Saving && m.recent && m.Holds(MapMtx)
    case WriteBytes => m.stage == Truncated && m.recent && m.Holds(MapMtx)
    case SaveFailed => m.stage == Saving || (m.stage == Truncated && m.Holds(MapMtx))
    case ReadFile => m.stage == Reloading && m.Holds(WlaMtx)
    case MergeFile => m.stage == Reloading && m.Holds(WlaMtx) && m.ruling == Undecided
    case ReloadFailed => m.stage == Reloading
    case UnmountImage => m.Holds(WlaMtx) && m.Holds(TeardownMtx) && m.ruling == Found(Last)
    case CloseImage => m.Holds(WlaMtx) && m.Holds(TeardownMtx) && m.ruling == Found(Last)
  }

  /** The mode after an act; `v` is the verdict when the act is a DeleteCommit. */
  function After(m: Mode, a: Act, v: Verdict): Mode {
    match a
    case Acquire(lock) => m.(held := m.held + {Excl(lock)})
    case Release(lock) => m.(held := m.held - {Excl(lock)})
    case AcquireRead => m.(held := m.held + {ReadMap})
    case ReleaseRead => m.(held := m.held - {ReadMap})
    case CreateCommit(_, _) => m.(stage := Saving, recent := false)
    case DeleteCommit(_) => m.(ruling := Found(v), stage := if v == Missing then Idle else Saving, recent := false)
    case Marshal => m.(recent := true)
    case Truncate => m.(stage := Truncated)
    case WriteBytes => m.(stage := Idle)
    case SaveFailed => m.(stage := Idle)
    case MergeFile => m.(stage := Idle)
    case ReloadFailed => m.(stage := Idle)
    case _ => m
  }

  predicate Disciplined(m: Mode, p: Prog)
    decreases p
  {
    match p
    case Return => m.held == {} && m.stage == Idle
    case Then(a, k) =>
      && Allowed(m, a)
      && Disciplined(After(m, a, Missing), k)
      && (a.DeleteCommit? ==> Disciplined(After(m, a, Shared), k) && Disciplined(After(m, a, Last), k))
    case Branch(Chance, y, n) => Disciplined(m, y) && Disciplined(m, n)
    case Branch(TableEmpty, y, n) =>
      m.Holds(WlaMtx) && m.stage == Idle && Disciplined(m.(stage := Reloading), y) && Disciplined(m, n)
    case Branch(Hit, y, n) => m.ruling.Found? && Disciplined(m, if m.ruling.verdict == Missing then n else y)
    case Branch(PathEmpty, y, n) =>
      m.Holds(WlaMtx) && m.ruling.Found? && Disciplined(m, if m.ruling.verdict == Missing then y else n)
    case Branch(IsLastVM, y, n) => m.ruling.Found? && Disciplined(m, if m.ruling.verdict == Shared then n else y)
  }

  // ----- every call keeps the discipline -----


  lemma {:induction false} ThenDisciplined(m: Mode, a: Act, k: Prog)
    requires Allowed(m, a) && !a.DeleteCommit? && Disciplined(After(m, a, Missing), k)
    ensures Disciplined(m, Then(a, k))
  {
  }

  lemma {:induction false} ChanceDisciplined(m: Mode, yes: Prog, no: Prog)
    requires Disciplined(m, yes) && Disciplined(m, no)
    ensures Disciplined(m, Branch(Chance, yes, no))
  {
  }

  lemma {:induction false} LeaveDisciplined(m: Mode)
    requires m.held == {Excl(WlaMtx)} && m.stage == Idle
    ensures Disciplined(m, Leave())
  {
    assert m.held - {Excl(WlaMtx)} == {};
  }

  lemma {:induction false} LockedDisciplined(m: Mode, lock: Lock, k: Prog)
    requires m.AtTop() && lock !in {WlaMtx, MapMtx} && Disciplined(m, k)
    ensures Disciplined(m, Locked(lock, k))
  {
    var inside := m.(held := m.held + {Excl(lock)});
    assert inside.held - {Excl(lock)} == m.held;
    assert inside.(held := m.held) == m;
    var unlock := Then(Release(lock), k);
    assert Disciplined(inside, unlock);
    assert Disciplined(inside, Then(External, unlock));
  }

  lemma {:induction false} WriteDisciplined(m: Mode, k: Prog)
    requires m.AtTop() && m.stage == Idle && m.recent && Disciplined(m, k)
    ensures Disciplined(m.(held := m.held + {Excl(MapMtx)}, stage := Saving), WriteFile(k, k))
  {
    var over := m.(held := m.held + {Excl(MapMtx)});
    assert over.held - {Excl(MapMtx)} == m.held;
    assert over.(held := m.held) == m;
    var unlock := Then(Release(MapMtx), k);
    assert Disciplined(over, unlock);
    var cut, saving := over.(stage := Truncated), over.(stage := Saving);
    assert cut.(stage := Idle) == over && saving.(stage := Idle) == over;
    assert Disciplined(cut, Then(WriteBytes, unlock));
    assert Disciplined(cut, Then(SaveFailed, unlock));
    assert Disciplined(saving, Then(SaveFailed, unlock));
    ThenDisciplined(saving, Truncate, Branch(Chance, Then(WriteBytes, unlock), Then(SaveFailed, unlock)));
  }

  lemma {:induction false} SaveDisciplined(m: Mode, k: Prog)
    requires m.AtTop() && m.stage == Saving
    requires forall recent :: Disciplined(m.(stage := Idle, recent := recent), k)
    ensures Disciplined(m, Save(k, k))
  {
    var marshalled := m.(recent := true);
    assert m.(stage := Idle) == m.(stage := Idle, recent := m.recent);
    ThenDisciplined(m, SaveFailed, k);
    assert marshalled.(stage := Idle) == m.(stage := Idle, recent := true);
    ThenDisciplined(marshalled, SaveFailed, k);
    WriteDisciplined(marshalled.(stage := Idle), k);
    ThenDisciplined(marshalled, Acquire(MapMtx), WriteFile(k, k));
    ThenDisciplined(m, Marshal, Branch(Chance, Then(Acquire(MapMtx), WriteFile(k, k)), Then(SaveFailed, k)));
  }

  lemma {:induction false} CreateDisciplined(m: Mode, img: string, path: string, k: Prog)
    requires m.AtTop() && m.stage == Idle && HasPrefix(path, MOUNT_PATH)
    requires forall recent :: Disciplined(m.(recent := recent), k)
    ensures Disciplined(m, Create(img, path, k))
  {
    var locked := m.(held := m.held + {Excl(MapMtx)});
    var counted := locked.(stage := Saving, recent := false);
    var unlocked := m.(stage := Saving, recent := false);
    assert counted.held - {Excl(MapMtx)} == m.held;
    forall recent ensures Disciplined(unlocked.(stage := Idle, recent := recent), k) {
      assert unlocked.(stage := Idle, recent := recent) == m.(recent := recent);
    }
    SaveDisciplined(unlocked, k);
    assert Disciplined(counted, Then(Release(MapMtx), Save(k, k)));
    assert Disciplined(locked, Then(CreateCommit(img, path), Then(Release(MapMtx), Save(k, k))));
  }

  lemma {:induction false} DeleteDisciplined(m: Mode, img: string, k: Prog)
    requires m.held == {Excl(WlaMtx)} && m.stage == Idle
    requires forall v, recent :: Disciplined(m.(ruling := Found(v), recent := recent), k)
    ensures Disciplined(m, Delete(img, k))
  {
    var locked := m.(held := m.held + {Excl(MapMtx)});
    var hit, miss := Then(Release(MapMtx), Save(k, k)), Then(Release(MapMtx), k);
    assert locked.held - {Excl(MapMtx)} == m.held;
    forall v: Verdict ensures Disciplined(After(locked, DeleteCommit(img), v), Branch(Hit, hit, miss)) {
      var ruled := After(locked, DeleteCommit(img), v);
      var unlocked := ruled.(held := m.held);
      if v == Missing {
        assert unlocked == m.(ruling := Found(v), recent := false);
        assert Disciplined(ruled, miss);
      } else {
        forall recent ensures Disciplined(unlocked.(stage := Idle, recent := recent), k) {
          assert unlocked.(stage := Idle, recent := recent) == m.(ruling := Found(v), recent := recent);
        }
        SaveDisciplined(unlocked, k);
        assert Disciplined(ruled, hit);
      }
    }
    assert Disciplined(locked, Then(DeleteCommit(img), Branch(Hit, hit, miss)));
  }

  lemma {:induction false} DecideDisciplined(m: Mode)
    requires m.held == {Excl(WlaMtx)} && m.stage == Idle && m.ruling.Found?
    ensures Disciplined(m, Decide())
  {
    LeaveDisciplined(m);
    if m.ruling.verdict == Last {
      var locked := m.(held := m.held + {Excl(TeardownMtx)});
      assert locked.held - {Excl(TeardownMtx)} == m.held;
      assert locked.(held := m.held) == m;
      var unlock := Then(Release(TeardownMtx), Leave());
      ThenDisciplined(locked, Release(TeardownMtx), Leave());
      ThenDisciplined(locked, CloseImage, unlock);
      ThenDisciplined(locked, UnmountImage, Then(CloseImage, unlock));
      ThenDisciplined(m, Acquire(TeardownMtx), Then(UnmountImage, Then(CloseImage, unlock)));
    }
    assert Disciplined(m, Branch(IsLastVM, Teardown(), Leave())) || m.ruling.verdict == Missing;
  }

  lemma StopDisciplined(img: string)
    ensures Disciplined(INITIAL, StopCode(img))
  {
    var m := INITIAL.(held := {Excl(WlaMtx)});
    forall v, recent ensures Disciplined(m.(ruling := Found(v), recent := recent), Decide()) {
      DecideDisciplined(m.(ruling := Found(v), recent := recent));
    }
    DeleteDisciplined(m, img, Decide());
    LeaveDisciplined(m);
    var delete := Delete(img, Decide());
    assert Disciplined(m, Then(External, delete));
    assert Disciplined(m, Branch(Chance, Then(External, delete), delete));
    assert INITIAL.held + {Excl(WlaMtx)} == m.held;
  }

  lemma {:induction false} VolumesDisciplined(m: Mode)
    requires m.held == {Excl(WlaMtx)} && m.stage == Idle
    ensures Disciplined(m, PrepareVolumes())
  {
    LeaveDisciplined(m);
    LockedDisciplined(m, WatcherMtx, Leave());
    ChanceDisciplined(m, Locked(WatcherMtx, Leave()), Leave());
    LockedDisciplined(m, VmVolumeMtx, Branch(Chance, Locked(WatcherMtx, Leave()), Leave()));
    ChanceDisciplined(m, VmVolume(), Leave());
    LockedDisciplined(m, ImgVolumeMtx, Branch(Chance, VmVolume(), Leave()));
    ChanceDisciplined(m, Locked(ImgVolumeMtx, Branch(Chance, VmVolume(), Leave())), VmVolume());
    ChanceDisciplined(m, ImageThenVm(), Leave());
    LockedDisciplined(m, TpmMtx, Branch(Chance, ImageThenVm(), Leave()));
    ChanceDisciplined(m, ImageVolume(), VmVolume());
    ChanceDisciplined(m, Branch(Chance, ImageVolume(), VmVolume()), Leave());
  }

  lemma {:induction false} LookUpDisciplined(m: Mode, k: Prog)
    requires m.held == {Excl(WlaMtx)} && m.stage == Idle && Disciplined(m, k)
    ensures Disciplined(m, LookUp(k))
  {
    LeaveDisciplined(m);
    var reading := m.(held := m.held + {ReadMap});
    assert reading.held - {ReadMap} == m.held;
    assert reading.(held := m.held) == m;
    var rest := Branch(Chance, k, Leave());
    assert Disciplined(reading, Then(ReleaseRead, rest));
    assert Disciplined(reading, Then(External, Then(ReleaseRead, rest)));
  }

  lemma {:induction false} ReloadDisciplined(m: Mode, k: Prog)
    requires m.held == {Excl(WlaMtx)} && m.stage == Reloading && m.ruling == Undecided
    requires Disciplined(m.(stage := Idle), k)
    ensures Disciplined(m, Reload(k))
  {
    LeaveDisciplined(m.(stage := Idle));
    var reading := m.(held := m.held + {ReadMap});
    assert reading.held - {ReadMap} == m.held;
    assert reading.(held := m.held) == m;
    var failed, merge := Then(ReloadFailed, Leave()), Then(MergeFile, k);
    ThenDisciplined(m, ReloadFailed, Leave());
    ThenDisciplined(m, MergeFile, k);
    ChanceDisciplined(m, merge, failed);
    ThenDisciplined(m, ReadFile, Branch(Chance, merge, failed));
    var rest := Branch(Chance, Then(ReadFile, Branch(Chance, merge, failed)), failed);
    ChanceDisciplined(m, Then(ReadFile, Branch(Chance, merge, failed)), failed);
    ThenDisciplined(reading, ReleaseRead, rest);
    ThenDisciplined(reading, External, Then(ReleaseRead, rest));
    ThenDisciplined(m, AcquireRead, Then(External, Then(ReleaseRead, rest)));
  }

  lemma {:induction false} ImagePathDisciplined(m: Mode, k: Prog)
    requires m.held == {Excl(WlaMtx)} && m.stage == Idle && m.ruling == Undecided && Disciplined(m, k)
    ensures Disciplined(m, ImagePathFromFile(k))
  {
    LookUpDisciplined(m, k);
    assert m.(stage := Reloading).(stage := Idle) == m;
    ReloadDisciplined(m.(stage := Reloading), LookUp(k));
  }

  lemma {:induction false} UnderWlaDisciplined(m: Mode, k: Prog, lazy: Prog)
    requires m == INITIAL.(held := {Excl(WlaMtx)}) && Disciplined(m, k) && Disciplined(m, lazy)
    ensures Disciplined(INITIAL, Then(Acquire(WlaMtx), Branch(Chance, Branch(Chance, k, lazy), Leave())))
  {
    LeaveDisciplined(m);
    ChanceDisciplined(m, k, lazy);
    ChanceDisciplined(m, Branch(Chance, k, lazy), Leave());
    assert INITIAL.held + {Excl(WlaMtx)} == m.held;
    assert After(INITIAL, Acquire(WlaMtx), Missing) == m;
    ThenDisciplined(INITIAL, Acquire(WlaMtx), Branch(Chance, Branch(Chance, k, lazy), Leave()));
  }

  lemma PrepareDisciplined(m: Mode)
    requires m == INITIAL.(held := {Excl(WlaMtx)})
    ensures Disciplined(INITIAL, PrepareCode())
  {
    VolumesDisciplined(m);
    ImagePathDisciplined(m, PrepareVolumes());
    UnderWlaDisciplined(m, PrepareVolumes(), ImagePathFromFile(PrepareVolumes()));
  }

  /**
   Every call, on every path through it: takes no lock that it holds, takes nothing
   but leaf locks once it holds one, commits a Delete or merges a file only under
   wlaMtx, tears an image down only on a last-VM verdict under wlaMtx and the
   teardown mutex, and returns holding nothing.
   */
  lemma EveryCallIsDisciplined(c: Call)
    ensures Disciplined(INITIAL, Code(c))
  {
    match c
    case StartCall(img, path) =>
      forall recent ensures Disciplined(INITIAL.(recent := recent), Return) {}
      if HasPrefix(path, MOUNT_PATH) {
        CreateDisciplined(INITIAL, img, path, Return);
      }
    case PrepareCall(_) => PrepareDisciplined(INITIAL.(held := {Excl(WlaMtx)}));
    case StopCall(img) => StopDisciplined(img);
    case FileEvent => LockedDisciplined(INITIAL, WatcherMtx, Return);
  }
}
