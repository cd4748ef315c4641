/**
 The agent's objects behind the RPC methods: one host, one association table and the
 mutex that Prepare and Stop hold. Every call keeps the agent's invariant.
 */
module AgentDaemon {
  import opened Common
  import opened Volumes
  import opened VolumeTheorems
  import opened HostMachine
  import opened Agent
  import opened AgentRuns
  import opened AgentAnswers
  import A = Association
  import H = HostRuns

  /** `wlaMtx` is held during Prepare and Stop, not during Start. */
  class Daemon {
    const machine: Machine
    const store: A.AssociationStore
    var wlaMtx: bool

    constructor (machine: Machine, store: A.AssociationStore)
      requires machine.Valid() && store.Valid()
      requires TableAt(machine.site, store.View()) && TableAt(machine.site, A.Decode(store.file))
      ensures this.machine == machine && this.store == store && Valid()
    {
      this.machine, this.store, wlaMtx := machine, store, false;
    }

    ghost function View(): State
      reads machine, store, store.associations.Values
    {
      State(machine.View(), store.View(), store.file)
    }

    /** Between two calls the mutex is free and the invariant of serial runs holds. */
    ghost predicate Valid()
      reads this, machine, store, store.associations.Values
    {
      !wlaMtx && store.Valid() && machine.site.WellFormed() && AgentInv(machine.site, View())
    }

    /** Only a VM on an image below the mount directory is counted, after every check; the host is not touched. */
    method Start(d: Domain, e: StartEnv) returns (reply: bool)
      requires Valid() && Placed(machine.site, View(), Starts(d, e))
      modifies store, store.associations.Values
      ensures Valid() && (View(), reply) == StartCall(old(View()), d, e)
      ensures View().host == old(View()).host && CountedStay(machine.site, old(View()), View())
      ensures StartIs(old(View()), View(), reply, d, e)
    {
      StartAnswer(View(), d, e);
      StartKeeps(machine.site, View(), d, e);
      if !e.valid || !e.parse {
        return false;
      }
      if HasPrefix(d.imagePath, MOUNT_PATH) {
        if !e.hardware || !e.flavor || !e.manifest || !e.report {
          return false;
        }
        reply := store.Create(d.img, d.imagePath, e.save);
      } else {
        reply := true;
      }
    }

    /**
     Prepare under the mutex: no volume is overwritten, no mount is lost and no count
     changes but by a load of the file.
     */
    method Prepare(d: Domain, valid: bool, readFails: bool, e: PrepareEnv) returns (reply: Outcome)
      requires Valid() && Placed(machine.site, View(), Prepares(d, valid, readFails, e))
      modifies this`wlaMtx, machine, store`associations
      ensures Valid() && (View(), reply) == PrepareCall(old(View()), d, valid, readFails, e)
      ensures VolumesKept(old(View()).host, View().host) && MountsKept(old(View()).host, View().host)
      ensures CountedStay(machine.site, old(View()), View())
      ensures PrepareIs(old(View()), View(), reply, d, valid, readFails, e)
    {
      ghost var a := View();
      PrepareCallAnswer(machine.site, a, d, valid, readFails, e);
      reply := PrepareUnderMutex(d, valid, readFails, e);
      PrepareKeepsAgent(machine.site, a, d, valid, readFails, e);
    }

    /** The lock, the call and the unlock on every path. */
    method PrepareUnderMutex(d: Domain, valid: bool, readFails: bool, e: PrepareEnv) returns (reply: Outcome)
      requires !wlaMtx && store.Valid() && machine.Valid()
      requires valid ==>
        H.PreparePlaced(machine.site, machine.View(), d, e.(savedPath := SavedPath(View(), d, readFails, e)))
      modifies this`wlaMtx, machine, store`associations
      ensures !wlaMtx && store.Valid() && (View(), reply) == PrepareCall(old(View()), d, valid, readFails, e)
    {
      wlaMtx := true;
      reply := Returned(false);
      if valid {
        reply := PrepareLocked(d, readFails, e);
      }
      wlaMtx := false;
    }

    /** Prepare under the mutex, for a valid request. */
    method PrepareLocked(d: Domain, readFails: bool, e: PrepareEnv) returns (reply: Outcome)
      requires store.Valid() && machine.Valid()
      requires H.PreparePlaced(machine.site, machine.View(), d, e.(savedPath := SavedPath(View(), d, readFails, e)))
      modifies machine, store`associations
      ensures store.Valid() && (View(), reply) == PrepareCall(old(View()), d, true, readFails, e)
    {
      var savedPath := AskForPath(d, readFails, e);
      assert savedPath == SavedPath(old(View()), d, readFails, e);
      var ran;
      reply, ran := machine.PrepareDomain(d, e.(savedPath := savedPath));
    }

    /** The lookup inside Prepare: it depends on the host only for whether it happens, and does not change it. */
    method AskForPath(d: Domain, readFails: bool, e: PrepareEnv) returns (savedPath: string)
      requires store.Valid()
      modifies store`associations
      ensures store.Valid()
      ensures var consults := ConsultsTable(machine.View(), d, e);
        && store.View() == (if consults then TableForLookup(old(View()), readFails) else old(store.View()))
        && savedPath == if consults then A.PathOf(store.View(), d.img) else ""
    {
      savedPath := "";
      if ConsultsTable(machine.Now(), d, e) {
        savedPath := store.ImagePathFromVMAssociationFile(d.img, readFails);
      }
    }

    /** Stop under the mutex: no file of the host changes, and an image that is still counted stays mounted. */
    method Stop(d: Domain, valid: bool, e: StopEnv, save: A.SaveFaults) returns (reply: bool)
      requires Valid() && Placed(machine.site, View(), Stops(d, valid, e, save))
      modifies this`wlaMtx, machine, store, store.associations.Values
      ensures Valid() && (View(), reply) == StopCall(old(View()), d, valid, e, save)
      ensures View().host.root == old(View()).host.root && CountedStay(machine.site, old(View()), View())
      ensures !HasPrefix(d.vmPath, MOUNT_PATH) ==> StopIs(old(View()), View(), reply, d, valid, e, save)
    {
      ghost var a := View();
      if !HasPrefix(d.vmPath, MOUNT_PATH) {
        StopAnswer(machine.site, a, d, valid, e, save);
      }
      reply := StopUnderMutex(d, valid, e, save);
      StopKeepsAgent(machine.site, a, d, valid, e, save);
      CountedAfterStop(machine.site, a, d, valid, e, save);
    }

    /** The lock, the call and the unlock on every path. */
    method StopUnderMutex(d: Domain, valid: bool, e: StopEnv, save: A.SaveFaults) returns (reply: bool)
      requires !wlaMtx && store.Valid() && machine.Valid()
      modifies this`wlaMtx, machine, store, store.associations.Values
      ensures !wlaMtx && store.Valid() && (View(), reply) == StopCall(old(View()), d, valid, e, save)
    {
      wlaMtx := true;
      reply := false;
      if valid {
        reply := StopLocked(d, e, save);
      }
      wlaMtx := false;
    }

    /** Stop under the mutex, for a valid request. */
    method StopLocked(d: Domain, e: StopEnv, save: A.SaveFaults) returns (reply: bool)
      requires store.Valid() && machine.Valid()
      modifies machine, store, store.associations.Values
      ensures store.Valid() && (View(), reply) == StopCall(old(View()), d, true, e, save)
    {
      reply := machine.CloseVmVolume(d, e);
      ghost var closed := View();
      assert reply ==> closed == old(View()).(host := CloseVm(old(View()).host, d, e));
      if reply {
        FinishStop(d, e, save);
        assert View() == AfterQuestion(closed, d, e, save);
      }
    }

    /** Stop from its question to the association table on. */
    method FinishStop(d: Domain, e: StopEnv, save: A.SaveFaults)
      requires store.Valid() && machine.Valid()
      modifies machine, store, store.associations.Values
      ensures store.Valid()
      ensures View() == AfterQuestion(old(View()), d, e, save)
    {
      ghost var asked := View();
      var isLastVm, imagePath, found, saved := store.Delete(d.img, save);
      assert machine.View() == asked.host;
      if imagePath != "" && isLastVm {
        machine.CloseImageVolume(d, imagePath, e);
      }
    }
  }
}
