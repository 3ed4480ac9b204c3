// The destination's handlers of a live migration (crates/pertisk-daemon/src/service.rs), each as one
// call; LiveMigration interleaves their parts.
module MigrationReceiver {
  import opened Prelude
  import opened Ids
  import opened LiveMigration

  class Receiver {
    var incoming: set<VmId>
    var processes: map<VmId, Process>

    constructor ()
      ensures incoming == {} && processes == map[]
    {
      incoming, processes := {}, map[];
    }

    function ProcessOf(id: VmId): Process
      reads this
    {
      if id in processes then processes[id] else NoProcess
    }

    // One guest, as the protocol sees it, while no finish call for it is under way.
    function View(id: VmId): Dest
      reads this
    {
      Dest(ProcessOf(id), id in incoming, NoHandler)
    }

    method ApplyIncoming(id: VmId, fate: ListenFate) returns (listens: bool)
      modifies this
      ensures View(id) == AfterListen(old(View(id)), fate)
      ensures forall other | other != id :: View(other) == old(View(other))
      ensures listens <==> fate.Listens?
      ensures listens ==> incoming == old(incoming) + {id} && ProcessOf(id) == Paused
      ensures !listens ==> incoming == old(incoming)
      ensures fate.Refused? ==> ProcessOf(id) == old(ProcessOf(id))
      ensures fate.ExportFails? ==> ProcessOf(id) == if fate.destroyed then NoProcess else Paused
    {
      if fate.Refused? {
        return false;
      }
      processes := processes[id := Paused];
      if fate.ExportFails? {
        if fate.destroyed {
          processes := processes[id := NoProcess];
        }
        return false;
      }
      incoming := incoming + {id};
      listens := true;
    }

    // With nothing in between, the call reads the entry, starts the guest and commits; without an
    // entry, or when the start fails, it is an error.
    method FinishIncoming(id: VmId, call: nat, fate: StartFate) returns (r: Result<(), ()>)
      modifies this
      ensures r.Ok? <==> id in old(incoming) && fate.Resumes?
      ensures id !in old(incoming) ==> View(id) == old(View(id))
      ensures id in old(incoming) ==>
        var started := AfterStart(AfterRead(old(View(id)), call), fate);
        View(id) == if fate.Resumes? then AfterCommit(started) else started
      ensures forall other | other != id :: View(other) == old(View(other))
      ensures incoming == old(incoming) - {id}
      ensures r.Ok? ==> ProcessOf(id) == if old(ProcessOf(id)).Loaded? then Executing else old(ProcessOf(id))
      ensures r.Err? ==>
        ProcessOf(id) == if id in old(incoming) && fate == StartFails(true) then NoProcess else old(ProcessOf(id))
    {
      if id !in incoming {
        return Err(());
      }
      if fate.StartFails? {
        incoming := incoming - {id};
        if fate.destroyed {
          processes := processes[id := NoProcess];
        }
        return Err(());
      }
      if ProcessOf(id).Loaded? {
        processes := processes[id := Executing];
      }
      incoming := incoming - {id};
      r := Ok(());
    }

    method AbortIncoming(id: VmId, destroyed: bool)
      modifies this
      ensures View(id) == AfterAbort(old(View(id)), destroyed)
      ensures forall other | other != id :: View(other) == old(View(other))
      ensures incoming == old(incoming) - {id}
      ensures ProcessOf(id) == if id in old(incoming) && destroyed then NoProcess else old(ProcessOf(id))
    {
      if id !in incoming {
        return;
      }
      incoming := incoming - {id};
      if destroyed {
        processes := processes[id := NoProcess];
      }
    }
  }
}
