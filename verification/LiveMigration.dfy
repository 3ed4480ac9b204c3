// Live migration as a protocol with delayed and lost messages and any number of calls under way at
// once (crates/pertisk-daemon/src/service.rs). The coordinators run on the source node.
module LiveMigration {
  import opened Prelude
  import opened Scheduler

  // One call's progress through live_migrate.
  datatype Pc =
    | Listening(dest: NodeId)   // /v1/peer/incoming is out
    | Prepared(dest: NodeId)    // the destination listens; exports not compared yet
    | Mirroring(dest: NodeId)   // local disks are being copied
    | Copied(dest: NodeId)      // ready for migrate_to
    | Landed(dest: NodeId)      // migrate_to succeeded; /v1/peer/incoming/finish is out
    | Done(dest: NodeId)
    | Failed(dest: NodeId)

  datatype Message =
    | Incoming(to: NodeId, call: nat)
    | Abort(to: NodeId, call: nat)
    | Finish(to: NodeId, call: nat)

  // The destination's hypervisor process for the guest: fresh and waiting for it, holding it since
  // migrate_to, or executing it.
  datatype Process = NoProcess | Paused | Loaded | Executing

  predicate Holds(p: Process) {
    p.Loaded? || p.Executing?
  }

  // A finish_incoming handler under way: it has read the entry, or it has also resumed the process.
  datatype Handler = NoHandler | Begun(call: nat) | Resumed(call: nat)

  datatype Dest = Dest(process: Process, entry: bool, handler: Handler)

  // `calls` are the migrate calls for the guest, in the order they started; nothing keeps a second
  // one from starting. `listened` and `resumed` hold the calls whose incoming, or finish, call was
  // answered with success. `sender`, `ran` and `lost` are history: whose migrate_to sent the guest,
  // where it has executed since, and whether a message made a destination drop it.
  datatype World = World(
    source: NodeId,
    sourceExecutes: bool,
    sourceDropped: bool,
    owner: NodeId,
    calls: seq<Pc>,
    dests: map<NodeId, Dest>,
    wire: set<Message>,
    listened: set<nat>,
    resumed: set<nat>,
    sender: Option<nat>,
    ran: set<NodeId>,
    lost: bool)

  ghost predicate Init(w: World) {
    && w.sourceExecutes && !w.sourceDropped && w.owner == w.source
    && w.calls == [] && w.wire == {} && w.listened == {} && w.resumed == {}
    && w.sender == None && w.ran == {} && !w.lost
    && w.source !in w.dests
    && forall d <- w.dests :: w.dests[d] == Dest(NoProcess, false, NoHandler)
  }

  // ---------- The coordinators ----------

  ghost predicate Start(w: World, w': World, dest: NodeId) {
    && dest in w.dests
    && w' == w.(calls := w.calls + [Listening(dest)], wire := w.wire + {Incoming(dest, |w.calls|)})
  }

  function To(w: World, c: nat, pc: Pc): World
    requires c < |w.calls|
  {
    w.(calls := w.calls[c := pc])
  }

  // The answer arrives; or it does not, and nobody is told.
  ghost predicate HearsListen(w: World, w': World, c: nat) {
    && c < |w.calls| && w.calls[c].Listening?
    && (|| (c in w.listened && w' == To(w, c, Prepared(w.calls[c].dest)))
        || w' == To(w, c, Failed(w.calls[c].dest)))
  }

  // The destination's address or the boot spec cannot be worked out: no abort is sent.
  ghost predicate FailsSilently(w: World, w': World, c: nat) {
    c < |w.calls| && w.calls[c].Prepared? && w' == To(w, c, Failed(w.calls[c].dest))
  }

  // Exports compared, disks mirrored (or none to mirror).
  ghost predicate Advances(w: World, w': World, c: nat) {
    && c < |w.calls|
    && var dest := w.calls[c].dest;
       || (w.calls[c].Prepared? && (w' == To(w, c, Mirroring(dest)) || w' == To(w, c, Copied(dest))))
       || (w.calls[c].Mirroring? && w' == To(w, c, Copied(dest)))
  }

  // Layout mismatch, mirror failure, or migrate_to failure: an abort is sent.
  ghost predicate GivesUp(w: World, w': World, c: nat) {
    && c < |w.calls| && (w.calls[c].Prepared? || w.calls[c].Mirroring? || w.calls[c].Copied?)
    && w' == To(w, c, Failed(w.calls[c].dest)).(wire := w.wire + {Abort(w.calls[c].dest, c)})
  }

  // migrate_to succeeds: the hypervisor stops the source at that instant.
  ghost predicate Migrates(w: World, w': World, c: nat) {
    && c < |w.calls| && w.calls[c].Copied? && w.sourceExecutes
    && var dest := w.calls[c].dest;
    && dest in w.dests && w.dests[dest].process.Paused?
    && w' == To(w, c, Landed(dest)).(sourceExecutes := false, sender := Some(c),
                                     dests := w.dests[dest := w.dests[dest].(process := Loaded)],
                                     wire := w.wire + {Finish(dest, c)})
  }

  ghost predicate HearsFinish(w: World, w': World, c: nat) {
    && c < |w.calls| && w.calls[c].Landed?
    && var dest := w.calls[c].dest;
       || (c in w.resumed && w' == To(w, c, Done(dest)).(sourceDropped := true, owner := dest))
       || w' == To(w, c, Failed(dest))
  }

  ghost predicate CallGoesOn(w: World, w': World, c: nat) {
    || HearsListen(w, w', c) || FailsSilently(w, w', c) || Advances(w, w', c) || GivesUp(w, w', c)
    || Migrates(w, w', c) || HearsFinish(w, w', c)
  }

  // ---------- The destination ----------

  // apply_incoming: it is refused before a process exists; or a new process replaces any old one and
  // the disk export fails; or it listens.
  datatype ListenFate = Refused | ExportFails(destroyed: bool) | Listens

  function AfterListen(d: Dest, fate: ListenFate): Dest {
    match fate
    case Refused => d
    case ExportFails(destroyed) => d.(process := if destroyed then NoProcess else Paused)
    case Listens => d.(process := Paused, entry := true)
  }

  // A message is handled: it may have cost the guest.
  function Handled(w: World, m: Message, d: Dest): World
    requires m.to in w.dests
  {
    w.(wire := w.wire - {m}, dests := w.dests[m.to := d],
       lost := w.lost || (Holds(w.dests[m.to].process) && !Holds(d.process)))
  }

  ghost predicate DestListens(w: World, w': World, m: Message) {
    && m in w.wire && m.Incoming? && m.to in w.dests
    && exists fate: ListenFate ::
         w' == Handled(w, m, AfterListen(w.dests[m.to], fate)).(
                 listened := if fate.Listens? then w.listened + {m.call} else w.listened)
  }

  // abort_incoming: with an entry, remove it and destroy the process, which may fail unnoticed.
  function AfterAbort(d: Dest, destroyed: bool): Dest {
    if !d.entry then d
    else Dest(if destroyed then NoProcess else d.process, false, d.handler)
  }

  ghost predicate DestAborts(w: World, w': World, m: Message) {
    && m in w.wire && m.Abort? && m.to in w.dests
    && exists destroyed :: w' == Handled(w, m, AfterAbort(w.dests[m.to], destroyed))
  }

  // finish_incoming reads the entry; without one it is an error.
  function AfterRead(d: Dest, call: nat): Dest {
    if d.entry && d.handler.NoHandler? then d.(handler := Begun(call)) else d
  }

  ghost predicate DestBeginsFinish(w: World, w': World, m: Message) {
    && m in w.wire && m.Finish? && m.to in w.dests
    && w' == Handled(w, m, AfterRead(w.dests[m.to], m.call))
  }

  ghost predicate MessageArrives(w: World, w': World, m: Message) {
    DestListens(w, w', m) || DestAborts(w, w', m) || DestBeginsFinish(w, w', m)
  }

  // The hypervisor accepts the resume, which a process without the guest may do as well; or the entry
  // goes and the process is destroyed.
  datatype StartFate = Resumes | StartFails(destroyed: bool)

  function AfterStart(d: Dest, fate: StartFate): Dest
    requires d.handler.Begun?
  {
    match fate
    case Resumes =>
      d.(process := if d.process.Loaded? then Executing else d.process, handler := Resumed(d.handler.call))
    case StartFails(destroyed) => Dest(if destroyed then NoProcess else d.process, false, NoHandler)
  }

  ghost predicate DestResumes(w: World, w': World, d: NodeId) {
    && d in w.dests && w.dests[d].handler.Begun?
    && exists fate: StartFate ::
         && (fate.Resumes? ==> !w.dests[d].process.NoProcess?)
         && w' == w.(ran := if fate.Resumes? && Holds(w.dests[d].process) then w.ran + {d} else w.ran,
                     dests := w.dests[d := AfterStart(w.dests[d], fate)])
  }

  // The entry goes, the record is stored and the call answers with success.
  function AfterCommit(d: Dest): Dest {
    d.(entry := false, handler := NoHandler)
  }

  ghost predicate DestCommits(w: World, w': World, d: NodeId) {
    && d in w.dests && w.dests[d].handler.Resumed?
    && w' == w.(resumed := w.resumed + {w.dests[d].handler.call},
                dests := w.dests[d := AfterCommit(w.dests[d])])
  }

  ghost predicate HandlerGoesOn(w: World, w': World, d: NodeId) {
    DestResumes(w, w', d) || DestCommits(w, w', d)
  }

  ghost predicate Loses(w: World, w': World) {
    w' == w.(wire := w'.wire) && w'.wire <= w.wire
  }

  ghost predicate Next(w: World, w': World) {
    || (exists dest :: Start(w, w', dest))
    || (exists c :: CallGoesOn(w, w', c))
    || (exists m :: MessageArrives(w, w', m))
    || (exists d :: HandlerGoesOn(w, w', d))
    || Loses(w, w')
  }

  ghost predicate IsRun(run: seq<World>) {
    && run != []
    && Init(run[0])
    && forall i | 0 <= i < |run| - 1 :: Next(run[i], run[i + 1])
  }

  // ---------- Safety ----------

  ghost predicate Busy(d: Dest) {
    !d.handler.NoHandler? || Holds(d.process)
  }

  // The guest is sent once, its one finish call is handled once, and the destination that answers it
  // executes the guest as long as no message made it drop the guest.
  ghost predicate Delivery(w: World, s: nat, to: NodeId, d: Dest) {
    && (Finish(to, s) in w.wire ==> d.handler.NoHandler? && s !in w.resumed)
    && (!d.handler.NoHandler? ==> d.handler.call == s && s !in w.resumed)
    && (w.lost ==> !Holds(d.process))
    && (!w.lost && (Finish(to, s) in w.wire || d.handler.Begun?) ==> d.process.Loaded?)
    && (!w.lost && (d.handler.Resumed? || s in w.resumed) ==> d.process.Executing? && to in w.ran)
  }

  ghost predicate Inv(w: World) {
    && w.source !in w.dests
    && (forall b: nat | b < |w.calls| :: w.calls[b].dest in w.dests)
    && (forall m <- w.wire :: m.call < |w.calls| && m.to == w.calls[m.call].dest)
    && (forall b <- w.listened :: b < |w.calls|)
    && (w.sourceExecutes <==> w.sender.None?)
    && (w.sender.None? ==> !w.lost && w.ran == {})
    && (w.sender.Some? ==>
          && w.sender.value < |w.calls|
          && var pc := w.calls[w.sender.value];
          && (pc.Landed? || pc.Done? || pc.Failed?)
          && w.ran <= {pc.dest}
          && Delivery(w, w.sender.value, pc.dest, w.dests[pc.dest]))
    && (forall b: nat | b < |w.calls| && (w.calls[b].Landed? || w.calls[b].Done?) :: w.sender == Some(b))
    && (forall m <- w.wire | m.Finish? :: w.sender == Some(m.call))
    && (forall b <- w.resumed :: w.sender == Some(b))
    && (forall d <- w.dests | Busy(w.dests[d]) :: w.sender.Some? && w.calls[w.sender.value].dest == d)
    && (w.sourceDropped <==> w.sender.Some? && w.calls[w.sender.value].Done?)
    && (w.sourceDropped ==> w.sender.value in w.resumed && w.owner == w.calls[w.sender.value].dest)
    && (!w.sourceDropped ==> w.owner == w.source)
  }

  lemma StartKeepsInv(w: World, w': World, dest: NodeId)
    requires Inv(w) && Start(w, w', dest)
    ensures Inv(w')
  {
  }

  // The steps of a call that reach nobody else, and come before migrate_to.
  ghost predicate Quiet(w: World, w': World, c: nat) {
    && c < |w.calls| == |w'.calls| && w' == To(w, c, w'.calls[c])
    && var (pc, pc') := (w.calls[c], w'.calls[c]);
    && pc'.dest == pc.dest && !pc.Landed? && !pc.Done? && !pc.Failed?
    && (pc'.Failed? || ((pc.Listening? ==> c in w.listened) && (pc'.Prepared? || pc'.Mirroring? || pc'.Copied?)))
  }

  lemma QuietSteps(w: World, w': World, c: nat)
    requires HearsListen(w, w', c) || FailsSilently(w, w', c) || Advances(w, w', c)
    ensures Quiet(w, w', c)
  {
  }

  lemma QuietKeepsInv(w: World, w': World, c: nat)
    requires Inv(w) && Quiet(w, w', c)
    ensures Inv(w')
  {
  }

  lemma GivesUpKeepsInv(w: World, w': World, c: nat)
    requires Inv(w) && GivesUp(w, w', c)
    ensures Inv(w')
  {
  }

  lemma MigratesKeepsInv(w: World, w': World, c: nat)
    requires Inv(w) && Migrates(w, w', c)
    ensures Inv(w')
  {
  }

  lemma AnswerKeepsInv(w: World, w': World, c: nat)
    requires Inv(w) && HearsFinish(w, w', c)
    ensures Inv(w')
  {
  }

  lemma CallKeepsInv(w: World, w': World, c: nat)
    requires Inv(w) && CallGoesOn(w, w', c)
    ensures Inv(w')
  {
    hide Inv, Quiet, HearsListen, FailsSilently, Advances, GivesUp, Migrates, HearsFinish;
    if GivesUp(w, w', c) {
      GivesUpKeepsInv(w, w', c);
    } else if Migrates(w, w', c) {
      MigratesKeepsInv(w, w', c);
    } else if HearsFinish(w, w', c) {
      AnswerKeepsInv(w, w', c);
    } else {
      QuietSteps(w, w', c);
      QuietKeepsInv(w, w', c);
    }
  }

  lemma ListenKeepsInv(w: World, w': World, m: Message)
    requires Inv(w) && DestListens(w, w', m)
    ensures Inv(w')
  {
  }

  lemma AbortKeepsInv(w: World, w': World, m: Message)
    requires Inv(w) && DestAborts(w, w', m)
    ensures Inv(w')
  {
  }

  lemma BeginKeepsInv(w: World, w': World, m: Message)
    requires Inv(w) && DestBeginsFinish(w, w', m)
    ensures Inv(w')
  {
  }

  lemma MessageKeepsInv(w: World, w': World, m: Message)
    requires Inv(w) && MessageArrives(w, w', m)
    ensures Inv(w')
  {
    hide Inv, DestListens, DestAborts, DestBeginsFinish;
    if DestListens(w, w', m) {
      ListenKeepsInv(w, w', m);
    } else if DestAborts(w, w', m) {
      AbortKeepsInv(w, w', m);
    } else {
      BeginKeepsInv(w, w', m);
    }
  }

  lemma HandlerKeepsInv(w: World, w': World, d: NodeId)
    requires Inv(w) && HandlerGoesOn(w, w', d)
    ensures Inv(w')
  {
  }

  lemma LossKeepsInv(w: World, w': World)
    requires Inv(w) && Loses(w, w')
    ensures Inv(w')
  {
  }

  lemma NextKeepsInv(w: World, w': World)
    requires Inv(w) && Next(w, w')
    ensures Inv(w')
  {
    hide Inv, Start, CallGoesOn, MessageArrives, HandlerGoesOn, Loses;
    if dest :| Start(w, w', dest) {
      StartKeepsInv(w, w', dest);
    } else if c :| CallGoesOn(w, w', c) {
      CallKeepsInv(w, w', c);
    } else if m :| MessageArrives(w, w', m) {
      MessageKeepsInv(w, w', m);
    } else if d :| HandlerGoesOn(w, w', d) {
      HandlerKeepsInv(w, w', d);
    } else {
      LossKeepsInv(w, w');
    }
  }

  lemma {:induction false} RunKeepsInv(run: seq<World>, i: nat)
    requires IsRun(run) && i < |run|
    ensures Inv(run[i])
  {
    if i > 0 {
      RunKeepsInv(run, i - 1);
      NextKeepsInv(run[i - 1], run[i]);
    }
  }

  predicate ExecutesOn(w: World, n: NodeId) {
    (n == w.source && w.sourceExecutes) || (n in w.dests && w.dests[n].process.Executing?)
  }

  // In every run, at every step, the guest executes on at most one node.
  lemma AtMostOneExecutor(run: seq<World>, i: nat, m: NodeId, n: NodeId)
    requires IsRun(run) && i < |run|
    requires ExecutesOn(run[i], m) && ExecutesOn(run[i], n)
    ensures m == n
  {
    RunKeepsInv(run, i);
  }

  // The source is dropped only once the one call that sent the guest has had its finish call answered
  // with success. Its destination is then the owner; it has run the guest, and runs it still, exactly
  // unless a message made it drop the guest.
  lemma DropFollowsResume(run: seq<World>, i: nat)
    requires IsRun(run) && i < |run| && run[i].sourceDropped
    ensures exists c: nat | c < |run[i].calls| ::
              && run[i].calls[c] == Done(run[i].owner) && c in run[i].resumed && run[i].sender == Some(c)
    ensures run[i].owner in run[i].ran || run[i].lost
    ensures ExecutesOn(run[i], run[i].owner) <==> !run[i].lost
  {
    RunKeepsInv(run, i);
  }

  ghost predicate SomeCallMigrates(w: World, w': World) {
    exists c :: Migrates(w, w', c)
  }

  lemma OnlyMigratesStopsSource(w: World, w': World)
    requires Next(w, w') && !SomeCallMigrates(w, w')
    ensures w'.sourceExecutes == w.sourceExecutes && w'.source == w.source
  {
    hide Start, MessageArrives, HandlerGoesOn, Loses, Migrates;
    if c :| CallGoesOn(w, w', c) {
      assert !Migrates(w, w', c);
      CallKeepsSource(w, w', c);
    } else {
      hide CallGoesOn;
      OthersKeepSource(w, w');
    }
  }

  lemma CallKeepsSource(w: World, w': World, c: nat)
    requires CallGoesOn(w, w', c) && !Migrates(w, w', c)
    ensures w'.sourceExecutes == w.sourceExecutes && w'.source == w.source
  {
    hide HearsListen, FailsSilently, Advances, Migrates;
    if !GivesUp(w, w', c) && !HearsFinish(w, w', c) {
      QuietSteps(w, w', c);
    }
  }

  lemma OthersKeepSource(w: World, w': World)
    requires (exists dest :: Start(w, w', dest)) || (exists m :: MessageArrives(w, w', m))
          || (exists d :: HandlerGoesOn(w, w', d)) || Loses(w, w')
    ensures w'.sourceExecutes == w.sourceExecutes && w'.source == w.source
  {
  }

  // While no step so far was a migrate_to that succeeded, whatever failed, the guest runs on the
  // source alone and is its.
  lemma {:induction false} FailureLeavesGuestOnSource(run: seq<World>, i: nat)
    requires IsRun(run) && i < |run| && forall j | 0 <= j < i :: !SomeCallMigrates(run[j], run[j + 1])
    ensures run[i].sourceExecutes && run[i].owner == run[i].source && !run[i].sourceDropped
    ensures forall n :: ExecutesOn(run[i], n) <==> n == run[i].source
  {
    RunKeepsInv(run, i);
    if i > 0 {
      FailureLeavesGuestOnSource(run, i - 1);
      OnlyMigratesStopsSource(run[i - 1], run[i]);
    }
  }

  // ---------- Success, and what can spoil it ----------

  ghost predicate NothingFor(wire: set<Message>, dest: NodeId) {
    forall m <- wire :: m.to != dest
  }

  // The call failed, or its incoming call never came to listen: no message of it can follow.
  ghost predicate CannotSend(w: World, b: nat)
    requires b < |w.calls|
  {
    w.calls[b].Failed? || (w.calls[b].Listening? && b !in w.listened)
  }

  // Nothing of another call is on its way to this destination, or can still be sent there.
  ghost predicate Calm(w: World, dest: NodeId) {
    && NothingFor(w.wire, dest)
    && forall b: nat | b < |w.calls| && w.calls[b].dest == dest :: CannotSend(w, b)
  }

  // While call c is alone with its destination and has not failed: only its messages go there, and
  // none costs the guest.
  ghost predicate LoneInv(w: World, c: nat, dest: NodeId) {
    && c < |w.calls| && w.calls[c].dest == dest
    && (!w.calls[c].Failed? ==>
          && (forall m <- w.wire | m.to == dest :: m.call == c && !m.Abort?)
          && (!w.calls[c].Listening? ==> c in w.listened)
          && (c in w.listened ==> forall m <- w.wire | m.to == dest :: !m.Incoming?)
          && (forall b: nat | b < |w.calls| && b != c && w.calls[b].dest == dest ::
                CannotSend(w, b) && w.sender != Some(b))
          && (w.sender == Some(c) ==> !w.lost))
  }

  lemma LoneStart(w: World, w': World, dest: NodeId)
    requires Inv(w) && w.sourceExecutes && Calm(w, dest) && Start(w, w', dest)
    ensures LoneInv(w', |w.calls|, dest)
  {
  }

  lemma OtherStartKeepsLone(w: World, w': World, c: nat, dest: NodeId, to: NodeId)
    requires Inv(w) && LoneInv(w, c, dest) && Start(w, w', to) && to != dest
    ensures LoneInv(w', c, dest)
  {
  }

  lemma QuietKeepsLone(w: World, w': World, c: nat, dest: NodeId, b: nat)
    requires Inv(w) && LoneInv(w, c, dest) && (Quiet(w, w', b) || HearsFinish(w, w', b))
    ensures LoneInv(w', c, dest)
  {
  }

  lemma SendingKeepsLone(w: World, w': World, c: nat, dest: NodeId, b: nat)
    requires Inv(w) && LoneInv(w, c, dest) && (GivesUp(w, w', b) || Migrates(w, w', b))
    ensures LoneInv(w', c, dest)
  {
  }

  lemma CallKeepsLone(w: World, w': World, c: nat, dest: NodeId, b: nat)
    requires Inv(w) && LoneInv(w, c, dest) && CallGoesOn(w, w', b)
    ensures LoneInv(w', c, dest)
  {
    hide Inv, LoneInv, Quiet, HearsListen, FailsSilently, Advances, GivesUp, Migrates, HearsFinish;
    if GivesUp(w, w', b) || Migrates(w, w', b) {
      SendingKeepsLone(w, w', c, dest, b);
    } else {
      if !HearsFinish(w, w', b) {
        QuietSteps(w, w', b);
      }
      QuietKeepsLone(w, w', c, dest, b);
    }
  }

  lemma MessageKeepsLone(w: World, w': World, c: nat, dest: NodeId, m: Message)
    requires Inv(w) && LoneInv(w, c, dest) && MessageArrives(w, w', m)
    ensures LoneInv(w', c, dest)
  {
  }

  lemma HandlerKeepsLone(w: World, w': World, c: nat, dest: NodeId, d: NodeId)
    requires Inv(w) && LoneInv(w, c, dest) && (HandlerGoesOn(w, w', d) || Loses(w, w'))
    ensures LoneInv(w', c, dest)
  {
  }

  lemma NextKeepsLone(w: World, w': World, c: nat, dest: NodeId)
    requires Inv(w) && LoneInv(w, c, dest) && Next(w, w') && !Start(w, w', dest)
    ensures LoneInv(w', c, dest)
  {
    hide Inv, LoneInv, Start, CallGoesOn, MessageArrives, HandlerGoesOn, Loses;
    if to :| Start(w, w', to) {
      OtherStartKeepsLone(w, w', c, dest, to);
    } else if b :| CallGoesOn(w, w', b) {
      CallKeepsLone(w, w', c, dest, b);
    } else if m :| MessageArrives(w, w', m) {
      MessageKeepsLone(w, w', c, dest, m);
    } else {
      var d: NodeId :| HandlerGoesOn(w, w', d) || Loses(w, w');
      HandlerKeepsLone(w, w', c, dest, d);
    }
  }

  // A call to a destination, and whatever happens after it started: alone, if no further call to that
  // destination starts.
  ghost predicate IsAttempt(path: seq<World>, w: World, dest: NodeId, alone: bool) {
    && |path| >= 2
    && path[0] == w
    && Start(w, path[1], dest)
    && forall i | 1 <= i < |path| - 1 ::
         Next(path[i], path[i + 1]) && (alone ==> !Start(path[i], path[i + 1], dest))
  }

  // It has reported success.
  ghost predicate Succeeds(path: seq<World>, w: World, dest: NodeId)
    requires path != []
  {
    var end := path[|path| - 1];
    |w.calls| < |end.calls| && end.calls[|w.calls|] == Done(dest)
  }

  lemma {:induction false} AttemptStaysLone(path: seq<World>, w: World, dest: NodeId, k: nat)
    requires Inv(w) && w.sourceExecutes && Calm(w, dest) && IsAttempt(path, w, dest, true) && 1 <= k < |path|
    ensures Inv(path[k]) && LoneInv(path[k], |w.calls|, dest)
  {
    if k == 1 {
      StartKeepsInv(w, path[1], dest);
      LoneStart(w, path[1], dest);
    } else {
      hide Inv, LoneInv, Next, Start, Calm;
      AttemptStaysLone(path, w, dest, k - 1);
      NextKeepsInv(path[k - 1], path[k]);
      NextKeepsLone(path[k - 1], path[k], |w.calls|, dest);
    }
  }

  // ---------- Paths that lose the guest ----------

  lemma CallsStay(w: World, w': World, c: nat)
    requires CallGoesOn(w, w', c)
    ensures |w'.calls| == |w.calls|
  {
    hide HearsListen, FailsSilently, Advances;
    if !GivesUp(w, w', c) && !Migrates(w, w', c) && !HearsFinish(w, w', c) {
      QuietSteps(w, w', c);
    }
  }

  lemma CallStep(path: seq<World>, w: World, dest: NodeId, alone: bool, next: World, c: nat)
    requires IsAttempt(path, w, dest, alone) && CallGoesOn(path[|path| - 1], next, c)
    ensures IsAttempt(path + [next], w, dest, alone)
  {
    CallsStay(path[|path| - 1], next, c);
    hide CallGoesOn;
    assert !Start(path[|path| - 1], next, dest);
    hide Start;
    assert Next(path[|path| - 1], next);
    hide Next;
  }

  lemma MessageStep(path: seq<World>, w: World, dest: NodeId, alone: bool, next: World, m: Message)
    requires IsAttempt(path, w, dest, alone) && MessageArrives(path[|path| - 1], next, m)
    ensures IsAttempt(path + [next], w, dest, alone)
  {
    assert |next.calls| == |path[|path| - 1].calls|;
    assert !Start(path[|path| - 1], next, dest);
    hide MessageArrives, Start;
    assert Next(path[|path| - 1], next);
    hide Next;
  }

  lemma HandlerStep(path: seq<World>, w: World, dest: NodeId, alone: bool, next: World, d: NodeId)
    requires IsAttempt(path, w, dest, alone) && HandlerGoesOn(path[|path| - 1], next, d)
    ensures IsAttempt(path + [next], w, dest, alone)
  {
    assert |next.calls| == |path[|path| - 1].calls|;
    assert !Start(path[|path| - 1], next, dest);
    hide HandlerGoesOn, Start;
    assert Next(path[|path| - 1], next);
    hide Next;
  }

  lemma AnotherStarts(path: seq<World>, w: World, dest: NodeId, next: World)
    requires IsAttempt(path, w, dest, false) && Start(path[|path| - 1], next, dest)
    ensures IsAttempt(path + [next], w, dest, false)
  {
    hide Start;
    assert Next(path[|path| - 1], next);
    hide Next;
  }

  // What the invariant says of a guest on its source.
  ghost predicate AtHome(w: World, dest: NodeId) {
    && w.sourceExecutes && dest in w.dests && w.source !in w.dests && w.ran == {} && !w.lost
    && (forall n <- w.dests :: !Busy(w.dests[n]))
    && (forall b: nat | b < |w.calls| :: !w.calls[b].Landed? && !w.calls[b].Done?)
    && forall m <- w.wire :: m.call < |w.calls| && !m.Finish?
  }

  // The call's destination listened and is `d`, the rest of the world is as it was at the start.
  function Under(w: World, pc: Pc, d: Dest): World {
    w.(calls := w.calls + [pc], dests := w.dests[pc.dest := d], listened := w.listened + {|w.calls|})
  }

  // The guest is on its way.
  function Sent(w: World, dest: NodeId, d: Dest): World {
    Under(w, Landed(dest), d).(sourceExecutes := false, sender := Some(|w.calls|))
  }

  // From every such state a call can get its destination to listen, ...
  lemma AttemptPrepares(w: World, dest: NodeId, alone: bool) returns (path: seq<World>, u: World)
    requires AtHome(w, dest)
    ensures path != [] && IsAttempt(path, w, dest, alone) && path[|path| - 1] == u
    ensures u == Under(w, Prepared(dest), Dest(Paused, true, NoHandler))
  {
    var c := |w.calls|;
    var m := Incoming(dest, c);
    var asked := w.(calls := w.calls + [Listening(dest)], wire := w.wire + {m});
    path := [w, asked];
    assert Start(w, asked, dest) && IsAttempt(path, w, dest, alone);
    hide Start, IsAttempt;
    var listening := Handled(asked, m, AfterListen(asked.dests[dest], Listens)).(listened := asked.listened + {c});
    MessageStep(path, w, dest, alone, listening, m);
    path := path + [listening];
    assert m !in w.wire && listening.wire == w.wire;
    u := To(listening, c, Prepared(dest));
    CallStep(path, w, dest, alone, u, c);
    path := path + [u];
  }

  // ... get through migrate_to, ...
  lemma AttemptLands(w: World, dest: NodeId, alone: bool) returns (path: seq<World>, u: World)
    requires AtHome(w, dest)
    ensures path != [] && IsAttempt(path, w, dest, alone) && path[|path| - 1] == u
    ensures u == Sent(w, dest, Dest(Loaded, true, NoHandler)).(wire := w.wire + {Finish(dest, |w.calls|)})
  {
    hide IsAttempt;
    var c := |w.calls|;
    var prepared;
    path, prepared := AttemptPrepares(w, dest, alone);
    var copied := Under(w, Copied(dest), Dest(Paused, true, NoHandler));
    assert copied == To(prepared, c, Copied(dest));
    CallStep(path, w, dest, alone, copied, c);
    path := path + [copied];
    u := Sent(w, dest, Dest(Loaded, true, NoHandler)).(wire := w.wire + {Finish(dest, c)});
    assert u.calls == copied.calls[c := Landed(dest)];
    assert u.dests == copied.dests[dest := copied.dests[dest].(process := Loaded)];
    CallStep(path, w, dest, alone, u, c);
    path := path + [u];
  }

  // ... and have the guest resumed.
  lemma AttemptResumes(w: World, dest: NodeId, alone: bool) returns (path: seq<World>, u: World)
    requires AtHome(w, dest)
    ensures path != [] && IsAttempt(path, w, dest, alone) && path[|path| - 1] == u
    ensures u == Sent(w, dest, Dest(Executing, true, Resumed(|w.calls|))).(ran := {dest})
  {
    hide IsAttempt;
    var c := |w.calls|;
    var m := Finish(dest, c);
    var landed;
    path, landed := AttemptLands(w, dest, alone);
    var begun := Handled(landed, m, AfterRead(landed.dests[dest], c));
    MessageStep(path, w, dest, alone, begun, m);
    path := path + [begun];
    assert m !in w.wire && begun.wire == w.wire;
    u := Sent(w, dest, Dest(Executing, true, Resumed(c))).(ran := {dest});
    assert u.dests == begun.dests[dest := AfterStart(begun.dests[dest], Resumes)];
    assert u.ran == begun.ran + {dest};
    HandlerStep(path, w, dest, alone, u, dest);
    path := path + [u];
  }

  function Reported(u: World, c: nat, dest: NodeId): World
    requires c < |u.calls| && dest in u.dests
  {
    To(u, c, Done(dest)).(resumed := u.resumed + {c}, dests := u.dests[dest := AfterCommit(u.dests[dest])],
                          sourceDropped := true, owner := dest)
  }

  // Once the resume was accepted the call can be reported as a success.
  lemma AttemptReports(path: seq<World>, w: World, dest: NodeId, alone: bool, u: World) returns (longer: seq<World>)
    requires path != [] && IsAttempt(path, w, dest, alone) && path[|path| - 1] == u
    requires |w.calls| < |u.calls| && u.calls[|w.calls|] == Landed(dest)
    requires dest in u.dests && u.dests[dest].handler == Resumed(|w.calls|)
    ensures IsAttempt(longer, w, dest, alone) && Succeeds(longer, w, dest)
    ensures longer[|longer| - 1] == Reported(u, |w.calls|, dest)
  {
    hide IsAttempt;
    var c := |w.calls|;
    var stored := u.(resumed := u.resumed + {c}, dests := u.dests[dest := AfterCommit(u.dests[dest])]);
    HandlerStep(path, w, dest, alone, stored, dest);
    var done := Reported(u, c, dest);
    CallStep(path + [stored], w, dest, alone, done, c);
    longer := path + [stored] + [done];
  }

  ghost predicate ExecutesNowhere(w: World) {
    forall n :: !ExecutesOn(w, n)
  }

  // The call to be reported as a success, with the guest resumed, and a message that will cost it.
  ghost predicate Threatened(path: seq<World>, w: World, dest: NodeId, alone: bool, m: Message) {
    && path != [] && IsAttempt(path, w, dest, alone)
    && var u := path[|path| - 1];
    && !u.sourceExecutes && u.source == w.source && |w.calls| < |u.calls| && u.calls[|w.calls|] == Landed(dest)
    && dest in w.dests && u.dests == w.dests[dest := Dest(Executing, true, Resumed(|w.calls|))]
    && m in u.wire && m.to == dest && !m.Finish?
  }

  // An abort destroys the guest; an incoming call replaces it by a fresh process. The call reports
  // success for a guest that executes nowhere.
  lemma ThreatLosesGuest(path: seq<World>, w: World, dest: NodeId, alone: bool, m: Message)
    returns (longer: seq<World>)
    requires AtHome(w, dest) && Threatened(path, w, dest, alone, m)
    ensures IsAttempt(longer, w, dest, alone) && Succeeds(longer, w, dest)
    ensures ExecutesNowhere(longer[|longer| - 1])
    ensures longer[|longer| - 1].calls == path[|path| - 1].calls[|w.calls| := Done(dest)]
  {
    hide IsAttempt;
    var c := |w.calls|;
    var u := path[|path| - 1];
    var hit := if m.Abort? then Handled(u, m, AfterAbort(u.dests[dest], true))
               else Handled(u, m, AfterListen(u.dests[dest], Listens)).(listened := u.listened + {m.call});
    MessageStep(path, w, dest, alone, hit, m);
    longer := AttemptReports(path + [hit], w, dest, alone, hit);
    assert forall n <- hit.dests | n != dest :: hit.dests[n] == w.dests[n];
  }

  // A message left over from another call is still there when the guest has been resumed.
  lemma LeftoverThreatens(w: World, dest: NodeId, m: Message) returns (path: seq<World>)
    requires AtHome(w, dest) && m in w.wire && m.to == dest
    ensures Threatened(path, w, dest, true, m)
  {
    hide IsAttempt;
    var u;
    path, u := AttemptResumes(w, dest, true);
  }

  // Another call under way can give up by then, and send an abort.
  lemma OtherCallThreatens(w: World, dest: NodeId, b: nat) returns (path: seq<World>)
    requires AtHome(w, dest) && b < |w.calls| && w.calls[b].dest == dest && !CannotSend(w, b)
    ensures Threatened(path, w, dest, true, Abort(dest, b))
  {
    hide IsAttempt;
    var u;
    path, u := AttemptResumes(w, dest, true);
    assert u.calls[b] == w.calls[b];
    if w.calls[b].Listening? {
      u := To(u, b, Prepared(dest));
      CallStep(path, w, dest, true, u, b);
      path := path + [u];
    }
    var gaveUp := To(u, b, Failed(dest)).(wire := u.wire + {Abort(dest, b)});
    CallStep(path, w, dest, true, gaveUp, b);
    path := path + [gaveUp];
  }

  // A further call can start by then, and ask the destination to listen.
  lemma FurtherCallThreatens(w: World, dest: NodeId) returns (path: seq<World>)
    requires AtHome(w, dest)
    ensures Threatened(path, w, dest, false, Incoming(dest, |w.calls| + 1))
    ensures path[|path| - 1].calls == w.calls + [Landed(dest), Listening(dest)]
  {
    hide IsAttempt;
    var u;
    path, u := AttemptResumes(w, dest, false);
    var asked := u.(calls := u.calls + [Listening(dest)], wire := u.wire + {Incoming(dest, |u.calls|)});
    AnotherStarts(path, w, dest, asked);
    path := path + [asked];
  }

  // From every reachable state with the guest on its source, for a call that is alone with its
  // destination from its start on: a reported success means that the guest executes there, whatever
  // else happens, exactly when at the start nothing of another call was on its way to that
  // destination or could still be sent there.
  lemma SuccessMeansExecutingIff(run: seq<World>, i: nat, dest: NodeId)
    requires IsRun(run) && i < |run| && run[i].sourceExecutes && dest in run[i].dests
    ensures (forall path | IsAttempt(path, run[i], dest, true) && Succeeds(path, run[i], dest) ::
               ExecutesOn(path[|path| - 1], dest))
       <==> Calm(run[i], dest)
  {
    var w := run[i];
    RunKeepsInv(run, i);
    hide IsRun, Calm, ExecutesOn;
    if Calm(w, dest) {
      forall path | IsAttempt(path, w, dest, true) && Succeeds(path, w, dest)
        ensures ExecutesOn(path[|path| - 1], dest)
      {
        LoneSuccessExecutes(path, w, dest);
      }
    } else {
      var path := OthersLoseGuest(w, dest);
    }
  }

  lemma OthersLoseGuest(w: World, dest: NodeId) returns (path: seq<World>)
    requires AtHome(w, dest) && !Calm(w, dest)
    ensures IsAttempt(path, w, dest, true) && Succeeds(path, w, dest) && !ExecutesOn(path[|path| - 1], dest)
  {
    hide IsAttempt, AtHome, Threatened, ExecutesOn;
    var m: Message;
    if leftover :| leftover in w.wire && leftover.to == dest {
      m := leftover;
      path := LeftoverThreatens(w, dest, m);
    } else {
      var b: nat :| b < |w.calls| && w.calls[b].dest == dest && !CannotSend(w, b);
      m := Abort(dest, b);
      path := OtherCallThreatens(w, dest, b);
    }
    path := ThreatLosesGuest(path, w, dest, true, m);
  }

  lemma LoneSuccessExecutes(path: seq<World>, w: World, dest: NodeId)
    requires Inv(w) && w.sourceExecutes && Calm(w, dest)
    requires IsAttempt(path, w, dest, true) && Succeeds(path, w, dest)
    ensures ExecutesOn(path[|path| - 1], dest)
  {
    AttemptStaysLone(path, w, dest, |path| - 1);
  }

  // Nothing keeps a second call from starting, and it can always cost the first one's guest, however
  // calm the start was.
  lemma OverlapLosesGuest(run: seq<World>, i: nat, dest: NodeId) returns (path: seq<World>)
    requires IsRun(run) && i < |run| && run[i].sourceExecutes && dest in run[i].dests
    ensures IsAttempt(path, run[i], dest, false) && Succeeds(path, run[i], dest)
    ensures ExecutesNowhere(path[|path| - 1])
    ensures path[|path| - 1].calls == run[i].calls + [Done(dest), Listening(dest)]
  {
    RunKeepsInv(run, i);
    hide IsAttempt;
    path := FurtherCallThreatens(run[i], dest);
    path := ThreatLosesGuest(path, run[i], dest, false, Incoming(dest, |run[i].calls| + 1));
  }

  // One call that is given up is enough: its abort may still be on its way when the next one starts.
  lemma FailureLeavesAbort(run: seq<World>, i: nat, dest: NodeId) returns (path: seq<World>)
    requires IsRun(run) && i < |run| && run[i].sourceExecutes && dest in run[i].dests
    ensures IsAttempt(path, run[i], dest, true)
    ensures var end := path[|path| - 1];
      end.sourceExecutes && end.calls == run[i].calls + [Failed(dest)] && !Calm(end, dest)
  {
    RunKeepsInv(run, i);
    var w := run[i];
    hide IsAttempt;
    var u;
    path, u := AttemptPrepares(w, dest, true);
    var end := Under(w, Failed(dest), Dest(Paused, true, NoHandler)).(wire := w.wire + {Abort(dest, |w.calls|)});
    assert end.calls == u.calls[|w.calls| := Failed(dest)];
    CallStep(path, w, dest, true, end, |w.calls|);
    assert Abort(dest, |w.calls|) in end.wire;
    path := path + [end];
  }

  // A further call can also replace the process between migrate_to and the resume.
  lemma FurtherCallReplaces(w: World, dest: NodeId) returns (path: seq<World>, u: World)
    requires AtHome(w, dest)
    ensures path != [] && IsAttempt(path, w, dest, false) && path[|path| - 1] == u
    ensures u.calls == w.calls + [Landed(dest), Listening(dest)] && u.wire == w.wire + {Finish(dest, |w.calls|)}
    ensures u.dests == w.dests[dest := Dest(Paused, true, NoHandler)] && u.ran == {}
    ensures u.source == w.source && !u.sourceExecutes
  {
    hide IsAttempt;
    var c := |w.calls|;
    var landed;
    path, landed := AttemptLands(w, dest, false);
    var m := Incoming(dest, c + 1);
    var asked := landed.(calls := landed.calls + [Listening(dest)], wire := landed.wire + {m});
    AnotherStarts(path, w, dest, asked);
    path := path + [asked];
    u := Handled(asked, m, AfterListen(asked.dests[dest], Listens)).(listened := asked.listened + {c + 1});
    MessageStep(path, w, dest, false, u, m);
    path := path + [u];
    assert u.wire == landed.wire;
  }

  // The process without the guest may accept the resume: then the source is dropped for a guest that
  // has run nowhere else.
  lemma DropNeedNotFollowRun(run: seq<World>, i: nat, dest: NodeId) returns (path: seq<World>)
    requires IsRun(run) && i < |run| && run[i].sourceExecutes && dest in run[i].dests
    ensures IsAttempt(path, run[i], dest, false) && Succeeds(path, run[i], dest)
    ensures var end := path[|path| - 1]; end.sourceDropped && end.ran == {} && ExecutesNowhere(end)
  {
    RunKeepsInv(run, i);
    hide IsAttempt;
    var w, c := run[i], |run[i].calls|;
    var u;
    path, u := FurtherCallReplaces(w, dest);
    var begun := Handled(u, Finish(dest, c), AfterRead(u.dests[dest], c));
    MessageStep(path, w, dest, false, begun, Finish(dest, c));
    path := path + [begun];
    var resumed := begun.(dests := begun.dests[dest := AfterStart(begun.dests[dest], Resumes)]);
    HandlerStep(path, w, dest, false, resumed, dest);
    path := AttemptReports(path + [resumed], w, dest, false, resumed);
    assert forall n <- resumed.dests | n != dest :: resumed.dests[n] == w.dests[n];
  }
}
