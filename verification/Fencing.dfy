// Fencing: a node without quorum stops the guests it owns (crates/pertisk-daemon/src/service.rs).
module Fencing {
  import opened Prelude
  import opened Ids
  import opened Scheduler
  import opened Guests
  import opened Quorum
  import opened Store
  import opened Membership
  import opened Gossip

  predicate RunsHere(vm: VmRecord, selfId: NodeId) {
    vm.nodeId == Some(selfId) && vm.state == Running
  }

  // The fencing invariant: a fenced node owns no running guest.
  ghost predicate FenceHolds(p: Peer) {
    p.inner.fenced ==> forall id <- p.vms :: !RunsHere(p.vms[id], p.inner.selfId)
  }

  ghost predicate Inv(p: Peer) {
    Keyed(p.vms) && FenceHolds(p)
  }

  // ---------- One tick ----------

  function FenceRecord(vm: VmRecord, selfId: NodeId): VmRecord {
    if RunsHere(vm, selfId) then vm.(state := Stopped) else vm
  }

  ghost function FenceAll(vms: VmMap, selfId: NodeId): VmMap {
    map id | id in vms :: FenceRecord(vms[id], selfId)
  }

  ghost function FenceSome(vms: VmMap, selfId: NodeId, ids: set<VmId>): VmMap {
    map id | id in vms :: if id in ids then FenceRecord(vms[id], selfId) else vms[id]
  }

  lemma FenceSomeGrows(vms: VmMap, selfId: NodeId, ids: set<VmId>, id: VmId)
    requires id in vms
    ensures FenceSome(vms, selfId, ids + {id})
         == if RunsHere(vms[id], selfId) then FenceSome(vms, selfId, ids)[id := vms[id].(state := Stopped)]
            else FenceSome(vms, selfId, ids)
  {
  }

  lemma FenceNone(vms: VmMap, selfId: NodeId)
    ensures FenceSome(vms, selfId, {}) == vms
  {
  }

  lemma FenceWhole(vms: VmMap, selfId: NodeId)
    ensures FenceSome(vms, selfId, vms.Keys) == FenceAll(vms, selfId)
  {
  }

  // The ids of the records a loop has been through.
  ghost function IdsOf(records: seq<VmRecord>): set<VmId> {
    set vm <- records :: vm.id
  }

  lemma IdsOfStep(records: seq<VmRecord>, i: nat)
    requires i < |records|
    ensures IdsOf(records[..i + 1]) == IdsOf(records[..i]) + {records[i].id}
  {
    assert records[..i + 1] == records[..i] + [records[i]];
  }

  lemma IdsOfList(vms: VmMap, records: seq<VmRecord>)
    requires Keyed(vms) && Lists(vms, vms.Keys, records)
    ensures IdsOf(records[..0]) == {} && IdsOf(records[..|records|]) == vms.Keys
    ensures forall r <- records :: r.id in vms && vms[r.id] == r
  {
    assert records[..|records|] == records;
    forall id <- vms
      ensures id in IdsOf(records)
    {
      assert vms[id] in records;
    }
  }

  // Records that say Running here while the hypervisor process is gone are marked stopped.
  ghost function Reconciled(vms: VmMap, selfId: NodeId, alive: set<VmId>): VmMap {
    map id | id in vms ::
      if RunsHere(vms[id], selfId) && id !in alive then vms[id].(state := Stopped) else vms[id]
  }

  // What the tick meets: the answers to its heartbeats (with the peer that gave each), the witness
  // grant if the call succeeded, the live guest processes, and the map that HA recovery and
  // autostart leave behind when they run.
  datatype Weather = Weather(
    now: u64,
    answers: seq<(NodeId, Option<ClusterSnapshot>)>,
    grant: Option<(NodeId, u64)>,
    alive: set<VmId>,
    recovered: VmMap)

  function AfterAnswers(p: Peer, answers: seq<(NodeId, Option<ClusterSnapshot>)>, now: u64): Peer {
    if answers == [] then p
    else
      var last := answers[|answers| - 1];
      AfterAnswer(AfterAnswers(p, answers[..|answers| - 1], now), last.0, last.1, now)
  }

  predicate AsksWitness(inner: Inner, now: u64, timeout: u64) {
    |inner.members| == 2 && !HasQuorum(|OnlineIds(inner, now, timeout)|, |inner.members|)
  }

  function AfterGrant(inner: Inner, grant: Option<(NodeId, u64)>, now: u64, timeout: u64): Inner {
    if grant.Some? && AsksWitness(inner, now, timeout) then
      inner.(witnessHolder := Some(grant.value.0), witnessUntilMs := SaturatingAdd64(now, grant.value.1))
    else inner
  }

  // The node when the tick decides about fencing.
  function AtDecision(p: Peer, w: Weather, timeout: u64): Peer {
    var met := p.(inner := Touched(p.inner, p.inner.selfId, None, w.now));
    var heard := AfterAnswers(met, w.answers, w.now);
    heard.(inner := AfterGrant(heard.inner, w.grant, w.now, timeout))
  }

  ghost function AfterDecision(d: Peer, quorum: bool): Peer {
    if d.inner.haArmed then
      Peer(d.inner.(fenced := !quorum),
           if !quorum && !d.inner.fenced then FenceAll(d.vms, d.inner.selfId) else d.vms, d.volumes)
    else if quorum then d.(inner := d.inner.(fenced := false))
    else d
  }

  ghost function AfterTick(p: Peer, w: Weather, timeout: u64): Peer {
    var d := AtDecision(p, w, timeout);
    var quorum := SeesQuorum(d.inner, w.now, timeout);
    var fencedOrNot := AfterDecision(d, quorum);
    var tidy := Peer(fencedOrNot.inner, Reconciled(fencedOrNot.vms, d.inner.selfId, w.alive), fencedOrNot.volumes);
    if quorum then tidy.(vms := w.recovered) else tidy
  }

  class Node {
    const cluster: Cluster
    const store: Store
    const volumes: VolumeMap

    constructor (cluster: Cluster, store: Store, volumes: VolumeMap)
      ensures this.cluster == cluster && this.store == store && this.volumes == volumes
    {
      this.cluster := cluster;
      this.store := store;
      this.volumes := volumes;
    }

    // fence_local: stop every guest this node owns.
    method FenceLocal()
      requires Keyed(store.vms)
      modifies store
      ensures store.vms == FenceAll(old(store.vms), cluster.inner.selfId)
      ensures store.vms.Keys == old(store.vms).Keys
      ensures forall id <- store.vms ::
        var was := old(store.vms)[id];
        store.vms[id] == if was.nodeId == Some(cluster.inner.selfId) && was.state == Running then was.(state := Stopped)
                         else was
    {
      var selfId := cluster.inner.selfId;
      var vms := store.List();
      ghost var was := store.vms;
      IdsOfList(was, vms);
      FenceNone(was, selfId);
      hide IdsOf, FenceSome, Keyed, Lists;
      for i := 0 to |vms|
        invariant store.vms == FenceSome(was, selfId, IdsOf(vms[..i]))
      {
        var vm := vms[i];
        assert vm in vms;
        IdsOfStep(vms, i);
        FenceSomeGrows(was, selfId, IdsOf(vms[..i]), vm.id);
        if vm.nodeId == Some(selfId) && vm.state == Running {
          var written := store.Upsert(vm.(state := Stopped), true);
        }
      }
      FenceWhole(was, selfId);
    }

    // The fencing step of cluster_tick.
    method DecideFence(now: u64) returns (quorum: bool)
      requires Keyed(store.vms)
      modifies cluster, store
      ensures quorum == SeesQuorum(old(cluster.inner), now, cluster.offlineAfterMs)
      ensures Peer(cluster.inner, store.vms, volumes)
           == AfterDecision(old(Peer(cluster.inner, store.vms, volumes)), quorum)
      ensures cluster.inner == old(cluster.inner).(fenced := if old(cluster.inner).haArmed then !quorum
                                                             else old(cluster.inner).fenced && !quorum)
      ensures !old(cluster.inner).haArmed || quorum || old(cluster.inner).fenced ==> store.vms == old(store.vms)
    {
      quorum := SeesQuorum(cluster.inner, now, cluster.offlineAfterMs);
      if cluster.inner.haArmed {
        var entered := cluster.SetFenced(!quorum);
        if entered && !quorum {
          FenceLocal();
        }
      } else if quorum {
        var entered := cluster.SetFenced(false);
      }
    }
  }

  // ---------- Runs ----------

  datatype Event =
    | Tick(weather: Weather)
    // An API call, past or not past require_quorum; `result` is what it would leave.
    | Api(now: u64, result: Peer)
    | Receive(msg: Heartbeat, now: u64)
    | Snapshot(snap: ClusterSnapshot, now: u64)
    | Join(snap: ClusterSnapshot, now: u64)
    | Forget(peer: NodeId)
    | Leave(secret: string)
    // Address discovery, schedules and attachments: records change, owners and states do not.
    | Background(records: VmMap)
    | GuestExit(guest: VmId)

  predicate PassesGate(p: Peer, now: u64, timeout: u64) {
    SeesQuorum(p.inner, now, timeout) && !p.inner.fenced
  }

  // What each event may carry: maps keyed by their records' ids, and API calls that leave the fence
  // flag alone.
  ghost predicate Allowed(p: Peer, e: Event) {
    match e
    case Tick(w) => Keyed(w.recovered)
    case Api(_, result) => Keyed(result.vms) && result.inner.fenced == p.inner.fenced
    case Background(vms) =>
      && Keyed(vms)
      && vms.Keys == p.vms.Keys
      && forall id <- vms :: vms[id].nodeId == p.vms[id].nodeId && vms[id].state == p.vms[id].state
    case _ => true
  }

  ghost function After(p: Peer, e: Event, timeout: u64): Peer {
    match e
    case Tick(w) => AfterTick(p, w, timeout)
    case Api(now, result) => if PassesGate(p, now, timeout) then result else p
    case Receive(msg, now) => AfterHeartbeat(p, msg, now)
    case Snapshot(snap, now) => AfterSnapshot(p, snap, now)
    case Join(snap, now) => AfterJoin(p, snap, now)
    case Forget(id) => p.(inner := Without(p.inner, id))
    case Leave(secret) => p.(inner := Solo(p.inner, secret))
    case Background(vms) => p.(vms := vms)
    case GuestExit(id) =>
      if id in p.vms && RunsHere(p.vms[id], p.inner.selfId) then
        Peer(p.inner.(generation := p.inner.generation + 1), p.vms[id := p.vms[id].(state := Stopped)], p.volumes)
      else p
  }

  ghost predicate IsRun(run: seq<Peer>, events: seq<Event>, timeout: u64) {
    && |run| == |events| + 1
    && forall i | 0 <= i < |events| :: Allowed(run[i], events[i]) && run[i + 1] == After(run[i], events[i], timeout)
  }

  lemma AnswerKeepsInv(p: Peer, from: NodeId, answer: Option<ClusterSnapshot>, now: u64)
    requires Inv(p)
    ensures var q := AfterAnswer(p, from, answer, now);
      Inv(q) && q.inner.selfId == p.inner.selfId
  {
    hide NextMembers;
    if answer.Some? {
      ReplacedIsKeyed(answer.value.vms, []);
    }
  }

  lemma {:induction false} AnswersKeepInv(p: Peer, answers: seq<(NodeId, Option<ClusterSnapshot>)>, now: u64)
    requires Inv(p)
    ensures var q := AfterAnswers(p, answers, now);
      Inv(q) && q.inner.selfId == p.inner.selfId
  {
    if answers != [] {
      hide AfterAnswer;
      AnswersKeepInv(p, answers[..|answers| - 1], now);
      var last := answers[|answers| - 1];
      AnswerKeepsInv(AfterAnswers(p, answers[..|answers| - 1], now), last.0, last.1, now);
    }
  }

  lemma DecisionKeepsInv(p: Peer, w: Weather, timeout: u64)
    requires Inv(p)
    ensures var d := AtDecision(p, w, timeout);
      && Inv(d)
      && d.inner.selfId == p.inner.selfId
      && Inv(AfterDecision(d, SeesQuorum(d.inner, w.now, timeout)))
  {
    hide SeesQuorum, AsksWitness;
    AnswersKeepInv(p.(inner := Touched(p.inner, p.inner.selfId, None, w.now)), w.answers, w.now);
  }

  lemma TickKeepsInv(p: Peer, w: Weather, timeout: u64)
    requires Inv(p) && Keyed(w.recovered)
    ensures Inv(AfterTick(p, w, timeout))
  {
    hide SeesQuorum, AtDecision;
    DecisionKeepsInv(p, w, timeout);
  }

  lemma EventKeepsInv(p: Peer, e: Event, timeout: u64)
    requires Inv(p) && Allowed(p, e)
    ensures Inv(After(p, e, timeout))
  {
    hide AfterTick, SeesQuorum, NextMembers;
    match e
    case Tick(w) => TickKeepsInv(p, w, timeout);
    case Receive(msg, now) =>
      if msg.snapshot.Some? {
        ReplacedIsKeyed(msg.snapshot.value.vms, []);
      }
    case Snapshot(snap, now) => ReplacedIsKeyed(snap.vms, snap.volumes);
    case Join(snap, now) => ReplacedIsKeyed(snap.vms, snap.volumes);
    case _ =>
  }

  // Over every run: a node whose fence flag is set has no running record of its own.
  lemma {:induction false} FencedNodeRunsNothing(run: seq<Peer>, events: seq<Event>, timeout: u64, i: nat)
    requires IsRun(run, events, timeout) && i < |run| && Inv(run[0])
    ensures Inv(run[i])
  {
    if i > 0 {
      FencedNodeRunsNothing(run, events, timeout, i - 1);
      EventKeepsInv(run[i - 1], events[i - 1], timeout);
    }
  }

  // A tick of an armed node decides the flag by quorum alone, and without quorum leaves no guest
  // running here; a disarmed node is never newly fenced.
  lemma TickDecidesByQuorum(p: Peer, w: Weather, timeout: u64)
    requires Inv(p)
    ensures var d := AtDecision(p, w, timeout);
      var quorum := SeesQuorum(d.inner, w.now, timeout);
      var q := AfterTick(p, w, timeout);
      && (d.inner.haArmed ==> (q.inner.fenced <==> !quorum))
      && (d.inner.haArmed && !quorum ==> forall id <- q.vms :: !RunsHere(q.vms[id], q.inner.selfId))
      && (!d.inner.haArmed && q.inner.fenced ==> d.inner.fenced && !quorum)
  {
    hide SeesQuorum, AtDecision;
    DecisionKeepsInv(p, w, timeout);
  }

  // The node after its heartbeats, before the witness answers.
  function Heard(p: Peer, w: Weather): Peer {
    AfterAnswers(p.(inner := Touched(p.inner, p.inner.selfId, None, w.now)), w.answers, w.now)
  }

  // One of two that sees only itself has quorum at this tick exactly when the witness grants it the
  // lease, or, when the witness did not answer, while an earlier grant lasts.
  lemma WitnessBreaksTheTie(p: Peer, w: Weather, timeout: u64)
    requires |Heard(p, w).inner.members| == 2 && |OnlineIds(Heard(p, w).inner, w.now, timeout)| == 1
    requires w.grant.Some? ==> w.now + w.grant.value.1 < U64_LIMIT
    ensures var h := Heard(p, w).inner;
      SeesQuorum(AtDecision(p, w, timeout).inner, w.now, timeout)
      <==> if w.grant.Some? then w.grant.value.0 == h.selfId && w.grant.value.1 > 0
           else h.witnessHolder == Some(h.selfId) && w.now < h.witnessUntilMs
  {
    var h, d := Heard(p, w).inner, AtDecision(p, w, timeout).inner;
    assert OnlineIds(d, w.now, timeout) == OnlineIds(h, w.now, timeout);
  }

  // With another number of members, or with a majority, the witness is not asked and changes nothing.
  lemma OnlyATieAsks(p: Peer, w: Weather, timeout: u64)
    requires |Heard(p, w).inner.members| != 2 || |OnlineIds(Heard(p, w).inner, w.now, timeout)| != 1
    requires p.inner.selfId in Heard(p, w).inner.members && Heard(p, w).inner.selfId == p.inner.selfId
    requires Heard(p, w).inner.members[p.inner.selfId].record.id == p.inner.selfId
    ensures AtDecision(p, w, timeout) == Heard(p, w)
  {
    var h := Heard(p, w).inner;
    var online := OnlineIds(h, w.now, timeout);
    assert p.inner.selfId in online;
    SubsetSize({p.inner.selfId}, online);
    SubsetSize(online, h.members.Keys);
    assert |h.members.Keys| == |h.members|;
    hide AfterAnswers;
  }

  // A tick without quorum that does not fence anew: a record that says Running here is marked stopped
  // exactly when its process is gone, and no other record changes.
  lemma TickTidiesRecords(p: Peer, w: Weather, timeout: u64, id: VmId)
    requires var d := AtDecision(p, w, timeout);
      && !SeesQuorum(d.inner, w.now, timeout) && (d.inner.fenced || !d.inner.haArmed) && id in d.vms
    ensures var (was, now) := (AtDecision(p, w, timeout).vms[id], AfterTick(p, w, timeout).vms);
      && id in now
      && now[id] == if was.nodeId == Some(AtDecision(p, w, timeout).inner.selfId) && was.state == Running
                       && id !in w.alive
                    then was.(state := Stopped) else was
  {
    hide AtDecision, SeesQuorum;
  }

  // Without quorum, or while fenced, an API call that changes the cluster is turned away.
  lemma GateTurnsAway(p: Peer, now: u64, result: Peer, timeout: u64)
    requires p.inner.fenced || !SeesQuorum(p.inner, now, timeout)
    ensures After(p, Api(now, result), timeout) == p
  {
  }

  // A side that sees no member of a majority elsewhere has, after one armed tick, nothing running.
  lemma MajorityElsewhereStopsGuests(p: Peer, w: Weather, timeout: u64, theirs: set<NodeId>)
    requires Inv(p)
    requires var d := AtDecision(p, w, timeout);
      && Wellformed(d.inner) && d.inner.haArmed
      && theirs <= d.inner.members.Keys && theirs !! OnlineIds(d.inner, w.now, timeout)
      && HasQuorum(|theirs|, |d.inner.members|)
    ensures var q := AfterTick(p, w, timeout);
      q.inner.fenced && forall id <- q.vms :: !RunsHere(q.vms[id], q.inner.selfId)
  {
    var d := AtDecision(p, w, timeout);
    var mine := OnlineIds(d.inner, w.now, timeout);
    var members := d.inner.members.Keys;
    assert d.inner.selfId in mine;
    DisjointSizes(members, theirs, mine);
    BothSidesNeedTheLease(members, theirs, mine, false, HoldsWitness(d.inner, w.now));
    hide AtDecision;
    TickDecidesByQuorum(p, w, timeout);
  }

  // ---------- The handlers a peer may call ----------

  // peer run and peer incoming/finish store the record as this node's, with no look at the fence.
  // `state` is what the guest is left in: Running, or something else when the start fails.
  function AfterPeerRun(p: Peer, record: VmRecord, state: VmState): Peer {
    p.(vms := p.vms[record.id := record.(nodeId := Some(p.inner.selfId), state := state)])
  }

  // So they keep the invariant exactly when the node is not fenced or the guest did not start.
  lemma PeerRunKeepsInvIff(p: Peer, record: VmRecord, state: VmState)
    requires Inv(p)
    ensures Inv(AfterPeerRun(p, record, state)) <==> !p.inner.fenced || !state.Running?
  {
    var q := AfterPeerRun(p, record, state);
    assert record.id in q.vms && (RunsHere(q.vms[record.id], q.inner.selfId) <==> state.Running?);
  }
}
