// Inventory gossip: generation-gated snapshots carried by heartbeats
// (crates/pertisk-daemon/src/service.rs).
module Gossip {
  import opened Prelude
  import opened Scheduler
  import opened Guests
  import opened Store
  import opened Membership

  type VolumeMap = map<VolumeId, VolumeRecord>

  // One node: its membership state and the inventory it replicates.
  datatype Peer = Peer(inner: Inner, vms: VmMap, volumes: VolumeMap)

  datatype Heartbeat = Heartbeat(from: NodeId, generation: nat, member: NodeRecord, snapshot: Option<ClusterSnapshot>)

  function ReplaceVolumes(records: seq<VolumeRecord>): VolumeMap {
    if records == [] then map[]
    else
      var last := records[|records| - 1];
      ReplaceVolumes(records[..|records| - 1])[last.id := last]
  }

  lemma ReplaceVolumesGrows(records: seq<VolumeRecord>, r: VolumeRecord)
    ensures ReplaceVolumes(records + [r]) == ReplaceVolumes(records)[r.id := r]
  {
    assert (records + [r])[..|records|] == records;
  }

  // The snapshot carries this node's whole state. The lists' order is left open.
  ghost predicate IsSnapshotOf(p: Peer, snap: ClusterSnapshot) {
    && snap.name == p.inner.name
    && snap.secret == p.inner.secret
    && snap.generation == p.inner.generation
    && snap.haArmed == p.inner.haArmed
    && (forall r :: r in snap.members <==> exists id <- p.inner.members :: p.inner.members[id].record == r)
    && ReplaceAll(snap.vms) == p.vms
    && ReplaceVolumes(snap.volumes) == p.volumes
  }

  ghost predicate SameInventory(p: Peer, q: Peer) {
    p.vms == q.vms && p.volumes == q.volumes
  }

  // ---------- What a node does with a snapshot or a heartbeat ----------

  function AfterSnapshot(p: Peer, snap: ClusterSnapshot, now: u64): Peer {
    if snap.generation < p.inner.generation then p
    else
      var inner := WithMembership(p.inner, snap, false, now);
      if snap.generation > p.inner.generation then
        Peer(inner, ReplaceAll(snap.vms), ReplaceVolumes(snap.volumes))
      else p.(inner := inner)
  }

  // A join adopts the seed's state whatever its generation.
  function AfterJoin(p: Peer, snap: ClusterSnapshot, now: u64): Peer {
    Peer(WithMembership(p.inner, snap, true, now), ReplaceAll(snap.vms), ReplaceVolumes(snap.volumes))
  }

  function AfterHeartbeat(p: Peer, msg: Heartbeat, now: u64): Peer {
    var met := p.(inner := Touched(p.inner, msg.from, Some(msg.member), now));
    if msg.snapshot.Some? && msg.snapshot.value.generation > p.inner.generation then
      var applied := AfterSnapshot(met, msg.snapshot.value, now);
      applied.(inner := Touched(applied.inner, msg.from, None, now))
    else met
  }

  // The receiver answers with its own state when the sender is behind.
  predicate Answers(p: Peer, msg: Heartbeat, now: u64) {
    || (msg.snapshot.Some? && msg.snapshot.value.generation < p.inner.generation)
    || msg.generation < AfterHeartbeat(p, msg, now).inner.generation
  }

  class Service {
    const cluster: Cluster
    const store: Store
    var volumes: VolumeMap

    constructor (cluster: Cluster, store: Store)
      ensures this.cluster == cluster && this.store == store && volumes == map[]
    {
      this.cluster := cluster;
      this.store := store;
      this.volumes := map[];
    }

    function State(): Peer
      reads this, cluster, store
    {
      Peer(cluster.inner, store.vms, volumes)
    }

    method ReplaceVolumeRecords(records: seq<VolumeRecord>)
      modifies this
      ensures volumes == ReplaceVolumes(records)
    {
      volumes := map[];
      for i := 0 to |records|
        invariant volumes == ReplaceVolumes(records[..i])
      {
        assert records[..i + 1][..i] == records[..i];
        volumes := volumes[records[i].id := records[i]];
      }
      assert records[..|records|] == records;
    }

    // apply_snapshot: membership from an equal or newer snapshot, inventory only from a newer one.
    method ApplySnapshot(snap: ClusterSnapshot, now: u64)
      modifies this, cluster, store
      ensures State() == AfterSnapshot(old(State()), snap, now)
      ensures snap.generation < old(cluster.inner).generation ==> State() == old(State())
      ensures snap.generation <= old(cluster.inner).generation ==>
        store.vms == old(store.vms) && volumes == old(volumes)
      ensures snap.generation > old(cluster.inner).generation ==>
        store.vms == ReplaceAll(snap.vms) && volumes == ReplaceVolumes(snap.volumes)
      ensures snap.generation >= old(cluster.inner).generation ==>
        cluster.inner == Adopted(old(cluster.inner), snap, now)
    {
      if snap.generation < cluster.inner.generation {
        return;
      }
      var replaceInventory := snap.generation > cluster.inner.generation;
      cluster.ApplyMembership(snap, false, now);
      if replaceInventory {
        var flushed := store.ReplaceWith(snap.vms, true);
        ReplaceVolumeRecords(snap.volumes);
      }
    }

    method ApplyJoinSnapshot(snap: ClusterSnapshot, now: u64)
      modifies this, cluster, store
      ensures State() == AfterJoin(old(State()), snap, now)
      ensures cluster.inner == Adopted(old(cluster.inner), snap, now)
      ensures store.vms == ReplaceAll(snap.vms) && volumes == ReplaceVolumes(snap.volumes)
    {
      cluster.ApplyMembership(snap, true, now);
      var flushed := store.ReplaceWith(snap.vms, true);
      ReplaceVolumeRecords(snap.volumes);
    }

    // snapshot: the lists of members, guests and volumes.
    method TakeSnapshot() returns (snap: ClusterSnapshot)
      requires Keyed(store.vms) && KeyedVolumes(volumes)
      ensures IsSnapshotOf(State(), snap)
    {
      var inner := cluster.inner;
      var members := ListMembers(inner.members);
      var vms := store.List();
      var vols := ListVolumes(volumes);
      snap := ClusterSnapshot(inner.name, inner.secret, inner.generation, members, vms, vols, inner.haArmed);
    }

    // on_heartbeat
    method OnHeartbeat(msg: Heartbeat, now: u64) returns (answer: Option<ClusterSnapshot>)
      requires Keyed(store.vms) && KeyedVolumes(volumes)
      modifies this, cluster, store
      ensures State() == AfterHeartbeat(old(State()), msg, now)
      ensures answer.Some? <==> Answers(old(State()), msg, now)
      ensures answer.Some? <==>
        || (msg.snapshot.Some? && msg.snapshot.value.generation < old(cluster.inner).generation)
        || msg.generation < cluster.inner.generation
      ensures msg.snapshot.None? || msg.snapshot.value.generation <= old(cluster.inner).generation ==>
        && cluster.inner == old(cluster.inner).(members :=
                              old(cluster.inner).members[msg.from := MemberState(msg.member, now)])
        && store.vms == old(store.vms) && volumes == old(volumes)
      ensures answer.Some? ==> IsSnapshotOf(State(), answer.value)
    {
      cluster.Touch(msg.from, Some(msg.member), now);
      if msg.snapshot.Some? {
        var snap := msg.snapshot.value;
        if snap.generation > cluster.inner.generation {
          ApplySnapshot(snap, now);
          cluster.Touch(msg.from, None, now);
          ReplacedIsKeyed(snap.vms, snap.volumes);
        } else if snap.generation < cluster.inner.generation {
          var mine := TakeSnapshot();
          return Some(mine);
        }
      }
      if msg.generation < cluster.inner.generation {
        var mine := TakeSnapshot();
        return Some(mine);
      }
      return None;
    }
  }

  ghost predicate KeyedVolumes(volumes: VolumeMap) {
    forall id <- volumes :: volumes[id].id == id
  }

  lemma {:induction false} ReplacedIsKeyed(vms: seq<VmRecord>, volumes: seq<VolumeRecord>)
    ensures Keyed(ReplaceAll(vms)) && KeyedVolumes(ReplaceVolumes(volumes))
    decreases volumes
  {
    ReplaceAllIsKeyed(vms);
    if volumes != [] {
      ReplacedIsKeyed(vms, volumes[..|volumes| - 1]);
    }
  }

  method ListMembers(members: Members) returns (records: seq<NodeRecord>)
    ensures forall r :: r in records <==> exists id <- members :: members[id].record == r
  {
    records := [];
    var done, left := {}, members.Keys;
    while left != {}
      invariant done + left == members.Keys && done !! left
      invariant forall r :: r in records <==> exists id <- done :: members[id].record == r
      decreases |left|
    {
      var id :| id in left;
      records := records + [members[id].record];
      done, left := done + {id}, left - {id};
    }
  }

  method ListVolumes(volumes: VolumeMap) returns (records: seq<VolumeRecord>)
    requires KeyedVolumes(volumes)
    ensures ReplaceVolumes(records) == volumes
  {
    records := [];
    var done, left := {}, volumes.Keys;
    while left != {}
      invariant done + left == volumes.Keys && done !! left
      invariant ReplaceVolumes(records) == Restrict(volumes, done)
      decreases |left|
    {
      var id :| id in left;
      RestrictGrows(volumes, done, id);
      ReplaceVolumesGrows(records, volumes[id]);
      records := records + [volumes[id]];
      done, left := done + {id}, left - {id};
    }
    RestrictAll(volumes);
  }

  // ---------- One node over any run of messages ----------

  datatype Event =
    | Receives(msg: Heartbeat, at: u64)
    | GetsSnapshot(snap: ClusterSnapshot, at: u64)
    | Hears(id: NodeId, at: u64)

  function React(p: Peer, e: Event): Peer {
    match e
    case Receives(msg, now) => AfterHeartbeat(p, msg, now)
    case GetsSnapshot(snap, now) => AfterSnapshot(p, snap, now)
    case Hears(id, now) => p.(inner := Touched(p.inner, id, None, now))
  }

  function ReactAll(p: Peer, events: seq<Event>): Peer
    decreases |events|
  {
    if events == [] then p else ReactAll(React(p, events[0]), events[1..])
  }

  ghost predicate Carries(e: Event, p: Peer) {
    match e
    case Receives(msg, _) =>
      msg.snapshot.Some? && msg.snapshot.value.generation == p.inner.generation
      && ReplaceAll(msg.snapshot.value.vms) == p.vms && ReplaceVolumes(msg.snapshot.value.volumes) == p.volumes
    case GetsSnapshot(snap, _) =>
      snap.generation == p.inner.generation
      && ReplaceAll(snap.vms) == p.vms && ReplaceVolumes(snap.volumes) == p.volumes
    case Hears(_, _) => false
  }

  // Whatever arrives, in whatever order: the generation never drops, and the inventory changes only
  // to that of a message whose generation is higher than the node's was.
  lemma {:induction false} RemoteInventoryIsNewer(p: Peer, events: seq<Event>)
    ensures var q := ReactAll(p, events);
      && q.inner.generation >= p.inner.generation
      && (q.inner.generation == p.inner.generation ==> SameInventory(p, q))
      && (!SameInventory(p, q) ==> exists e <- events :: Carries(e, q))
    decreases |events|
  {
    hide NextMembers;
    if events != [] {
      var q := React(p, events[0]);
      RemoteInventoryIsNewer(q, events[1..]);
      var r := ReactAll(q, events[1..]);
      assert events[0] in events;
      if SameInventory(q, r) && q.inner.generation == r.inner.generation {
        assert SameInventory(p, q) || Carries(events[0], q);
      } else if SameInventory(q, r) {
        NewerNeedsCarrier(q, events[1..]);
      }
    }
  }

  // A higher generation is always that of a message, together with its inventory.
  lemma {:induction false} NewerNeedsCarrier(p: Peer, events: seq<Event>)
    requires ReactAll(p, events).inner.generation > p.inner.generation
    ensures exists e <- events :: Carries(e, ReactAll(p, events))
    decreases |events|
  {
    hide NextMembers;
    var q := React(p, events[0]);
    RemoteInventoryIsNewer(q, events[1..]);
    var r := ReactAll(q, events[1..]);
    if r.inner.generation > q.inner.generation {
      NewerNeedsCarrier(q, events[1..]);
      var e :| e in events[1..] && Carries(e, r);
      assert e in events;
    } else {
      assert events[0] in events && Carries(events[0], q);
    }
  }

  // ---------- One exchange ----------

  ghost predicate Announces(msg: Heartbeat, p: Peer) {
    && msg.from == p.inner.selfId
    && msg.generation == p.inner.generation
    && msg.snapshot.Some?
    && IsSnapshotOf(p, msg.snapshot.value)
  }

  // The sender after the call: it has met the receiver, and applies the answer if there is one.
  function AfterAnswer(a: Peer, to: NodeId, answer: Option<ClusterSnapshot>, now: u64): Peer {
    var met := a.(inner := Touched(a.inner, to, None, now));
    match answer
    case None => met
    case Some(snap) =>
      var applied := AfterSnapshot(met, snap, now);
      applied.(inner := Touched(applied.inner, to, None, now))
  }

  // A sender whose call was answered counts the peer as online, while it is a member.
  lemma AnswerShowsPeer(a: Peer, to: NodeId, answer: Option<ClusterSnapshot>, now: u64, timeout: u64)
    ensures var q := AfterAnswer(a, to, answer, now).inner;
      to in q.members ==> to in OnlineIds(q, now, timeout)
  {
    hide NextMembers, AfterSnapshot;
  }

  // A peer that hears the message ends at least at the sender's generation, with the inventory that
  // goes with its own.
  ghost predicate Levelled(was: Peer, sender: Peer, now: Peer) {
    && now.inner.generation == Max(was.inner.generation, sender.inner.generation)
    && SameInventory(now, if was.inner.generation < sender.inner.generation then sender else was)
  }

  lemma HeartbeatLevels(sender: Peer, peer: Peer, msg: Heartbeat, now: u64)
    requires Announces(msg, sender)
    ensures Levelled(peer, sender, AfterHeartbeat(peer, msg, now))
    ensures Answers(peer, msg, now) <==> sender.inner.generation < peer.inner.generation
  {
    hide NextMembers;
  }

  lemma AnswerLevels(current: Peer, peer: Peer, to: NodeId, answer: Option<ClusterSnapshot>, now: u64)
    requires answer.Some? ==> IsSnapshotOf(peer, answer.value)
    requires answer.None? ==> peer.inner.generation <= current.inner.generation
    ensures Levelled(current, peer, AfterAnswer(current, to, answer, now))
  {
    hide NextMembers;
  }

  lemma HeartbeatInner(p: Peer, msg: Heartbeat, now: u64)
    ensures var met := Touched(p.inner, msg.from, Some(msg.member), now);
      AfterHeartbeat(p, msg, now).inner
      == if msg.snapshot.Some? && msg.snapshot.value.generation > p.inner.generation
         then Touched(Adopted(met, msg.snapshot.value, now), msg.from, None, now) else met
  {
    hide NextMembers;
  }

  // A node that hears a heartbeat counts the sender as online.
  lemma HeartbeatShowsSender(a: Peer, b: Peer, msg: Heartbeat, now: u64, timeout: u64)
    requires Announces(msg, a) && Wellformed(a.inner) && Wellformed(b.inner)
    requires msg.member.id == a.inner.selfId && DistinctRecords(msg.snapshot.value.members)
    ensures a.inner.selfId in OnlineIds(AfterHeartbeat(b, msg, now).inner, now, timeout)
  {
    var met := Touched(b.inner, msg.from, Some(msg.member), now);
    HeartbeatInner(b, msg, now);
    assert a.inner.members[a.inner.selfId].record in msg.snapshot.value.members;
    AdoptionFollowsTheList(met, msg.snapshot.value, now, a.inner.selfId);
    hide Adopted, AfterHeartbeat, IsSnapshotOf;
  }

  // ... and when it was behind it takes the sender's name, secret, arming and members.
  lemma HeartbeatAdopts(a: Peer, b: Peer, msg: Heartbeat, now: u64, id: NodeId)
    requires Announces(msg, a) && Wellformed(a.inner) && Wellformed(b.inner)
    requires msg.member.id == a.inner.selfId && DistinctRecords(msg.snapshot.value.members)
    requires b.inner.generation < a.inner.generation
    ensures var q := AfterHeartbeat(b, msg, now).inner;
      && q.name == a.inner.name && q.secret == a.inner.secret && q.haArmed == a.inner.haArmed && !q.fenced
      && (id in q.members <==> id in a.inner.members || id == b.inner.selfId)
  {
    var met := Touched(b.inner, msg.from, Some(msg.member), now);
    var snap := msg.snapshot.value;
    HeartbeatInner(b, msg, now);
    assert a.inner.members[a.inner.selfId].record in snap.members;
    assert id in a.inner.members ==> a.inner.members[id].record in snap.members;
    AdoptionFollowsTheList(met, snap, now, id);
    AdoptionFollowsTheList(met, snap, now, a.inner.selfId);
    hide NextMembers, AfterHeartbeat;
  }

  // Sender and receiver end at the higher of their generations, with that one's inventory. At equal
  // generations neither inventory moves.
  lemma ExchangeLevels(a: Peer, b: Peer, msg: Heartbeat, answer: Option<ClusterSnapshot>, now: u64, later: u64)
    requires Announces(msg, a)
    requires answer.Some? <==> Answers(b, msg, now)
    requires answer.Some? ==> IsSnapshotOf(AfterHeartbeat(b, msg, now), answer.value)
    ensures var a' := AfterAnswer(a, b.inner.selfId, answer, later);
      var b' := AfterHeartbeat(b, msg, now);
      && a'.inner.generation == b'.inner.generation == Max(a.inner.generation, b.inner.generation)
      && (a.inner.generation > b.inner.generation ==> SameInventory(a', a) && SameInventory(b', a))
      && (a.inner.generation < b.inner.generation ==> SameInventory(a', b) && SameInventory(b', b))
      && (a.inner.generation == b.inner.generation ==> SameInventory(a', a) && SameInventory(b', b))
  {
    hide AfterHeartbeat, AfterAnswer, Answers, IsSnapshotOf, Announces;
    HeartbeatLevels(a, b, msg, now);
    AnswerLevels(a, AfterHeartbeat(b, msg, now), b.inner.selfId, answer, later);
  }

  // ---------- A full round ----------

  method SnapshotOf(p: Peer) returns (snap: ClusterSnapshot)
    requires Keyed(p.vms) && KeyedVolumes(p.volumes)
    ensures IsSnapshotOf(p, snap)
  {
    var store := new Store();
    store.vms := p.vms;
    var members := ListMembers(p.inner.members);
    var vms := store.List();
    var volumes := ListVolumes(p.volumes);
    snap := ClusterSnapshot(p.inner.name, p.inner.secret, p.inner.generation, members, vms, volumes, p.inner.haArmed);
  }

  type Net = map<NodeId, Peer>

  ghost predicate ValidNet(net: Net) {
    forall id <- net :: ValidPeer(id, net[id])
  }

  // The sender ends at the highest generation among itself and the peers that heard it, with the
  // inventory of one that was there.
  ghost predicate TopOf(net: Net, a: NodeId, heard: set<NodeId>, now: Peer)
    requires a in net && heard <= net.Keys
  {
    && now.inner.generation >= net[a].inner.generation
    && (forall id <- heard :: now.inner.generation >= net[id].inner.generation)
    && if now.inner.generation == net[a].inner.generation then SameInventory(now, net[a])
       else exists id <- heard :: net[id].inner.generation == now.inner.generation && SameInventory(now, net[id])
  }

  ghost predicate RoundDone(net: Net, net': Net, a: NodeId, heard: set<NodeId>) {
    && a in net && a !in heard && heard <= net.Keys && net'.Keys == net.Keys
    && (forall id <- net | id != a && id !in heard :: net'[id] == net[id])
    && (forall id <- heard :: Levelled(net[id], net[a], net'[id]))
    && TopOf(net, a, heard, net'[a])
  }

  lemma TopStep(net: Net, a: NodeId, heard: set<NodeId>, id: NodeId, current: Peer, next: Peer)
    requires a in net && heard <= net.Keys && id in net
    requires TopOf(net, a, heard, current) && Levelled(current, net[id], next)
    ensures TopOf(net, a, heard + {id}, next)
  {
    if current.inner.generation < net[id].inner.generation {
      assert id in heard + {id} && SameInventory(next, net[id]);
    } else if current.inner.generation != net[a].inner.generation {
      var h :| h in heard && net[h].inner.generation == current.inner.generation && SameInventory(current, net[h]);
      assert h in heard + {id} && SameInventory(next, net[h]);
    }
  }

  lemma RoundStep(net: Net, net': Net, a: NodeId, heard: set<NodeId>, id: NodeId, peer: Peer, sender: Peer)
    requires RoundDone(net, net', a, heard)
    requires id in net && id != a && id !in heard
    requires Levelled(net'[id], net[a], peer) && Levelled(net'[a], net'[id], sender)
    ensures RoundDone(net, net'[id := peer][a := sender], a, heard + {id})
  {
    TopStep(net, a, heard, id, net'[a], sender);
  }

  lemma RoundStarts(net: Net, a: NodeId)
    requires a in net
    ensures RoundDone(net, net, a, {})
  {
  }

  lemma RoundSoFar(net: Net, net': Net, a: NodeId, heard: set<NodeId>)
    requires RoundDone(net, net', a, heard)
    ensures net'.Keys == net.Keys && net'[a].inner.generation >= net[a].inner.generation
  {
  }

  ghost predicate ValidPeer(id: NodeId, p: Peer) {
    p.inner.selfId == id && Keyed(p.vms) && KeyedVolumes(p.volumes)
  }

  method Announcement(p: Peer, a: NodeId, member: NodeRecord) returns (msg: Heartbeat)
    requires ValidPeer(a, p)
    ensures Announces(msg, p)
  {
    var mine := SnapshotOf(p);
    msg := Heartbeat(p.inner.selfId, p.inner.generation, member, Some(mine));
  }

  // One post and its answer: the receiver's and the sender's states after it.
  method Call(ghost sender: Peer, current: Peer, peer: Peer, a: NodeId, to: NodeId, msg: Heartbeat, now: u64)
    returns (peer': Peer, current': Peer)
    requires Announces(msg, sender) && current.inner.generation >= sender.inner.generation
    requires ValidPeer(a, current) && ValidPeer(to, peer)
    ensures peer' == AfterHeartbeat(peer, msg, now)
    ensures Levelled(peer, sender, peer') && Levelled(current, peer, current')
    ensures ValidPeer(a, current') && ValidPeer(to, peer')
  {
    hide AfterHeartbeat, AfterAnswer, Answers, IsSnapshotOf, Announces;
    peer' := AfterHeartbeat(peer, msg, now);
    HeartbeatKeepsKeyed(peer, msg, now);
    var answer: Option<ClusterSnapshot> := None;
    if Answers(peer, msg, now) {
      var theirs := SnapshotOf(peer');
      answer := Some(theirs);
    }
    HeartbeatLevels(sender, peer, msg, now);
    AnswerLevels(current, peer', to, answer, now);
    AnswerKeepsKeyed(current, to, answer, now);
    current' := AfterAnswer(current, to, answer, now);
  }

  // send_heartbeats: node `a` posts one message, made before the loop, to each peer in turn. A peer
  // outside `reachable` rejects it or does not answer.
  method SendHeartbeats(net: Net, a: NodeId, peers: seq<NodeId>, reachable: set<NodeId>, member: NodeRecord, now: u64)
    returns (net': Net, ghost heard: set<NodeId>)
    requires ValidNet(net) && a in net && a !in peers
    requires forall i, j | 0 <= i < j < |peers| :: peers[i] != peers[j]
    requires forall id <- peers :: id in net
    ensures ValidNet(net')
    ensures heard == set id <- peers | id in reachable
    ensures RoundDone(net, net', a, heard)
  {
    hide AfterHeartbeat, Levelled, RoundDone, ValidPeer, IsSnapshotOf;
    net' := net;
    RoundStarts(net, a);
    var msg := Announcement(net[a], a, member);
    heard := {};
    for i := 0 to |peers|
      invariant ValidNet(net')
      invariant heard == set id <- peers[..i] | id in reachable
      invariant net'.Keys == net.Keys
      invariant RoundDone(net, net', a, heard)
    {
      var id := peers[i];
      assert peers[..i + 1] == peers[..i] + [id];
      if id in reachable {
        RoundSoFar(net, net', a, heard);
        var peer, sender := Call(net[a], net'[a], net'[id], a, id, msg, now);
        RoundStep(net, net', a, heard, id, peer, sender);
        net' := net'[id := peer][a := sender];
        heard := heard + {id};
      }
    }
    assert peers[..|peers|] == peers;
  }

  lemma HeartbeatKeepsKeyed(p: Peer, msg: Heartbeat, now: u64)
    requires Keyed(p.vms) && KeyedVolumes(p.volumes)
    ensures var q := AfterHeartbeat(p, msg, now);
      Keyed(q.vms) && KeyedVolumes(q.volumes) && q.inner.selfId == p.inner.selfId
  {
    if msg.snapshot.Some? {
      ReplacedIsKeyed(msg.snapshot.value.vms, msg.snapshot.value.volumes);
    }
  }

  lemma AnswerKeepsKeyed(p: Peer, to: NodeId, answer: Option<ClusterSnapshot>, now: u64)
    requires Keyed(p.vms) && KeyedVolumes(p.volumes)
    ensures var q := AfterAnswer(p, to, answer, now);
      Keyed(q.vms) && KeyedVolumes(q.volumes) && q.inner.selfId == p.inner.selfId
  {
    if answer.Some? {
      ReplacedIsKeyed(answer.value.vms, answer.value.volumes);
    }
  }

  // A sole top-generation sender brings every peer that hears it to its own inventory.
  lemma RoundFromTheTop(net: Net, net': Net, a: NodeId, heard: set<NodeId>)
    requires RoundDone(net, net', a, heard)
    requires forall id <- heard :: net[id].inner.generation < net[a].inner.generation
    ensures forall id <- heard + {a} ::
      net'[id].inner.generation == net[a].inner.generation && SameInventory(net'[id], net[a])
  {
  }

  ghost predicate Level(net: Net, ids: set<NodeId>)
    requires ids <= net.Keys
  {
    forall p <- ids, q <- ids ::
      net[p].inner.generation == net[q].inner.generation && SameInventory(net[p], net[q])
  }

  // Nodes at the highest generation hold the same inventory.
  ghost predicate AgreeAtTop(net: Net, ids: set<NodeId>)
    requires ids <= net.Keys
  {
    forall p <- ids, q <- ids
      | net[p].inner.generation == net[q].inner.generation
        && forall r <- ids :: net[r].inner.generation <= net[p].inner.generation
      :: SameInventory(net[p], net[q])
  }

  lemma RoundTop(net: Net, net': Net, a: NodeId, heard: set<NodeId>, id: NodeId)
    requires RoundDone(net, net', a, heard) && id in heard + {a}
    ensures net[id].inner.generation <= net'[id].inner.generation <= net'[a].inner.generation
    ensures net[id].inner.generation == net'[id].inner.generation ==> SameInventory(net[id], net'[id])
    ensures net[id].inner.generation < net'[id].inner.generation && id != a ==>
      net'[id].inner.generation == net[a].inner.generation && SameInventory(net[a], net'[id])
  {
  }

  lemma AfterTwoRounds(net: Net, mid: Net, end: Net, a: NodeId, heard: set<NodeId>, source: NodeId, id: NodeId)
    requires RoundDone(net, mid, a, heard) && RoundDone(mid, end, a, heard) && id in heard + {a}
    requires source in heard + {a} && net[source].inner.generation == mid[a].inner.generation
    requires SameInventory(mid[a], net[source])
    requires forall h <- heard + {a} :: net[h].inner.generation <= mid[a].inner.generation
    requires forall h <- heard :: mid[h].inner.generation <= mid[a].inner.generation
    ensures end[id].inner.generation == mid[a].inner.generation
    ensures net[id].inner.generation == mid[a].inner.generation ==> SameInventory(end[id], net[id])
    ensures AgreeAtTop(net, heard + {a}) ==> SameInventory(end[id], net[source])
  {
    RoundTop(net, mid, a, heard, id);
    RoundTop(net, mid, a, heard, a);
    assert a in heard + {a};
  }

  // Every node is at the top generation, and those that began there hold what they began with.
  ghost predicate Raised(net: Net, end: Net, ids: set<NodeId>, top: nat)
    requires ids <= net.Keys && ids <= end.Keys
  {
    forall id <- ids ::
      && net[id].inner.generation <= top == end[id].inner.generation
      && (net[id].inner.generation == top ==> SameInventory(end[id], net[id]))
  }

  lemma LevelMeansAgreed(net: Net, end: Net, ids: set<NodeId>, top: nat, source: NodeId)
    requires ids <= net.Keys && ids <= end.Keys && Raised(net, end, ids, top)
    requires source in ids && net[source].inner.generation == top
    requires Level(end, ids)
    ensures AgreeAtTop(net, ids)
  {
    forall p, q | p in ids && q in ids && net[p].inner.generation == net[q].inner.generation
                  && forall r <- ids :: net[r].inner.generation <= net[p].inner.generation
      ensures SameInventory(net[p], net[q])
    {
      assert net[source].inner.generation <= net[p].inner.generation;
      assert SameInventory(end[p], end[q]);
    }
  }

  lemma AgreedMeansLevel(net: Net, end: Net, ids: set<NodeId>, top: nat, source: NodeId)
    requires ids <= net.Keys && ids <= end.Keys && source in net && Raised(net, end, ids, top)
    requires forall id <- ids :: SameInventory(end[id], net[source])
    ensures Level(end, ids)
  {
    forall p, q | p in ids && q in ids
      ensures end[p].inner.generation == end[q].inner.generation && SameInventory(end[p], end[q])
    {
    }
  }

  lemma TwoRoundsRaise(net: Net, mid: Net, end: Net, a: NodeId, heard: set<NodeId>, source: NodeId)
    requires RoundDone(net, mid, a, heard) && RoundDone(mid, end, a, heard)
    requires source in heard + {a} && net[source].inner.generation == mid[a].inner.generation
    requires SameInventory(mid[a], net[source])
    ensures Raised(net, end, heard + {a}, mid[a].inner.generation)
    ensures AgreeAtTop(net, heard + {a}) ==> forall id <- heard + {a} :: SameInventory(end[id], net[source])
  {
    var ids := heard + {a};
    assert ids <= net.Keys && ids <= mid.Keys && ids <= end.Keys;
    hide RoundDone, SameInventory, AgreeAtTop;
    forall h <- ids
      ensures net[h].inner.generation <= mid[h].inner.generation <= mid[a].inner.generation
    {
      RoundTop(net, mid, a, heard, h);
    }
    forall id <- ids
      ensures end[id].inner.generation == mid[a].inner.generation
      ensures net[id].inner.generation == mid[a].inner.generation ==> SameInventory(end[id], net[id])
      ensures AgreeAtTop(net, ids) ==> SameInventory(end[id], net[source])
    {
      AfterTwoRounds(net, mid, end, a, heard, source, id);
    }
  }

  // Two rounds of any one node, the first to collect and the second to spread, level the group
  // exactly when its top-generation nodes agreed to begin with.
  lemma TwoRoundsLevelIff(net: Net, mid: Net, end: Net, a: NodeId, heard: set<NodeId>)
    requires RoundDone(net, mid, a, heard) && RoundDone(mid, end, a, heard)
    ensures Level(end, heard + {a}) <==> AgreeAtTop(net, heard + {a})
  {
    var ids := heard + {a};
    assert ids <= net.Keys && ids <= end.Keys && a in mid;
    var source := TopSource(net, mid, a, heard);
    hide RoundDone, SameInventory, Level, AgreeAtTop, Raised;
    TwoRoundsRaise(net, mid, end, a, heard, source);
    if Level(end, ids) {
      LevelMeansAgreed(net, end, ids, mid[a].inner.generation, source);
    }
    if AgreeAtTop(net, ids) {
      AgreedMeansLevel(net, end, ids, mid[a].inner.generation, source);
    }
  }

  // Some node already held what the sender ends its first round with.
  lemma TopSource(net: Net, mid: Net, a: NodeId, heard: set<NodeId>) returns (source: NodeId)
    requires RoundDone(net, mid, a, heard)
    ensures source in heard + {a}
    ensures net[source].inner.generation == mid[a].inner.generation && SameInventory(mid[a], net[source])
  {
    if mid[a].inner.generation == net[a].inner.generation {
      source := a;
    } else {
      source :| source in heard && net[source].inner.generation == mid[a].inner.generation
        && SameInventory(mid[a], net[source]);
    }
  }
}
