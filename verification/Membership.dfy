// Cluster membership as one node keeps it (crates/pertisk-daemon/src/cluster.rs).
module Membership {
  import opened Prelude
  import opened Scheduler
  import opened Guests
  import opened Quorum

  datatype NodeRecord = NodeRecord(id: NodeId, name: string, cpus: u32, memoryMib: u32)

  datatype MemberState = MemberState(record: NodeRecord, lastSeenMs: u64)

  type Members = map<NodeId, MemberState>

  datatype Inner = Inner(
    selfId: NodeId,
    name: string,
    secret: string,
    generation: nat,
    members: Members,
    fenced: bool,
    haArmed: bool,
    witnessHolder: Option<NodeId>,
    witnessUntilMs: u64)

  datatype ClusterSnapshot = ClusterSnapshot(
    name: string,
    secret: string,
    generation: nat,
    members: seq<NodeRecord>,
    vms: seq<VmRecord>,
    volumes: seq<VolumeRecord>,
    haArmed: bool)

  // ---------- What a node sees ----------

  predicate IsOnline(m: MemberState, selfId: NodeId, now: u64, timeout: u64) {
    m.record.id == selfId || now - m.lastSeenMs <= timeout
  }

  function OnlineIds(inner: Inner, now: u64, timeout: u64): set<NodeId> {
    set id <- inner.members | IsOnline(inner.members[id], inner.selfId, now, timeout)
  }

  predicate HoldsWitness(inner: Inner, now: u64) {
    inner.witnessHolder == Some(inner.selfId) && now < inner.witnessUntilMs
  }

  predicate SeesQuorum(inner: Inner, now: u64, timeout: u64) {
    QuorumWithWitness(|OnlineIds(inner, now, timeout)|, |inner.members|, HoldsWitness(inner, now))
  }

  // Every entry sits under its record's id, and the node itself is among them.
  ghost predicate Wellformed(inner: Inner) {
    && inner.selfId in inner.members
    && forall id <- inner.members :: inner.members[id].record.id == id
  }

  // ---------- Applying a snapshot's member list ----------

  // The entry a listed record gets: this node is seen now, a known peer keeps its time, a new one
  // starts unseen.
  function Entry(inner: Inner, record: NodeRecord, now: u64): MemberState {
    MemberState(record,
      if record.id == inner.selfId then now
      else if record.id in inner.members then inner.members[record.id].lastSeenMs
      else 0)
  }

  function Listed(inner: Inner, records: seq<NodeRecord>, now: u64): Members {
    if records == [] then map[]
    else
      var last := records[|records| - 1];
      Listed(inner, records[..|records| - 1], now)[last.id := Entry(inner, last, now)]
  }

  // A node never drops itself.
  function NextMembers(inner: Inner, records: seq<NodeRecord>, now: u64): Members {
    var next := Listed(inner, records, now);
    if inner.selfId !in next && inner.selfId in inner.members then
      next[inner.selfId := inner.members[inner.selfId]]
    else next
  }

  function Adopted(inner: Inner, snap: ClusterSnapshot, now: u64): Inner {
    inner.(name := snap.name, secret := snap.secret, generation := snap.generation,
           members := NextMembers(inner, snap.members, now), fenced := false, haArmed := snap.haArmed)
  }

  function WithMembership(inner: Inner, snap: ClusterSnapshot, force: bool, now: u64): Inner {
    if !force && snap.generation < inner.generation then inner else Adopted(inner, snap, now)
  }

  function Touched(inner: Inner, id: NodeId, record: Option<NodeRecord>, now: u64): Inner {
    match record
    case Some(r) => inner.(members := inner.members[id := MemberState(r, now)])
    case None =>
      if id in inner.members then
        inner.(members := inner.members[id := inner.members[id].(lastSeenMs := now)])
      else inner
  }

  // Forgetting a peer lifts the fence; forgetting oneself or a stranger does nothing.
  function Without(inner: Inner, id: NodeId): Inner {
    if id == inner.selfId || id !in inner.members then inner
    else inner.(members := inner.members - {id}, generation := inner.generation + 1, fenced := false)
  }

  function Solo(inner: Inner, newSecret: string): Inner {
    inner.(members := (map id | id in inner.members && id == inner.selfId :: inner.members[id]),
           secret := newSecret, generation := inner.generation + 1, fenced := false)
  }

  // The node's own state, updated in place under its lock.
  class Cluster {
    const offlineAfterMs: u64
    var inner: Inner

    constructor (inner: Inner, offlineAfterMs: u64)
      ensures this.inner == inner && this.offlineAfterMs == offlineAfterMs
    {
      this.inner := inner;
      this.offlineAfterMs := offlineAfterMs;
    }

    method Touch(id: NodeId, record: Option<NodeRecord>, now: u64)
      modifies this
      ensures inner == Touched(old(inner), id, record, now)
      ensures record.Some? ==>
        inner == old(inner).(members := old(inner).members[id := MemberState(record.value, now)])
      ensures record.None? && id in old(inner).members ==>
        inner == old(inner).(members := old(inner).members[id := MemberState(old(inner).members[id].record, now)])
      ensures record.None? && id !in old(inner).members ==> inner == old(inner)
    {
      if record.Some? {
        inner := inner.(members := inner.members[id := MemberState(record.value, now)]);
      } else if id in inner.members {
        inner := inner.(members := inner.members[id := inner.members[id].(lastSeenMs := now)]);
      }
    }

    method NoteWitness(holder: NodeId, ttlMs: u64, now: u64)
      modifies this
      ensures inner == old(inner).(witnessHolder := Some(holder), witnessUntilMs := SaturatingAdd64(now, ttlMs))
    {
      inner := inner.(witnessHolder := Some(holder));
      inner := inner.(witnessUntilMs := SaturatingAdd64(now, ttlMs));
    }

    // True when the node just became fenced.
    method SetFenced(fenced: bool) returns (entered: bool)
      modifies this
      ensures inner == old(inner).(fenced := fenced)
      ensures entered <==> fenced && !old(inner).fenced
    {
      entered := fenced && !inner.fenced;
      inner := inner.(fenced := fenced);
    }

    method Bump()
      modifies this
      ensures inner == old(inner).(generation := old(inner).generation + 1)
    {
      inner := inner.(generation := inner.generation + 1);
    }

    method AddMember(record: NodeRecord, now: u64)
      modifies this
      ensures inner == old(inner).(members := old(inner).members[record.id := MemberState(record, now)],
                                   generation := old(inner).generation + 1)
    {
      inner := inner.(members := inner.members[record.id := MemberState(record, now)]);
      inner := inner.(generation := inner.generation + 1);
    }

    method RemoveMember(id: NodeId)
      modifies this
      ensures inner == Without(old(inner), id)
      ensures id == old(inner).selfId || id !in old(inner).members ==> inner == old(inner)
      ensures id != old(inner).selfId && id in old(inner).members ==>
        inner == old(inner).(members := old(inner).members - {id}, generation := old(inner).generation + 1,
                             fenced := false)
    {
      if id == inner.selfId {
        return;
      }
      if id !in inner.members {
        return;
      }
      inner := inner.(members := inner.members - {id});
      inner := inner.(generation := inner.generation + 1, fenced := false);
    }

    method ResetSolo(newSecret: string)
      modifies this
      ensures inner == Solo(old(inner), newSecret)
      ensures inner == old(inner).(members := inner.members, secret := newSecret,
                                   generation := old(inner).generation + 1, fenced := false)
      ensures forall id :: id in inner.members <==> id == old(inner).selfId && id in old(inner).members
      ensures forall id <- inner.members :: inner.members[id] == old(inner).members[id]
    {
      var selfId := inner.selfId;
      inner := inner.(members := map id | id in inner.members && id == selfId :: inner.members[id]);
      inner := inner.(secret := newSecret, generation := inner.generation + 1, fenced := false);
    }

    // apply_membership, or its forced form on a join.
    method ApplyMembership(snap: ClusterSnapshot, force: bool, now: u64)
      modifies this
      ensures inner == WithMembership(old(inner), snap, force, now)
      ensures !force && snap.generation < old(inner).generation ==> inner == old(inner)
      ensures force || snap.generation >= old(inner).generation ==>
        inner == old(inner).(name := snap.name, secret := snap.secret, generation := snap.generation,
                             members := inner.members, fenced := false, haArmed := snap.haArmed)
    {
      if !force && snap.generation < inner.generation {
        return;
      }
      ghost var was := inner;
      inner := inner.(name := snap.name, secret := snap.secret, generation := snap.generation);
      var next: Members := map[];
      for i := 0 to |snap.members|
        invariant inner == was.(name := snap.name, secret := snap.secret, generation := snap.generation)
        invariant next == Listed(was, snap.members[..i], now)
      {
        var record := snap.members[i];
        var lastSeenMs :=
          if record.id in inner.members then inner.members[record.id].lastSeenMs else 0;
        if record.id == inner.selfId {
          lastSeenMs := now;
        }
        assert snap.members[..i + 1][..i] == snap.members[..i];
        next := next[record.id := MemberState(record, lastSeenMs)];
      }
      assert snap.members[..|snap.members|] == snap.members;
      if inner.selfId !in next && inner.selfId in inner.members {
        next := next[inner.selfId := inner.members[inner.selfId]];
      }
      inner := inner.(members := next, fenced := false, haArmed := snap.haArmed);
    }
  }

  // ---------- What adoption does to the membership ----------

  ghost predicate DistinctRecords(records: seq<NodeRecord>) {
    forall i, j | 0 <= i < j < |records| :: records[i].id != records[j].id
  }

  lemma {:induction false} ListedEntries(inner: Inner, records: seq<NodeRecord>, now: u64)
    requires DistinctRecords(records)
    ensures forall r <- records ::
      r.id in Listed(inner, records, now) && Listed(inner, records, now)[r.id] == Entry(inner, r, now)
    ensures forall id <- Listed(inner, records, now) :: exists r <- records :: r.id == id
  {
    if records != [] {
      var front, last := records[..|records| - 1], records[|records| - 1];
      ListedEntries(inner, front, now);
      assert records == front + [last];
      forall r <- front
        ensures r.id != last.id
      {
        var i :| 0 <= i < |front| && front[i] == r;
        assert records[i].id != records[|records| - 1].id;
      }
    }
  }

  // Online are the node itself and every member heard of within the timeout.
  lemma OnlineIff(inner: Inner, now: u64, timeout: u64, id: NodeId)
    requires Wellformed(inner)
    ensures id in OnlineIds(inner, now, timeout)
       <==> id in inner.members && (id == inner.selfId || now <= inner.members[id].lastSeenMs + timeout)
  {
  }

  // A peer heard from with its record, or one already known, counts as online from then on until the
  // timeout has passed; nobody else's standing changes.
  lemma HeardIsOnline(inner: Inner, id: NodeId, record: Option<NodeRecord>, now: u64, later: u64, timeout: u64,
                      other: NodeId)
    requires now <= later && (record.Some? || id in inner.members)
    ensures var met := Touched(inner, id, record, now);
      && (later <= now + timeout ==> id in OnlineIds(met, later, timeout))
      && (record.Some? ==> met.members[id].record == record.value)
      && (other != id ==>
            (other in OnlineIds(met, later, timeout) <==> other in OnlineIds(inner, later, timeout)))
  {
  }

  // After adoption the members are exactly those listed, with the records listed, plus the node itself;
  // a peer that left is gone, and a peer that stayed is as fresh as it was.
  lemma AdoptionFollowsTheList(inner: Inner, snap: ClusterSnapshot, now: u64, id: NodeId)
    requires Wellformed(inner) && DistinctRecords(snap.members)
    ensures var after := Adopted(inner, snap, now);
      && Wellformed(after)
      && (id in after.members <==> id == inner.selfId || exists r <- snap.members :: r.id == id)
      && (id in after.members && id in inner.members && id != inner.selfId ==>
            after.members[id].lastSeenMs == inner.members[id].lastSeenMs)
      && (id in after.members && id !in inner.members ==> after.members[id].lastSeenMs == 0)
      && (forall r <- snap.members | r.id == id :: after.members[id].record == r)
      && ((exists r <- snap.members :: r.id == inner.selfId) ==> after.members[inner.selfId].lastSeenMs == now)
      && ((forall r <- snap.members :: r.id != inner.selfId) ==>
            after.members[inner.selfId] == inner.members[inner.selfId])
  {
    ListedEntries(inner, snap.members, now);
    var after := Adopted(inner, snap, now);
    forall k <- after.members
      ensures after.members[k].record.id == k
    {
      if k in Listed(inner, snap.members, now) {
        var r :| r in snap.members && r.id == k;
      }
    }
  }

  // A peer online before an adoption that lists it is online after it, at the same instant.
  lemma AdoptionKeepsPeersOnline(inner: Inner, snap: ClusterSnapshot, now: u64, timeout: u64, id: NodeId)
    requires Wellformed(inner) && DistinctRecords(snap.members)
    requires id in OnlineIds(inner, now, timeout) && exists r <- snap.members :: r.id == id
    ensures id in OnlineIds(Adopted(inner, snap, now), now, timeout)
  {
    AdoptionFollowsTheList(inner, snap, now, id);
  }
}
