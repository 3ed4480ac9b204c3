// HA recovery: restarting the guests of a lost node (crates/pertisk-daemon/src/service.rs).
module HaRecovery {
  import opened Prelude
  import opened Scheduler
  import opened Text
  import opened Guests
  import opened Gossip

  // ---------- Disks ----------

  // No disk at all, or every disk a known Ceph RBD volume.
  predicate DisksDurable(disks: seq<DiskSpec>, volumes: VolumeMap) {
    forall d <- disks :: d.volumeId.Some? && d.volumeId.value in volumes && volumes[d.volumeId.value].backend.Rbd?
  }

  // A disk ties the guest to its replica holders unless it is unknown, on RBD, or has no replica.
  predicate Ties(d: DiskSpec, volumes: VolumeMap) {
    && d.volumeId.Some?
    && d.volumeId.value in volumes
    && !volumes[d.volumeId.value].backend.Rbd?
    && volumes[d.volumeId.value].replicas != []
  }

  function Retain(ids: seq<NodeId>, keep: seq<NodeId>): seq<NodeId> {
    if ids == [] then []
    else (if ids[0] in keep then [ids[0]] else []) + Retain(ids[1..], keep)
  }

  lemma {:induction false} RetainMembers(ids: seq<NodeId>, keep: seq<NodeId>)
    ensures forall id :: id in Retain(ids, keep) <==> id in ids && id in keep
  {
    if ids != [] {
      RetainMembers(ids[1..], keep);
    }
  }

  ghost predicate IsAffinity(disks: seq<DiskSpec>, volumes: VolumeMap, affinity: seq<NodeId>) {
    if exists d <- disks :: Ties(d, volumes) then
      forall id :: id in affinity <==> forall d <- disks | Ties(d, volumes) :: id in volumes[d.volumeId.value].replicas
    else affinity == []
  }

  // volume_affinity: the nodes that hold a replica of every tying disk.
  method VolumeAffinity(disks: seq<DiskSpec>, volumes: VolumeMap) returns (acc: seq<NodeId>)
    ensures IsAffinity(disks, volumes, acc)
    ensures forall id :: id in acc <==>
      && (exists d <- disks ::
           && d.volumeId.Some? && d.volumeId.value in volumes
           && volumes[d.volumeId.value].backend != Rbd && volumes[d.volumeId.value].replicas != [])
      && forall d <- disks | d.volumeId.Some? && d.volumeId.value in volumes ::
           var v := volumes[d.volumeId.value];
           v.backend == Rbd || v.replicas == [] || id in v.replicas
  {
    var sets: seq<seq<NodeId>> := [];
    for i := 0 to |disks|
      invariant sets == [] <==> forall d <- disks[..i] :: !Ties(d, volumes)
      invariant forall s <- sets ::
                  exists d <- disks[..i] :: Ties(d, volumes) && volumes[d.volumeId.value].replicas == s
      invariant forall d <- disks[..i] | Ties(d, volumes) :: volumes[d.volumeId.value].replicas in sets
    {
      assert disks[..i + 1] == disks[..i] + [disks[i]];
      if Ties(disks[i], volumes) {
        sets := sets + [volumes[disks[i].volumeId.value].replicas];
      }
    }
    assert disks[..|disks|] == disks;
    if sets == [] {
      return [];
    }
    acc := sets[0];
    for i := 1 to |sets|
      invariant forall id :: id in acc <==> forall s <- sets[..i] :: id in s
    {
      assert sets[..i + 1] == sets[..i] + [sets[i]];
      RetainMembers(acc, sets[i]);
      acc := Retain(acc, sets[i]);
    }
    assert sets[..|sets|] == sets;
  }

  // A guest that may restart anywhere is tied to nobody.
  lemma DurableGuestHasNoAffinity(disks: seq<DiskSpec>, volumes: VolumeMap, affinity: seq<NodeId>)
    requires DisksDurable(disks, volumes) && IsAffinity(disks, volumes, affinity)
    ensures affinity == []
  {
  }

  // ---------- One guest ----------

  // The nodes that hold another guest of the same placement group.
  function GroupNodes(vms: seq<VmRecord>, vm: VmRecord): seq<NodeId> {
    if vms == [] || PlacementGroup(vm.spec.group).None? then []
    else
      var other := vms[0];
      (if !other.template && other.id != vm.id && other.nodeId.Some?
          && PlacementGroup(other.spec.group) == PlacementGroup(vm.spec.group)
       then [other.nodeId.value] else [])
      + GroupNodes(vms[1..], vm)
  }

  lemma {:induction false} GroupNodesMembers(vms: seq<VmRecord>, vm: VmRecord, id: NodeId)
    ensures id in GroupNodes(vms, vm) <==>
      && PlacementGroup(vm.spec.group).Some?
      && exists other <- vms ::
        && !other.template && other.id != vm.id && other.nodeId == Some(id)
        && PlacementGroup(other.spec.group) == PlacementGroup(vm.spec.group)
  {
    hide PlacementGroup;
    if vms != [] {
      GroupNodesMembers(vms[1..], vm, id);
      assert vms == [vms[0]] + vms[1..];
    }
  }

  predicate OwnerOnline(loads: seq<NodeLoad>, owner: NodeId) {
    exists n <- loads :: n.id == owner && n.online
  }

  // An HA guest running on a node that is gone.
  predicate IsLost(vm: VmRecord, loads: seq<NodeLoad>) {
    && !vm.template && vm.spec.ha && vm.state == Running
    && vm.nodeId.Some?
    && !OwnerOnline(loads, vm.nodeId.value)
  }

  predicate SomeNodeFits(vm: VmRecord, loads: seq<NodeLoad>) {
    exists n <- loads :: Fits(n, SpecNeed(vm.spec))
  }

  function OnlineOf(ids: seq<NodeId>, loads: seq<NodeLoad>): seq<NodeId> {
    if ids == [] then []
    else (if OwnerOnline(loads, ids[0]) then [ids[0]] else []) + OnlineOf(ids[1..], loads)
  }

  function First(ids: seq<NodeId>): Option<NodeId> {
    if ids == [] then None else Some(ids[0])
  }

  // Where a lost, durable guest goes: its affinity is empty, its group's nodes are avoided.
  function RestartNode(vms: seq<VmRecord>, vm: VmRecord, loads: seq<NodeLoad>): Option<NodeId> {
    ScheduleSpread(loads, SpecNeed(vm.spec), None, [], GroupNodes(vms, vm))
  }

  // The node is online and is never the one that was lost; there is one exactly when some node fits.
  lemma RestartNodeIsAlive(vms: seq<VmRecord>, vm: VmRecord, loads: seq<NodeLoad>)
    requires IsLost(vm, loads)
    ensures RestartNode(vms, vm, loads).Some? <==> SomeNodeFits(vm, loads)
    ensures RestartNode(vms, vm, loads).Some? ==>
      && RestartNode(vms, vm, loads) != vm.nodeId
      && OwnerOnline(loads, RestartNode(vms, vm, loads).value)
  {
    hide ScheduleSpread, GroupNodes;
    ScheduleSpreadContract(loads, SpecNeed(vm.spec), None, [], GroupNodes(vms, vm));
  }

  // ---------- The rule, on the records' own fields ----------

  ghost predicate Mates(vm: VmRecord, other: VmRecord) {
    && !other.template && other.id != vm.id
    && vm.spec.group.Some? && other.spec.group.Some?
    && Trim(vm.spec.group.value) == Trim(other.spec.group.value) != ""
  }

  // A guest of the same group, in whatever state, is on that node.
  ghost predicate HostsMate(vms: seq<VmRecord>, vm: VmRecord, id: NodeId) {
    exists other <- vms :: Mates(vm, other) && other.nodeId == Some(id)
  }

  ghost predicate CanTake(n: NodeLoad, vm: VmRecord) {
    Fits(n, Need(vm.spec.vcpus, vm.spec.memoryMib))
  }

  // A node that fits, and hosts one of the group only if every node that fits does.
  ghost predicate Acceptable(vms: seq<VmRecord>, vm: VmRecord, loads: seq<NodeLoad>, n: NodeLoad) {
    && n in loads && CanTake(n, vm)
    && (HostsMate(vms, vm, n.id) ==> forall m <- loads | CanTake(m, vm) :: HostsMate(vms, vm, m.id))
  }

  // The least loaded acceptable node, and of equals the one with the least id.
  ghost predicate IsBestNode(vms: seq<VmRecord>, vm: VmRecord, loads: seq<NodeLoad>, id: NodeId) {
    exists n :: Acceptable(vms, vm, loads, n) && n.id == id
      && forall m | Acceptable(vms, vm, loads, m) ::
           LoadScore(n) < LoadScore(m) || (LoadScore(n) == LoadScore(m) && n.id <= m.id)
  }

  lemma GroupNodesHostMates(vms: seq<VmRecord>, vm: VmRecord, id: NodeId)
    ensures id in GroupNodes(vms, vm) <==> HostsMate(vms, vm, id)
  {
    GroupNodesMembers(vms, vm, id);
    hide GroupNodes, Trim;
  }

  lemma RestartNodeIsBest(vms: seq<VmRecord>, vm: VmRecord, loads: seq<NodeLoad>)
    ensures match RestartNode(vms, vm, loads)
      case None => forall n <- loads :: !CanTake(n, vm)
      case Some(id) => IsBestNode(vms, vm, loads, id)
  {
    var need, avoid := SpecNeed(vm.spec), GroupNodes(vms, vm);
    ScheduleSpreadIsLeast(loads, need, None, [], avoid);
    forall n
      ensures Eligible(loads, need, [], avoid, n) <==> Acceptable(vms, vm, loads, n)
    {
      forall m | m in loads
        ensures m.id in avoid <==> HostsMate(vms, vm, m.id)
      {
        GroupNodesHostMates(vms, vm, m.id);
      }
      hide GroupNodes, HostsMate, Fits;
    }
    hide ScheduleSpread, GroupNodes, Eligible, Acceptable, Fits, LoadScore;
  }

  // Survivors with the same records and the same view of the nodes, in whatever order, agree.
  lemma SurvivorsPickTheSameNode(
      vms: seq<VmRecord>, vms': seq<VmRecord>, vm: VmRecord, loads: seq<NodeLoad>, loads': seq<NodeLoad>)
    requires forall r :: r in vms <==> r in vms'
    requires forall n :: n in loads <==> n in loads'
    ensures RestartNode(vms, vm, loads) == RestartNode(vms', vm, loads')
  {
    forall id
      ensures id in GroupNodes(vms, vm) <==> id in GroupNodes(vms', vm)
    {
      GroupNodesMembers(vms, vm, id);
      GroupNodesMembers(vms', vm, id);
    }
    hide GroupNodes, ScheduleSpread;
    ScheduleSpreadIgnoresOrder(loads, loads', SpecNeed(vm.spec), None, [], [],
                               GroupNodes(vms, vm), GroupNodes(vms', vm));
  }

  // ---------- The pass ----------

  // How preparing the volumes and starting the guest went.
  datatype Outcome = PrepareFails | RunFails | Starts

  function Write(vms: seq<VmRecord>, record: VmRecord): (r: seq<VmRecord>)
    ensures |r| == |vms|
  {
    if vms == [] then []
    else [if vms[0].id == record.id then record else vms[0]] + Write(vms[1..], record)
  }

  lemma {:induction false} WriteAt(vms: seq<VmRecord>, record: VmRecord)
    ensures forall i | 0 <= i < |vms| ::
      Write(vms, record)[i] == if vms[i].id == record.id then record else vms[i]
  {
    if vms != [] {
      WriteAt(vms[1..], record);
    }
  }

  function Recovered(vms: seq<VmRecord>, vm: VmRecord, loads: seq<NodeLoad>, volumes: VolumeMap, outcome: Outcome)
    : (r: seq<VmRecord>)
    ensures |r| == |vms|
  {
    if !IsLost(vm, loads) then vms
    else if !DisksDurable(vm.spec.disks, volumes) then Write(vms, vm.(state := Failed))
    else
      var dest := RestartNode(vms, vm, loads);
      if dest.None? then vms
      else if outcome.Starts? then Write(vms, vm.(nodeId := dest, state := Running))
      else Write(vms, vm.(state := Failed))
  }

  // The first k records of the list, handled in turn.
  function RecoveredUpTo(
      list: seq<VmRecord>, k: nat, loads: seq<NodeLoad>, volumes: VolumeMap, outcomes: seq<Outcome>): (r: seq<VmRecord>)
    requires k <= |list| == |outcomes|
    ensures |r| == |list|
  {
    if k == 0 then list
    else Recovered(RecoveredUpTo(list, k - 1, loads, volumes, outcomes), list[k - 1], loads, volumes, outcomes[k - 1])
  }

  class Node {
    const volumes: VolumeMap
    const loads: seq<NodeLoad>
    var vms: seq<VmRecord>

    constructor (volumes: VolumeMap, loads: seq<NodeLoad>, vms: seq<VmRecord>)
      ensures this.volumes == volumes && this.loads == loads && this.vms == vms
    {
      this.volumes := volumes;
      this.loads := loads;
      this.vms := vms;
    }

    // recover_ha, with the loads and the list read once at the start.
    method RecoverHa(outcomes: seq<Outcome>)
      requires |outcomes| == |vms|
      modifies this`vms
      ensures vms == RecoveredUpTo(old(vms), |old(vms)|, loads, volumes, outcomes)
    {
      var list := vms;
      for i := 0 to |list|
        invariant vms == RecoveredUpTo(list, i, loads, volumes, outcomes)
      {
        var vm := list[i];
        ghost var before := vms;
        if !vm.template && vm.spec.ha && vm.state == Running && vm.nodeId.Some? {
          var owner := vm.nodeId.value;
          if !OwnerOnline(loads, owner) {
            if !DisksDurable(vm.spec.disks, volumes) {
              vms := Write(vms, vm.(state := Failed));
            } else {
              var tied := VolumeAffinity(vm.spec.disks, volumes);
              DurableGuestHasNoAffinity(vm.spec.disks, volumes, tied);
              var affinity := OnlineOf(tied, loads);
              var dest := ScheduleSpread(loads, SpecNeed(vm.spec), First(affinity), affinity, GroupNodes(vms, vm));
              RestartNodeIsAlive(vms, vm, loads);
              if dest.Some? && dest.value != owner {
                if outcomes[i] == PrepareFails {
                  vms := Write(vms, vm.(state := Failed));
                } else if outcomes[i] == RunFails {
                  vms := Write(vms, vm.(state := Failed));
                } else {
                  vms := Write(vms, vm.(nodeId := dest, state := Running));
                }
              }
            }
          }
        }
        assert vms == Recovered(before, vm, loads, volumes, outcomes[i]);
      }
    }
  }

  ghost predicate DistinctRecords(vms: seq<VmRecord>) {
    forall i, j | 0 <= i < j < |vms| :: vms[i].id != vms[j].id
  }

  // What a guest's record is after the pass, given what it was and the records at its turn.
  ghost predicate Settled(vms: seq<VmRecord>, was: VmRecord, now: VmRecord, loads: seq<NodeLoad>,
                          volumes: VolumeMap, outcome: Outcome)
  {
    if was.template || !was.spec.ha || was.state != Running || was.nodeId.None?
       || exists n <- loads :: was.nodeId == Some(n.id) && n.online
    then now == was
    else if exists d <- was.spec.disks ::
              d.volumeId.None? || d.volumeId.value !in volumes || volumes[d.volumeId.value].backend != Rbd
    then now == was.(state := Failed)
    else if forall n <- loads :: !CanTake(n, was) then now == was
    else if !outcome.Starts? then now == was.(state := Failed)
    else
      && now == was.(nodeId := now.nodeId, state := Running)
      && now.nodeId.Some? && now.nodeId != was.nodeId
      && (exists n <- loads :: now.nodeId == Some(n.id) && n.online)
      && IsBestNode(vms, was, loads, now.nodeId.value)
  }

  lemma RecoveredSettlesOne(vms: seq<VmRecord>, vm: VmRecord, loads: seq<NodeLoad>, volumes: VolumeMap,
                            outcome: Outcome)
    ensures var after := Recovered(vms, vm, loads, volumes, outcome);
      && |after| == |vms|
      && (forall i | 0 <= i < |vms| :: after[i].id == vms[i].id)
      && forall i | 0 <= i < |vms| ::
        if vms[i].id != vm.id then after[i] == vms[i]
        else vms[i] == vm ==> Settled(vms, vm, after[i], loads, volumes, outcome)
  {
    WriteAt(vms, vm.(state := Failed));
    if IsLost(vm, loads) {
      RestartNodeIsAlive(vms, vm, loads);
      RestartNodeIsBest(vms, vm, loads);
      WriteAt(vms, vm.(nodeId := RestartNode(vms, vm, loads), state := Running));
    }
    hide RestartNode, CanTake, IsBestNode;
  }

  lemma {:induction false} NotYetHandled(
      list: seq<VmRecord>, k: nat, loads: seq<NodeLoad>, volumes: VolumeMap, outcomes: seq<Outcome>)
    requires k <= |list| == |outcomes| && DistinctRecords(list)
    ensures var after := RecoveredUpTo(list, k, loads, volumes, outcomes);
      && (forall i | 0 <= i < |list| :: after[i].id == list[i].id)
      && forall i | k <= i < |list| :: after[i] == list[i]
  {
    hide Settled, Recovered;
    if k > 0 {
      NotYetHandled(list, k - 1, loads, volumes, outcomes);
      RecoveredSettlesOne(RecoveredUpTo(list, k - 1, loads, volumes, outcomes), list[k - 1], loads, volumes,
                          outcomes[k - 1]);
    }
  }

  lemma {:induction false} RecoveredSettles(
      list: seq<VmRecord>, k: nat, loads: seq<NodeLoad>, volumes: VolumeMap, outcomes: seq<Outcome>, i: nat)
    requires i < k <= |list| == |outcomes| && DistinctRecords(list)
    ensures Settled(RecoveredUpTo(list, i, loads, volumes, outcomes), list[i],
                    RecoveredUpTo(list, k, loads, volumes, outcomes)[i], loads, volumes, outcomes[i])
  {
    hide Settled, Recovered;
    NotYetHandled(list, k - 1, loads, volumes, outcomes);
    RecoveredSettlesOne(RecoveredUpTo(list, k - 1, loads, volumes, outcomes), list[k - 1], loads, volumes,
                        outcomes[k - 1]);
    if i < k - 1 {
      RecoveredSettles(list, k - 1, loads, volumes, outcomes, i);
    }
  }

  // After the pass: a guest that was not lost is unchanged; a lost one is Failed when its disks are
  // all on RBD or its restart failed, untouched when no node fits it, and otherwise running on an online
  // node other than the lost one: the best node for it, given the records at its turn.
  lemma RecoveryPassSettlesEveryGuest(
      list: seq<VmRecord>, loads: seq<NodeLoad>, volumes: VolumeMap, outcomes: seq<Outcome>, i: nat)
    requires i < |list| == |outcomes| && DistinctRecords(list)
    ensures Settled(RecoveredUpTo(list, i, loads, volumes, outcomes), list[i],
                    RecoveredUpTo(list, |list|, loads, volumes, outcomes)[i], loads, volumes, outcomes[i])
  {
    RecoveredSettles(list, |list|, loads, volumes, outcomes, i);
  }

  // Two survivors whose views list the same nodes carry out the same pass.
  lemma {:induction false} SurvivorsRecoverAlike(
      list: seq<VmRecord>, k: nat, loads: seq<NodeLoad>, loads': seq<NodeLoad>, volumes: VolumeMap,
      outcomes: seq<Outcome>)
    requires k <= |list| == |outcomes|
    requires forall n :: n in loads <==> n in loads'
    ensures RecoveredUpTo(list, k, loads, volumes, outcomes) == RecoveredUpTo(list, k, loads', volumes, outcomes)
  {
    if k > 0 {
      hide DisksDurable, RestartNode;
      SurvivorsRecoverAlike(list, k - 1, loads, loads', volumes, outcomes);
      var vms := RecoveredUpTo(list, k - 1, loads, volumes, outcomes);
      SurvivorsPickTheSameNode(vms, vms, list[k - 1], loads, loads');
    }
  }
}
