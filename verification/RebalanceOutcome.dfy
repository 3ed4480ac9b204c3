// What the rebalance pass does, said on the members and the guest records it reads
// (crates/pertisk-daemon/src/service.rs, cluster.rs).
module RebalanceOutcome {
  import opened Prelude
  import opened Ids
  import opened Text
  import opened Scheduler
  import opened Guests
  import opened Rebalance
  import opened RebalanceFacts
  import opened RebalanceService

  // ---------- The rule ----------

  // What runs on a node, in total.
  ghost function VcpusOn(vms: seq<VmRecord>, node: NodeId): nat {
    if vms == [] then 0
    else
      var last := vms[|vms| - 1];
      VcpusOn(vms[..|vms| - 1], node)
      + if last.state == Running && last.nodeId == Some(node) then last.spec.vcpus else 0
  }

  ghost function MemoryOn(vms: seq<VmRecord>, node: NodeId): nat {
    if vms == [] then 0
    else
      var last := vms[|vms| - 1];
      MemoryOn(vms[..|vms| - 1], node)
      + if last.state == Running && last.nodeId == Some(node) then last.spec.memoryMib else 0
  }

  // A running guest, no template, in a group with a name.
  ghost predicate Grouped(vm: VmRecord) {
    && !vm.template && vm.state == Running && vm.nodeId.Some?
    && vm.spec.group.Some? && Trim(vm.spec.group.value) != ""
  }

  ghost predicate Mates(a: VmRecord, b: VmRecord) {
    Grouped(a) && Grouped(b) && Trim(a.spec.group.value) == Trim(b.spec.group.value)
  }

  ghost predicate SharesNode(vms: seq<VmRecord>, i: nat)
    requires i < |vms|
  {
    exists j | 0 <= j < |vms| :: j != i && Mates(vms[i], vms[j]) && vms[i].nodeId == vms[j].nodeId
  }

  // The member is online, is not the guest's node, runs none of its group, and has room beside what
  // runs there (as 32-bit sums).
  ghost predicate Takes(m: Member, vms: seq<VmRecord>, vm: VmRecord) {
    && m.online
    && vm.nodeId != Some(m.id)
    && (forall other <- vms | Mates(vm, other) :: other.nodeId != Some(m.id))
    && (vm.spec.vcpus == 0
        || VcpusOn(vms, m.id) % U32_LIMIT + vm.spec.vcpus <= Min(8 * m.cpus, U32_LIMIT - 1))
    && (vm.spec.memoryMib == 0
        || MemoryOn(vms, m.id) % U32_LIMIT + vm.spec.memoryMib + Min(Max(m.memoryMib / 20, 64), 1536) <= m.memoryMib)
  }

  // Guest i is not held, shares its node with its group, and member k would take it.
  ghost predicate CanGo(members: seq<Member>, vms: seq<VmRecord>, hold: seq<VmId>, i: nat, k: nat) {
    && i < |vms| && k < |members|
    && vms[i].id !in hold
    && SharesNode(vms, i)
    && Takes(members[k], vms, vms[i])
  }

  ghost function Score(m: Member, vms: seq<VmRecord>): nat {
    (Min(1000 * (VcpusOn(vms, m.id) % U32_LIMIT), U32_LIMIT - 1) / Max(m.cpus, 1)
     + Min(1000 * (MemoryOn(vms, m.id) % U32_LIMIT), U32_LIMIT - 1)
       / Max(m.memoryMib - Min(Max(m.memoryMib / 20, 64), 1536), 1)) % U32_LIMIT
  }

  ghost predicate IdBefore(a: VmId, b: VmId) {
    if a.Numeric? then b.Legacy? || a.n < b.n else b.Legacy? && a.uuid < b.uuid
  }

  // By node, then by id, then by place in the list.
  ghost predicate Precedes(vms: seq<VmRecord>, i: nat, j: nat)
    requires i < |vms| && j < |vms| && vms[i].nodeId.Some? && vms[j].nodeId.Some?
  {
    || vms[i].nodeId.value < vms[j].nodeId.value
    || (&& vms[i].nodeId == vms[j].nodeId
        && (IdBefore(vms[i].id, vms[j].id) || (vms[i].id == vms[j].id && i < j)))
  }

  // The first guest that can go somewhere goes to the least loaded member that would take it.
  ghost predicate IsRoundMove(members: seq<Member>, vms: seq<VmRecord>, hold: seq<VmId>, mv: Move) {
    exists i: nat, k: nat ::
      && CanGo(members, vms, hold, i, k)
      && mv == Move(vms[i].id, members[k].id)
      && IsLeastTaker(members, vms, hold, i, k)
      && forall j: nat, l: nat | CanGo(members, vms, hold, j, l) && j != i :: Precedes(vms, i, j)
  }

  ghost predicate IsLeastTaker(members: seq<Member>, vms: seq<VmRecord>, hold: seq<VmId>, i: nat, k: nat)
    requires k < |members|
  {
    forall l: nat | CanGo(members, vms, hold, i, l) ::
      || Score(members[k], vms) < Score(members[l], vms)
      || (Score(members[k], vms) == Score(members[l], vms) && members[k].id <= members[l].id)
  }

  ghost predicate NobodyCanGo(members: seq<Member>, vms: seq<VmRecord>, hold: seq<VmId>) {
    forall i: nat, k: nat :: !CanGo(members, vms, hold, i, k)
  }

  // ---------- From records to the planner's input ----------

  lemma {:induction false} UsedOfLonger(vms: seq<VmRecord>, last: VmRecord, node: NodeId)
    ensures UsedVcpus(vms + [last], node) == UsedVcpus(vms, node) + UsedVcpus([last], node)
    ensures UsedMemory(vms + [last], node) == UsedMemory(vms, node) + UsedMemory([last], node)
  {
    if vms == [] {
      assert vms + [last] == [last];
    } else {
      assert (vms + [last])[1..] == vms[1..] + [last];
      UsedOfLonger(vms[1..], last, node);
    }
  }

  lemma {:induction false} UsedIs(vms: seq<VmRecord>, node: NodeId)
    ensures UsedVcpus(vms, node) == VcpusOn(vms, node) && UsedMemory(vms, node) == MemoryOn(vms, node)
  {
    if vms != [] {
      var front, last := vms[..|vms| - 1], vms[|vms| - 1];
      UsedIs(front, node);
      assert vms == front + [last];
      UsedOfLonger(front, last, node);
    }
  }

  // The record behind the k-th placed guest.
  ghost function Slot(vms: seq<VmRecord>, k: nat): (i: nat)
    requires k < |PlacedGroups(vms)|
    ensures i < |vms| && IsPlaced(vms[i]) && Placement(vms[i]) == PlacedGroups(vms)[k]
  {
    if !IsPlaced(vms[0]) then 1 + Slot(vms[1..], k)
    else if k == 0 then 0
    else 1 + Slot(vms[1..], k - 1)
  }

  lemma {:induction false} SlotGrows(vms: seq<VmRecord>, k: nat, l: nat)
    requires k < l < |PlacedGroups(vms)|
    ensures Slot(vms, k) < Slot(vms, l)
  {
    hide PlacementGroup;
    if !IsPlaced(vms[0]) {
      SlotGrows(vms[1..], k, l);
    } else if k > 0 {
      SlotGrows(vms[1..], k - 1, l - 1);
    }
  }

  lemma {:induction false} SlotOf(vms: seq<VmRecord>, i: nat) returns (k: nat)
    requires i < |vms| && IsPlaced(vms[i])
    ensures k < |PlacedGroups(vms)| && Slot(vms, k) == i
  {
    hide PlacementGroup;
    if i == 0 {
      k := 0;
    } else {
      k := SlotOf(vms[1..], i - 1);
      if IsPlaced(vms[0]) {
        k := k + 1;
      }
    }
  }

  lemma PlacedIffGrouped(vm: VmRecord)
    ensures IsPlaced(vm) <==> Grouped(vm)
    ensures IsPlaced(vm) ==>
      Placement(vm)
      == PlacedGuest(vm.id, vm.nodeId.value, Trim(vm.spec.group.value), vm.spec.vcpus, vm.spec.memoryMib)
  {
  }

  lemma CrowdedIff(vms: seq<VmRecord>, k: nat)
    requires k < |PlacedGroups(vms)|
    ensures Crowded(PlacedGroups(vms), k) <==> SharesNode(vms, Slot(vms, k))
  {
    var place, i := PlacedGroups(vms), Slot(vms, k);
    PlacedIffGrouped(vms[i]);
    hide PlacedGroups, Slot, IsPlaced, Placement, Grouped;
    if Crowded(place, k) {
      var l :| 0 <= l < |place| && l != k && place[l].node == place[k].node && place[l].group == place[k].group;
      PlacedIffGrouped(vms[Slot(vms, l)]);
      SlotGrows(vms, Min(k, l), Max(k, l));
      assert Mates(vms[i], vms[Slot(vms, l)]);
    }
    if SharesNode(vms, i) {
      var j :| 0 <= j < |vms| && j != i && Mates(vms[i], vms[j]) && vms[i].nodeId == vms[j].nodeId;
      PlacedIffGrouped(vms[j]);
      var l := SlotOf(vms, j);
      assert place[l].node == place[k].node && place[l].group == place[k].group;
    }
  }

  lemma FreeIff(vms: seq<VmRecord>, k: nat, node: NodeId)
    requires k < |PlacedGroups(vms)|
    ensures (forall g <- PlacedGroups(vms) | g.group == PlacedGroups(vms)[k].group :: g.node != node)
       <==> forall other <- vms | Mates(vms[Slot(vms, k)], other) :: other.nodeId != Some(node)
  {
    var place, i := PlacedGroups(vms), Slot(vms, k);
    PlacedIffGrouped(vms[i]);
    hide PlacedGroups, Slot, IsPlaced, Placement, Grouped;
    if g :| g in place && g.group == place[k].group && g.node == node {
      var l :| 0 <= l < |place| && place[l] == g;
      PlacedIffGrouped(vms[Slot(vms, l)]);
      assert Mates(vms[i], vms[Slot(vms, l)]);
    }
    if other :| other in vms && Mates(vms[i], other) && other.nodeId == Some(node) {
      var j :| 0 <= j < |vms| && vms[j] == other;
      PlacedIffGrouped(vms[j]);
      var l := SlotOf(vms, j);
      assert place[l] in place;
    }
  }

  lemma LoadFields(m: Member, vms: seq<VmRecord>)
    ensures var n := LoadOf(m, vms);
      && n.id == m.id && n.online == m.online && n.cpus == m.cpus && n.memoryMib == m.memoryMib
      && n.usedVcpus == VcpusOn(vms, m.id) % U32_LIMIT && n.usedMemoryMib == MemoryOn(vms, m.id) % U32_LIMIT
      && LoadScore(n) == Score(m, vms)
  {
    UsedIs(vms, m.id);
    ScoreIs(LoadOf(m, vms));
    hide LoadScore, CpuPermille, MemoryPermille;
  }

  lemma CanMoveIff(members: seq<Member>, vms: seq<VmRecord>, hold: seq<VmId>, k: nat, l: nat)
    requires k < |PlacedGroups(vms)| && l < |members|
    ensures CanMove(StateOf(members, vms), hold, k, LoadOf(members[l], vms))
       <==> CanGo(members, vms, hold, Slot(vms, k), l)
  {
    var n, vm := LoadOf(members[l], vms), vms[Slot(vms, k)];
    CrowdedIff(vms, k);
    FreeIff(vms, k, n.id);
    LoadFields(members[l], vms);
    FitsIff(n, GuestNeed(PlacedGroups(vms)[k]));
    PlacedIffGrouped(vm);
    LoadsAt(members, vms);
    assert Loads(members, vms)[l] == n;
    assert n in Loads(members, vms);
    hide PlacedGroups, Slot, IsPlaced, Placement, Grouped, Crowded, SharesNode, LoadOf, Loads, Fits, LoadScore, Mates;
    hide VcpusOn, MemoryOn;
  }

  lemma CanGoIsCanMove(members: seq<Member>, vms: seq<VmRecord>, hold: seq<VmId>, i: nat, l: nat) returns (k: nat)
    requires CanGo(members, vms, hold, i, l)
    ensures k < |PlacedGroups(vms)| && Slot(vms, k) == i
    ensures CanMove(StateOf(members, vms), hold, k, LoadOf(members[l], vms))
  {
    PlacedIffGrouped(vms[i]);
    k := SlotOf(vms, i);
    CanMoveIff(members, vms, hold, k, l);
  }

  lemma TriedBeforeMeans(vms: seq<VmRecord>, k: nat, l: nat)
    requires k < |PlacedGroups(vms)| && l < |PlacedGroups(vms)| && TriedBefore(PlacedGroups(vms), k, l)
    ensures Precedes(vms, Slot(vms, k), Slot(vms, l))
  {
    if k < l {
      SlotGrows(vms, k, l);
    }
    hide PlacedGroups, Slot, PlacementGroup;
  }

  lemma LeastKeyMeans(members: seq<Member>, vms: seq<VmRecord>, hold: seq<VmId>, k: nat, l: nat)
    requires k < |PlacedGroups(vms)| && l < |members|
    requires forall m | CanMove(StateOf(members, vms), hold, k, m) ::
               !KeyLess(LoadKey(m), LoadKey(LoadOf(members[l], vms)))
    ensures IsLeastTaker(members, vms, hold, Slot(vms, k), l)
  {
    LoadFields(members[l], vms);
    forall o: nat | CanGo(members, vms, hold, Slot(vms, k), o)
      ensures || Score(members[l], vms) < Score(members[o], vms)
              || (Score(members[l], vms) == Score(members[o], vms) && members[l].id <= members[o].id)
    {
      CanMoveIff(members, vms, hold, k, o);
      LoadFields(members[o], vms);
      assert !KeyLess(LoadKey(LoadOf(members[o], vms)), LoadKey(LoadOf(members[l], vms)));
      hide CanMove, LoadOf, LoadScore, Score;
    }
  }

  lemma FirstMoveMeans(members: seq<Member>, vms: seq<VmRecord>, hold: seq<VmId>, k: nat, l: nat)
    requires l < |members| && IsFirstMove(StateOf(members, vms), hold, k, LoadOf(members[l], vms))
    ensures IsRoundMove(members, vms, hold, Move(PlacedGroups(vms)[k].id, LoadOf(members[l], vms).id))
  {
    var i := Slot(vms, k);
    CanMoveIff(members, vms, hold, k, l);
    LoadFields(members[l], vms);
    LeastKeyMeans(members, vms, hold, k, l);
    assert vms[i].id == PlacedGroups(vms)[k].id;
    hide PlacedGroups, LoadOf, Slot, CanGo, CanMove, IsLeastTaker, Precedes, TriedBefore, KeyLess, LoadKey;
    forall j: nat, o: nat | CanGo(members, vms, hold, j, o) && j != i
      ensures j < |vms| && vms[i].nodeId.Some? && vms[j].nodeId.Some? && Precedes(vms, i, j)
    {
      var h := CanGoIsCanMove(members, vms, hold, j, o);
      TriedBeforeMeans(vms, k, h);
    }
  }

  lemma NoMoveMeans(members: seq<Member>, vms: seq<VmRecord>, hold: seq<VmId>)
    requires PlanOf(StateOf(members, vms), hold) == []
    ensures NobodyCanGo(members, vms, hold)
  {
    PlanEmptyIff(StateOf(members, vms), hold);
    hide PlanOf, CanGo, CanMove, PlacedGroups, LoadOf, Slot;
    forall i: nat, l: nat
      ensures !CanGo(members, vms, hold, i, l)
    {
      if CanGo(members, vms, hold, i, l) {
        var k := CanGoIsCanMove(members, vms, hold, i, l);
      }
    }
  }

  // Each round carries out exactly the rule.
  lemma RoundIs(members: seq<Member>, vms: seq<VmRecord>, hold: seq<VmId>)
    ensures var plan := PlanOf(StateOf(members, vms), hold);
      if plan == [] then NobodyCanGo(members, vms, hold) else IsRoundMove(members, vms, hold, plan[0])
  {
    var s := StateOf(members, vms);
    if PlanOf(s, hold) == [] {
      NoMoveMeans(members, vms, hold);
    } else {
      LoadsAt(members, vms);
      FirstMoveIs(s, hold);
      var k: nat, n :| IsFirstMove(s, hold, k, n) && PlanOf(s, hold)[0] == Move(s.place[k].id, n.id);
      assert n in Loads(members, vms);
      hide PlanOf, IsFirstMove, IsRoundMove, LoadOf, Loads, PlacedGroups;
      var l :| 0 <= l < |members| && LoadOf(members[l], vms) == n;
      FirstMoveMeans(members, vms, hold, k, l);
    }
  }

  // ---------- The pass ----------

  // Every move a pass tries is the rule's, on the members and the store of that round.
  lemma {:induction false} TriedMovesAre(p: Pass, rounds: seq<Round>, t: nat)
    requires t < |Run(p, rounds).tried| - |p.tried|
    ensures t < |rounds|
    ensures var q := Run(p, rounds[..t]);
      IsRoundMove(rounds[t].members, q.vms, q.hold, Run(p, rounds).tried[|p.tried| + t])
    decreases |rounds|
  {
    hide PlanOf, StateOf, IsRoundMove, AfterMigrate;
    RoundIs(rounds[0].members, p.vms, p.hold);
    var next := AfterRound(p, PlanOf(StateOf(rounds[0].members, p.vms), p.hold)[0], rounds[0].fate);
    TriedGrow(next, rounds[1..]);
    if t > 0 {
      TriedMovesAre(next, rounds[1..], t - 1);
      assert rounds[..t][1..] == rounds[1..][..t - 1];
    }
  }

  lemma {:induction false} TriedGrow(p: Pass, rounds: seq<Round>)
    ensures p.tried <= Run(p, rounds).tried && |Run(p, rounds).tried| <= |p.tried| + |rounds|
    decreases |rounds|
  {
    hide PlanOf, StateOf, AfterMigrate;
    if rounds != [] {
      var plan := PlanOf(StateOf(rounds[0].members, p.vms), p.hold);
      if plan != [] {
        TriedGrow(AfterRound(p, plan[0], rounds[0].fate), rounds[1..]);
      }
    }
  }

  // However the migrations end: a pass that the round limit does not cut off ends with no guest, but
  // those held, that shares its node with its group and that some member would take.
  lemma {:induction false} FinishedPassLeavesNobody(p: Pass, rounds: seq<Round>)
    requires |Run(p, rounds).tried| < |p.tried| + |rounds|
    ensures var end := Run(p, rounds);
      var n := |end.tried| - |p.tried|;
      && 0 <= n
      && NobodyCanGo(rounds[n].members, end.vms, end.hold)
      && ((forall r <- rounds :: r.fate.Lands?) ==> end.hold == p.hold)
    decreases |rounds|
  {
    hide PlanOf, StateOf, NobodyCanGo, AfterMigrate;
    var plan := PlanOf(StateOf(rounds[0].members, p.vms), p.hold);
    RoundIs(rounds[0].members, p.vms, p.hold);
    if plan != [] {
      var next := AfterRound(p, plan[0], rounds[0].fate);
      TriedGrow(next, rounds[1..]);
      FinishedPassLeavesNobody(next, rounds[1..]);
      assert rounds[0] in rounds;
    }
  }

  // What a migrate call makes of the moved guest's record.
  ghost predicate IsLeft(was: VmRecord, now: VmRecord, mv: Move, fate: Fate) {
    if was.id != mv.id then now == was
    else
      match fate
      case Lands => now == was.(nodeId := Some(mv.dest))
      case EndsAt(node) => now == was.(nodeId := node)
      case Fails(None) => now == was
      case Fails(Some(left)) => now == was.(nodeId := left.node, state := left.state)
  }

  lemma MigrateLeaves(vms: seq<VmRecord>, mv: Move, fate: Fate)
    ensures forall i | 0 <= i < |vms| :: IsLeft(vms[i], AfterMigrate(vms, mv, fate)[i], mv, fate)
  {
    match fate
    case Fails(None) =>
    case Fails(Some(left)) => LeaveKeepsIds(vms, mv.id, left);
    case _ => SetNodeKeepsIds(vms, mv.id, EndNode(fate, mv.dest));
  }

  // Round t of a pass: what it leaves in the store, and whether the guest counts as moved or is held.
  lemma {:induction false} RoundLeaves(p: Pass, rounds: seq<Round>, t: nat)
    requires t < |Run(p, rounds).tried| - |p.tried|
    ensures t < |rounds|
    ensures var (q, r, end) := (Run(p, rounds[..t]), Run(p, rounds[..t + 1]), Run(p, rounds));
      var (mv, fate) := (end.tried[|p.tried| + t], rounds[t].fate);
      && |r.vms| == |q.vms|
      && (forall i | 0 <= i < |q.vms| :: IsLeft(q.vms[i], r.vms[i], mv, fate))
      && if fate == Lands || fate == EndsAt(Some(mv.dest)) then mv in end.moved else mv.id in end.hold
    decreases |rounds|
  {
    hide PlanOf, StateOf, IsLeft, AfterMigrate;
    var mv := PlanOf(StateOf(rounds[0].members, p.vms), p.hold)[0];
    var next := AfterRound(p, mv, rounds[0].fate);
    PassGrows(next, rounds[1..]);
    TriedGrow(next, rounds[1..]);
    if t > 0 {
      RoundLeaves(next, rounds[1..], t - 1);
      assert rounds[..t][1..] == rounds[1..][..t - 1] && rounds[..t + 1][1..] == rounds[1..][..t];
    } else {
      MigrateLeaves(p.vms, mv, rounds[0].fate);
      assert rounds[..1][1..] == [];
      assert next == Run(p, rounds[..1]);
      var end := Run(p, rounds);
      assert end == Run(next, rounds[1..]);
      assert end.tried[|p.tried|] == next.tried[|p.tried|] == mv;
      if Landed(rounds[0].fate, mv.dest) {
        assert end.moved[|p.moved|] == next.moved[|p.moved|] == mv;
      } else {
        assert end.hold[|p.hold|] == next.hold[|p.hold|] == mv.id;
      }
    }
  }

  lemma {:induction false} PassGrows(p: Pass, rounds: seq<Round>)
    ensures p.moved <= Run(p, rounds).moved && p.hold <= Run(p, rounds).hold
    decreases |rounds|
  {
    hide PlanOf, StateOf, AfterMigrate;
    if rounds != [] {
      var plan := PlanOf(StateOf(rounds[0].members, p.vms), p.hold);
      if plan != [] {
        PassGrows(AfterRound(p, plan[0], rounds[0].fate), rounds[1..]);
      }
    }
  }

  // A guest whose migration ended anywhere but on the planned node is not tried again in that pass.
  lemma UnlandedIsNotRetried(p: Pass, rounds: seq<Round>, t: nat, u: nat)
    requires t < u < |Run(p, rounds).tried| - |p.tried|
    ensures u < |rounds|
    ensures var tried := Run(p, rounds).tried[|p.tried|..];
      tried[u].id == tried[t].id ==>
        rounds[t].fate == Lands || rounds[t].fate == EndsAt(Some(tried[t].dest))
  {
    hide Run;
    TriedMovesAre(p, rounds, u);
    TriedOfPrefix(p, rounds, u);
    RoundLeaves(p, rounds[..u], t);
  }

  lemma {:induction false} TriedOfPrefix(p: Pass, rounds: seq<Round>, u: nat)
    requires u <= |rounds| && u <= |Run(p, rounds).tried| - |p.tried|
    ensures Run(p, rounds[..u]).tried == Run(p, rounds).tried[..|p.tried| + u]
    decreases |rounds|
  {
    hide PlanOf, StateOf, AfterMigrate;
    TriedGrow(p, rounds);
    if u > 0 {
      var next := AfterRound(p, PlanOf(StateOf(rounds[0].members, p.vms), p.hold)[0], rounds[0].fate);
      TriedOfPrefix(next, rounds[1..], u - 1);
      assert rounds[..u][1..] == rounds[1..][..u - 1];
    }
  }
}
