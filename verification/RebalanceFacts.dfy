// What a rebalance plan guarantees, over every intermediate state of the planner.
module RebalanceFacts {
  import opened Prelude
  import opened Ids
  import opened Scheduler
  import opened Rebalance

  datatype PlanState = PlanState(place: seq<PlacedGuest>, nodes: seq<NodeLoad>)

  ghost predicate HasNext(s: PlanState, hold: seq<VmId>) {
    Next(s.place, s.nodes, hold).Some?
  }

  // The planner's state after one more move.
  ghost function Step(s: PlanState, hold: seq<VmId>): PlanState
    requires HasNext(s, hold)
  {
    var i := Next(s.place, s.nodes, hold).value;
    var dest := Destination(s.place, s.nodes, i).value;
    PlanState(Relocate(s.place, i, dest), Recharge(s.nodes, s.place[i], dest))
  }

  // The planner's state after k moves (or at the end, when the plan is shorter).
  ghost function StateAfter(s: PlanState, hold: seq<VmId>, k: nat): PlanState
    decreases k
  {
    if k == 0 || !HasNext(s, hold) then s else StateAfter(Step(s, hold), hold, k - 1)
  }

  ghost function PlanOf(s: PlanState, hold: seq<VmId>): seq<Move> {
    Plan(s.place, s.nodes, hold)
  }

  ghost function Final(s: PlanState, hold: seq<VmId>): PlanState {
    StateAfter(s, hold, |PlanOf(s, hold)|)
  }

  lemma PlanUnfolds(s: PlanState, hold: seq<VmId>)
    ensures !HasNext(s, hold) ==> PlanOf(s, hold) == []
    ensures HasNext(s, hold) ==>
      var i := Next(s.place, s.nodes, hold).value;
      var dest := Destination(s.place, s.nodes, i).value;
      PlanOf(s, hold) == [Move(s.place[i].id, dest)] + PlanOf(Step(s, hold), hold)
    ensures HasNext(s, hold) ==> Slack(Step(s, hold).place) < Slack(s.place)
  {
    if HasNext(s, hold) {
      var i := Next(s.place, s.nodes, hold).value;
      PlanStep(s.place, s.nodes, hold, i, Destination(s.place, s.nodes, i).value);
    }
  }

  // Replanning equals planning: from the state after k moves the planner returns the rest of the plan.
  lemma {:induction false} ReplanIsRest(s: PlanState, hold: seq<VmId>, k: nat)
    requires k <= |PlanOf(s, hold)|
    ensures PlanOf(StateAfter(s, hold, k), hold) == PlanOf(s, hold)[k..]
    decreases k
  {
    hide HasNext, Step, PlanOf;
    if k > 0 {
      PlanUnfolds(s, hold);
      ReplanIsRest(Step(s, hold), hold, k - 1);
    }
  }

  // Each move occupies exactly one more cell, so the plan is as long as the cells it adds.
  lemma {:induction false} PlanFillsCells(s: PlanState, hold: seq<VmId>)
    ensures |PlanOf(s, hold)| == |Cells(Final(s, hold).place)| - |Cells(s.place)|
    ensures |PlanOf(s, hold)| <= |s.place| - |Cells(s.place)|
    ensures |Final(s, hold).place| == |s.place|
    decreases Slack(s.place)
  {
    hide Next, Destination;
    PlanUnfolds(s, hold);
    CellsAtMostGuests(s.place);
    if HasNext(s, hold) {
      var i := Next(s.place, s.nodes, hold).value;
      MoveFillsOneCell(s.place, s.nodes, hold, i);
      PlanFillsCells(Step(s, hold), hold);
    }
  }

  // ---------- Who moves ----------

  ghost predicate DistinctGuests(place: seq<PlacedGuest>) {
    forall i, j | 0 <= i < j < |place| :: place[i].id != place[j].id
  }

  lemma {:induction false} HeldGuestsStay(s: PlanState, hold: seq<VmId>)
    ensures forall m <- PlanOf(s, hold) :: m.id !in hold
    decreases Slack(s.place)
  {
    hide Next, Destination;
    PlanUnfolds(s, hold);
    if HasNext(s, hold) {
      HeldGuestsStay(Step(s, hold), hold);
    }
  }

  // A guest alone in its cell stays alone: nobody is sent to a node that holds its group.
  lemma AloneStaysAlone(s: PlanState, hold: seq<VmId>, a: nat)
    requires a < |s.place| && !Crowded(s.place, a) && HasNext(s, hold)
    ensures Next(s.place, s.nodes, hold).value != a
    ensures Step(s, hold).place[a] == s.place[a] && !Crowded(Step(s, hold).place, a)
  {
    var i := Next(s.place, s.nodes, hold).value;
    DestinationIsFree(s.place, s.nodes, i);
    var after := Step(s, hold).place;
    forall j | 0 <= j < |after| && j != a
      ensures !(after[j].node == after[a].node && after[j].group == after[a].group)
    {
      assert s.place[a] in s.place;
    }
  }

  lemma MovedGuestIsAlone(s: PlanState, hold: seq<VmId>)
    requires HasNext(s, hold)
    ensures !Crowded(Step(s, hold).place, Next(s.place, s.nodes, hold).value)
  {
    var i := Next(s.place, s.nodes, hold).value;
    DestinationIsFree(s.place, s.nodes, i);
    var after := Step(s, hold).place;
    forall j | 0 <= j < |after| && j != i
      ensures !(after[j].node == after[i].node && after[j].group == after[i].group)
    {
      assert s.place[j] in s.place;
    }
  }

  lemma StepKeepsIds(s: PlanState, hold: seq<VmId>)
    requires HasNext(s, hold)
    ensures |Step(s, hold).place| == |s.place|
    ensures forall j | 0 <= j < |s.place| :: Step(s, hold).place[j].id == s.place[j].id
  {
  }

  lemma {:induction false} AloneNeverMoves(s: PlanState, hold: seq<VmId>, a: nat)
    requires a < |s.place| && DistinctGuests(s.place) && !Crowded(s.place, a)
    ensures forall m <- PlanOf(s, hold) :: m.id != s.place[a].id
    decreases Slack(s.place)
  {
    hide Next, Destination;
    PlanUnfolds(s, hold);
    if HasNext(s, hold) {
      AloneStaysAlone(s, hold, a);
      StepKeepsIds(s, hold);
      AloneNeverMoves(Step(s, hold), hold, a);
    }
  }

  lemma {:induction false} NoGuestMovesTwice(s: PlanState, hold: seq<VmId>)
    requires DistinctGuests(s.place)
    ensures forall a, b | 0 <= a < b < |PlanOf(s, hold)| :: PlanOf(s, hold)[a].id != PlanOf(s, hold)[b].id
    decreases Slack(s.place)
  {
    hide Next, Destination;
    PlanUnfolds(s, hold);
    if HasNext(s, hold) {
      var rest := PlanOf(Step(s, hold), hold);
      MovedGuestIsAlone(s, hold);
      StepKeepsIds(s, hold);
      AloneNeverMoves(Step(s, hold), hold, Next(s.place, s.nodes, hold).value);
      NoGuestMovesTwice(Step(s, hold), hold);
      forall a, b | 0 <= a < b < |PlanOf(s, hold)|
        ensures PlanOf(s, hold)[a].id != PlanOf(s, hold)[b].id
      {
        assert rest[b - 1] in rest;
      }
    }
  }

  // ---------- Where they go ----------

  // An un-held guest sharing a cell, and a node it could take: another node, online, without its
  // group, with room.
  ghost predicate CanMove(s: PlanState, hold: seq<VmId>, i: nat, n: NodeLoad)
    requires i < |s.place|
  {
    && s.place[i].id !in hold
    && Crowded(s.place, i)
    && n in s.nodes
    && n.id != s.place[i].node
    && (forall g <- s.place | g.group == s.place[i].group :: g.node != n.id)
    && Fits(n, GuestNeed(s.place[i]))
  }

  lemma MovableIff(s: PlanState, hold: seq<VmId>, i: nat)
    requires i < |s.place|
    ensures Movable(s.place, s.nodes, hold, i) <==> exists n :: CanMove(s, hold, i, n)
  {
    var targets := Targets(s.place, s.nodes, i);
    KeysAt(targets);
    LeastKeyIsLeast(Keys(targets));
    if targets != [] {
      TargetsAre(s.place, s.nodes, i, targets[0]);
      assert targets[0] in targets;
      assert Movable(s.place, s.nodes, hold, i) ==> CanMove(s, hold, i, targets[0]);
    }
    if n :| CanMove(s, hold, i, n) {
      TargetsAre(s.place, s.nodes, i, n);
    }
  }

  // The planner stops exactly when no un-held crowded guest has anywhere to go.
  lemma PlanEmptyIff(s: PlanState, hold: seq<VmId>)
    ensures PlanOf(s, hold) == [] <==> forall i, n | 0 <= i < |s.place| :: !CanMove(s, hold, i, n)
  {
    var flags := MovableFlags(s.place, s.nodes, hold);
    PlanUnfolds(s, hold);
    FirstTriedIsFirst(s.place, flags);
    hide Destination, CanMove;
    forall i | 0 <= i < |s.place|
      ensures flags[i] <==> exists n :: CanMove(s, hold, i, n)
    {
      MovableIff(s, hold, i);
    }
    if HasNext(s, hold) {
      var i := Next(s.place, s.nodes, hold).value;
      assert flags[i];
      var n :| CanMove(s, hold, i, n);
    } else {
      forall i, n | 0 <= i < |s.place|
        ensures !CanMove(s, hold, i, n)
      {
        assert !flags[i];
      }
    }
  }

  // At the end of every plan nothing more can move.
  lemma PlanReachesFixpoint(s: PlanState, hold: seq<VmId>)
    ensures forall i, n | 0 <= i < |Final(s, hold).place| :: !CanMove(Final(s, hold), hold, i, n)
  {
    hide Next, Destination;
    ReplanIsRest(s, hold, |PlanOf(s, hold)|);
    PlanEmptyIff(Final(s, hold), hold);
  }

  // Among the nodes it could take, a guest goes to the one with the least (score, id).
  lemma DestinationIsLeastLoaded(s: PlanState, hold: seq<VmId>, i: nat)
    requires i < |s.place| && s.place[i].id !in hold && Crowded(s.place, i)
    ensures match Destination(s.place, s.nodes, i)
      case None => forall n :: !CanMove(s, hold, i, n)
      case Some(dest) =>
        exists n ::
          && CanMove(s, hold, i, n)
          && n.id == dest
          && forall m | CanMove(s, hold, i, m) :: !KeyLess(LoadKey(m), LoadKey(n))
  {
    var targets := Targets(s.place, s.nodes, i);
    forall n
      ensures n in targets <==> CanMove(s, hold, i, n)
    {
      TargetsAre(s.place, s.nodes, i, n);
    }
    KeysAt(targets);
    LeastKeyIsLeast(Keys(targets));
    if targets != [] {
      var best := LeastKey(Keys(targets)).value;
      var k :| 0 <= k < |targets| && Keys(targets)[k] == best;
      assert CanMove(s, hold, i, targets[k]);
      forall m | CanMove(s, hold, i, m)
        ensures !KeyLess(LoadKey(m), LoadKey(targets[k]))
      {
        var j :| 0 <= j < |targets| && targets[j] == m;
        assert Keys(targets)[j] in Keys(targets);
      }
    }
  }

  // The first guest by (node, id, position) among those that can move, and the node with the least
  // (score, id) among those it could take.
  ghost predicate IsFirstMove(s: PlanState, hold: seq<VmId>, i: nat, n: NodeLoad) {
    && i < |s.place|
    && CanMove(s, hold, i, n)
    && (forall m | CanMove(s, hold, i, m) :: !KeyLess(LoadKey(m), LoadKey(n)))
    && forall j: nat, m | j < |s.place| && j != i && CanMove(s, hold, j, m) :: TriedBefore(s.place, i, j)
  }

  lemma FirstMoveIs(s: PlanState, hold: seq<VmId>)
    requires PlanOf(s, hold) != []
    ensures exists i: nat, n | IsFirstMove(s, hold, i, n) :: PlanOf(s, hold)[0] == Move(s.place[i].id, n.id)
  {
    var flags := MovableFlags(s.place, s.nodes, hold);
    PlanUnfolds(s, hold);
    FirstTriedIsFirst(s.place, flags);
    var i := Next(s.place, s.nodes, hold).value;
    DestinationIsLeastLoaded(s, hold, i);
    hide Destination, CanMove;
    forall j: nat, m | j < |s.place| && j != i && CanMove(s, hold, j, m)
      ensures TriedBefore(s.place, i, j)
    {
      MovableIff(s, hold, j);
      assert flags[j];
    }
    var n :| CanMove(s, hold, i, n) && n.id == PlanOf(s, hold)[0].dest
             && forall m | CanMove(s, hold, i, m) :: !KeyLess(LoadKey(m), LoadKey(n));
    assert IsFirstMove(s, hold, i, n);
  }

  // ---------- The loads ----------

  ghost predicate DistinctNodes(nodes: seq<NodeLoad>) {
    forall a, b | 0 <= a < b < |nodes| :: nodes[a].id != nodes[b].id
  }

  function Lighter(n: NodeLoad, need: Need): NodeLoad {
    n.(usedVcpus := SaturatingSub(n.usedVcpus, need.vcpus),
       usedMemoryMib := SaturatingSub(n.usedMemoryMib, need.memoryMib))
  }

  function Heavier(n: NodeLoad, need: Need): NodeLoad {
    n.(usedVcpus := SaturatingAdd(n.usedVcpus, need.vcpus),
       usedMemoryMib := SaturatingAdd(n.usedMemoryMib, need.memoryMib))
  }

  lemma {:induction false} ReleaseAt(nodes: seq<NodeLoad>, id: NodeId, need: Need)
    requires DistinctNodes(nodes)
    ensures forall j | 0 <= j < |nodes| ::
      Release(nodes, id, need)[j] == if nodes[j].id == id then Lighter(nodes[j], need) else nodes[j]
  {
    if nodes != [] {
      ReleaseAt(nodes[1..], id, need);
    }
  }

  lemma {:induction false} ChargeAt(nodes: seq<NodeLoad>, id: NodeId, need: Need)
    requires DistinctNodes(nodes)
    ensures forall j | 0 <= j < |nodes| ::
      Charge(nodes, id, need)[j] == if nodes[j].id == id then Heavier(nodes[j], need) else nodes[j]
  {
    if nodes != [] {
      ChargeAt(nodes[1..], id, need);
    }
  }

  // One move touches the two nodes it concerns and nothing else, and never saturates upwards.
  ghost predicate MoveLoads(nodes: seq<NodeLoad>, after: seq<NodeLoad>, g: PlacedGuest, k: nat) {
    && k < |nodes| == |after|
    && nodes[k].id != g.node
    && Fits(nodes[k], GuestNeed(g))
    && after[k] == nodes[k].(usedVcpus := nodes[k].usedVcpus + g.vcpus,
                             usedMemoryMib := nodes[k].usedMemoryMib + g.memoryMib)
    && forall j | 0 <= j < |nodes| && j != k ::
      after[j] == if nodes[j].id == g.node then Lighter(nodes[j], GuestNeed(g)) else nodes[j]
  }

  lemma RechargeMoves(nodes: seq<NodeLoad>, g: PlacedGuest, dest: NodeId, k: nat)
    requires DistinctNodes(nodes) && g.node != dest
    requires k < |nodes| && nodes[k].id == dest && Fits(nodes[k], GuestNeed(g))
    ensures MoveLoads(nodes, Recharge(nodes, g, dest), g, k)
  {
    var released := Release(nodes, g.node, GuestNeed(g));
    ReleaseAt(nodes, g.node, GuestNeed(g));
    assert forall j | 0 <= j < |nodes| :: released[j].id == nodes[j].id;
    ChargeAt(released, dest, GuestNeed(g));
  }

  // The step's move, and the entry of the node it goes to.
  lemma StepMove(s: PlanState, hold: seq<VmId>) returns (i: nat, k: nat)
    requires HasNext(s, hold)
    ensures i < |s.place| && k < |s.nodes|
    ensures s.nodes[k].id != s.place[i].node
    ensures Step(s, hold).place == Relocate(s.place, i, s.nodes[k].id)
    ensures DistinctNodes(s.nodes) ==> MoveLoads(s.nodes, Step(s, hold).nodes, s.place[i], k)
  {
    i := Next(s.place, s.nodes, hold).value;
    var dest := Destination(s.place, s.nodes, i).value;
    DestinationIsFree(s.place, s.nodes, i);
    hide Next, Destination;
    k :| 0 <= k < |s.nodes| && s.nodes[k].id == dest && Fits(s.nodes[k], GuestNeed(s.place[i]));
    if DistinctNodes(s.nodes) {
      RechargeMoves(s.nodes, s.place[i], dest, k);
    }
  }

  ghost predicate WithinBounds(nodes: seq<NodeLoad>, later: seq<NodeLoad>) {
    && |later| == |nodes|
    && forall j | 0 <= j < |nodes| ::
      && later[j].id == nodes[j].id
      && CpuCapacity(later[j]) == CpuCapacity(nodes[j])
      && GuestMemoryBudget(later[j].memoryMib) == GuestMemoryBudget(nodes[j].memoryMib)
      && later[j].usedVcpus <= Max(nodes[j].usedVcpus, CpuCapacity(nodes[j]))
      && later[j].usedMemoryMib <= Max(nodes[j].usedMemoryMib, GuestMemoryBudget(nodes[j].memoryMib))
  }

  // At every point of a plan no node is above both where it started and its capacity.
  lemma {:induction false} LoadsStayBounded(s: PlanState, hold: seq<VmId>, k: nat)
    requires DistinctNodes(s.nodes)
    ensures WithinBounds(s.nodes, StateAfter(s, hold, k).nodes)
    decreases k
  {
    hide HasNext, Step;
    if k > 0 && HasNext(s, hold) {
      var i, c := StepMove(s, hold);
      assert WithinBounds(s.nodes, Step(s, hold).nodes);
      LoadsStayBounded(Step(s, hold), hold, k - 1);
    }
  }

  datatype Amount = Amount(vcpus: int, memoryMib: int)

  ghost function Total(nodes: seq<NodeLoad>): Amount {
    if nodes == [] then Amount(0, 0)
    else
      var rest := Total(nodes[1..]);
      Amount(nodes[0].usedVcpus + rest.vcpus, nodes[0].usedMemoryMib + rest.memoryMib)
  }

  // What the listed guests need on one node.
  ghost function Demand(place: seq<PlacedGuest>, id: NodeId): Amount {
    if place == [] then Amount(0, 0)
    else
      var rest := Demand(place[1..], id);
      if place[0].node == id then Amount(place[0].vcpus + rest.vcpus, place[0].memoryMib + rest.memoryMib)
      else rest
  }

  ghost predicate Covers(s: PlanState) {
    && DistinctNodes(s.nodes)
    && (forall g <- s.place :: exists j | 0 <= j < |s.nodes| :: s.nodes[j].id == g.node)
    && forall j | 0 <= j < |s.nodes| ::
      && s.nodes[j].usedVcpus >= Demand(s.place, s.nodes[j].id).vcpus
      && s.nodes[j].usedMemoryMib >= Demand(s.place, s.nodes[j].id).memoryMib
  }

  lemma {:induction false} DemandAfterMove(place: seq<PlacedGuest>, i: nat, dest: NodeId, id: NodeId)
    requires i < |place| && place[i].node != dest
    ensures var g := place[i];
      var was := Demand(place, id);
      Demand(Relocate(place, i, dest), id)
      == (if id == dest then Amount(was.vcpus + g.vcpus, was.memoryMib + g.memoryMib)
          else if id == g.node then Amount(was.vcpus - g.vcpus, was.memoryMib - g.memoryMib)
          else was)
    ensures Demand(place, id).vcpus >= 0 && Demand(place, id).memoryMib >= 0
    ensures id == place[i].node ==>
      Demand(place, id).vcpus >= place[i].vcpus && Demand(place, id).memoryMib >= place[i].memoryMib
  {
    DemandIsNatural(place[1..], id);
    if i > 0 {
      DemandAfterMove(place[1..], i - 1, dest, id);
      assert Relocate(place, i, dest)[1..] == Relocate(place[1..], i - 1, dest);
    } else {
      assert Relocate(place, 0, dest)[1..] == place[1..];
    }
  }

  lemma {:induction false} DemandIsNatural(place: seq<PlacedGuest>, id: NodeId)
    ensures Demand(place, id).vcpus >= 0 && Demand(place, id).memoryMib >= 0
  {
    if place != [] {
      DemandIsNatural(place[1..], id);
    }
  }

  lemma {:induction false} TotalAfterChange(nodes: seq<NodeLoad>, after: seq<NodeLoad>, j: nat)
    requires j < |nodes| == |after|
    requires forall k | 0 <= k < |nodes| && k != j :: after[k] == nodes[k]
    ensures Total(after).vcpus - Total(nodes).vcpus == after[j].usedVcpus - nodes[j].usedVcpus
    ensures Total(after).memoryMib - Total(nodes).memoryMib == after[j].usedMemoryMib - nodes[j].usedMemoryMib
  {
    if j > 0 {
      TotalAfterChange(nodes[1..], after[1..], j - 1);
    } else {
      assert nodes[1..] == after[1..];
    }
  }

  lemma MoveKeepsCover(s: PlanState, t: PlanState, i: nat, k: nat)
    requires Covers(s) && i < |s.place| && k < |s.nodes|
    requires t.place == Relocate(s.place, i, s.nodes[k].id)
    requires MoveLoads(s.nodes, t.nodes, s.place[i], k)
    ensures Covers(t)
  {
    hide Fits;
    var dest := s.nodes[k].id;
    forall j | 0 <= j < |s.nodes|
      ensures t.nodes[j].id == s.nodes[j].id
      ensures t.nodes[j].usedVcpus >= Demand(t.place, t.nodes[j].id).vcpus
      ensures t.nodes[j].usedMemoryMib >= Demand(t.place, t.nodes[j].id).memoryMib
    {
      DemandAfterMove(s.place, i, dest, s.nodes[j].id);
    }
    forall p <- t.place
      ensures exists j | 0 <= j < |t.nodes| :: t.nodes[j].id == p.node
    {
      if p.node == dest {
        assert t.nodes[k].id == p.node;
      } else {
        assert p in s.place;
        var j :| 0 <= j < |s.nodes| && s.nodes[j].id == p.node;
        assert t.nodes[j].id == p.node;
      }
    }
  }

  lemma MoveKeepsTotal(s: PlanState, t: PlanState, i: nat, k: nat)
    requires Covers(s) && i < |s.place| && k < |s.nodes|
    requires MoveLoads(s.nodes, t.nodes, s.place[i], k)
    ensures Total(t.nodes) == Total(s.nodes)
  {
    hide Fits;
    var g := s.place[i];
    assert g in s.place;
    var a :| 0 <= a < |s.nodes| && s.nodes[a].id == g.node;
    DemandAfterMove(s.place, i, s.nodes[k].id, g.node);
    var half := s.nodes[a := t.nodes[a]];
    TotalAfterChange(s.nodes, half, a);
    TotalAfterChange(half, t.nodes, k);
  }

  lemma StepKeepsTotal(s: PlanState, hold: seq<VmId>)
    requires Covers(s) && HasNext(s, hold)
    ensures Covers(Step(s, hold)) && Total(Step(s, hold).nodes) == Total(s.nodes)
  {
    hide HasNext, Step, MoveLoads;
    var i, k := StepMove(s, hold);
    MoveKeepsCover(s, Step(s, hold), i, k);
    MoveKeepsTotal(s, Step(s, hold), i, k);
  }

  // Nothing is lost or invented on the way: at every point the totals are the initial ones.
  lemma {:induction false} TotalsAreConserved(s: PlanState, hold: seq<VmId>, k: nat)
    requires Covers(s)
    ensures Total(StateAfter(s, hold, k).nodes) == Total(s.nodes)
    decreases k
  {
    hide HasNext, Step, Covers, Total;
    if k > 0 && HasNext(s, hold) {
      StepKeepsTotal(s, hold);
      TotalsAreConserved(Step(s, hold), hold, k - 1);
    }
  }
}
