// The rebalance planner (crates/pertisk-daemon/src/cluster.rs).
module Rebalance {
  import opened Prelude
  import opened Ids
  import opened Scheduler

  datatype PlacedGuest = PlacedGuest(id: VmId, node: NodeId, group: string, vcpus: u32, memoryMib: u32)

  datatype Move = Move(id: VmId, dest: NodeId)

  function GuestNeed(g: PlacedGuest): Need {
    Need(g.vcpus, g.memoryMib)
  }

  // ---------- One round ----------

  predicate Crowded(place: seq<PlacedGuest>, i: nat)
    requires i < |place|
  {
    exists j | 0 <= j < |place| ::
      j != i && place[j].node == place[i].node && place[j].group == place[i].group
  }

  // The nodes that already hold this group.
  function Occupied(place: seq<PlacedGuest>, group: string): seq<NodeId> {
    if place == [] then []
    else (if place[0].group == group then [place[0].node] else []) + Occupied(place[1..], group)
  }

  lemma {:induction false} OccupiedMembers(place: seq<PlacedGuest>, group: string, id: NodeId)
    ensures id in Occupied(place, group) <==> exists g <- place :: g.group == group && g.node == id
  {
    if place != [] {
      OccupiedMembers(place[1..], group, id);
      assert place == [place[0]] + place[1..];
    }
  }

  // Where guest i could go: another node, without its group, that fits it.
  function Targets(place: seq<PlacedGuest>, nodes: seq<NodeLoad>, i: nat): seq<NodeLoad>
    requires i < |place|
  {
    Fitting(Outside(nodes, [place[i].node] + Occupied(place, place[i].group)), GuestNeed(place[i]))
  }

  function Destination(place: seq<PlacedGuest>, nodes: seq<NodeLoad>, i: nat): Option<NodeId>
    requires i < |place|
  {
    LeastLoaded(Targets(place, nodes, i))
  }

  predicate Movable(place: seq<PlacedGuest>, nodes: seq<NodeLoad>, hold: seq<VmId>, i: nat)
    requires i < |place|
  {
    place[i].id !in hold && Crowded(place, i) && Destination(place, nodes, i).Some?
  }

  // Guests are tried by (node, id); the sort is stable, so ties keep their position.
  predicate TriedBefore(place: seq<PlacedGuest>, i: nat, j: nat)
    requires i < |place| && j < |place|
  {
    || place[i].node < place[j].node
    || (place[i].node == place[j].node
        && (VmLess(place[i].id, place[j].id) || (place[i].id == place[j].id && i < j)))
  }

  ghost predicate InOrder(place: seq<PlacedGuest>, order: seq<nat>) {
    && (forall a | 0 <= a < |order| :: order[a] < |place|)
    && forall a, b | 0 <= a < b < |order| :: TriedBefore(place, order[a], order[b])
  }

  // The first guest in trying order among those flagged.
  function FirstTried(place: seq<PlacedGuest>, can: seq<bool>): (r: Option<nat>)
    requires |can| <= |place|
    ensures r.Some? ==> r.value < |can| && can[r.value]
  {
    if can == [] then None
    else
      var k := |can| - 1;
      var r := FirstTried(place, can[..k]);
      if !can[k] then r
      else if r.Some? && TriedBefore(place, r.value, k) then r
      else Some(k)
  }

  lemma {:induction false} FirstTriedIsFirst(place: seq<PlacedGuest>, can: seq<bool>)
    requires |can| <= |place|
    ensures var r := FirstTried(place, can);
      match r
      case None => forall j | 0 <= j < |can| :: !can[j]
      case Some(i) => forall j | 0 <= j < |can| && j != i && can[j] :: TriedBefore(place, i, j)
  {
    if can != [] {
      FirstTriedIsFirst(place, can[..|can| - 1]);
    }
  }

  function MovableFlags(place: seq<PlacedGuest>, nodes: seq<NodeLoad>, hold: seq<VmId>): (r: seq<bool>)
    ensures |r| == |place|
  {
    seq(|place|, i requires 0 <= i < |place| => Movable(place, nodes, hold, i))
  }

  // The guest the round moves: of the movable ones, the first to be tried.
  function Next(place: seq<PlacedGuest>, nodes: seq<NodeLoad>, hold: seq<VmId>): (r: Option<nat>)
    ensures r.Some? ==> r.value < |place| && Movable(place, nodes, hold, r.value)
  {
    FirstTried(place, MovableFlags(place, nodes, hold))
  }

  // The first entry with this id gives up, or takes on, a guest's load.
  function Release(nodes: seq<NodeLoad>, id: NodeId, need: Need): (r: seq<NodeLoad>)
    ensures |r| == |nodes|
  {
    if nodes == [] then []
    else if nodes[0].id == id then
      [nodes[0].(usedVcpus := SaturatingSub(nodes[0].usedVcpus, need.vcpus),
                 usedMemoryMib := SaturatingSub(nodes[0].usedMemoryMib, need.memoryMib))] + nodes[1..]
    else [nodes[0]] + Release(nodes[1..], id, need)
  }

  function Charge(nodes: seq<NodeLoad>, id: NodeId, need: Need): (r: seq<NodeLoad>)
    ensures |r| == |nodes|
  {
    if nodes == [] then []
    else if nodes[0].id == id then
      [nodes[0].(usedVcpus := SaturatingAdd(nodes[0].usedVcpus, need.vcpus),
                 usedMemoryMib := SaturatingAdd(nodes[0].usedMemoryMib, need.memoryMib))] + nodes[1..]
    else [nodes[0]] + Charge(nodes[1..], id, need)
  }

  function Relocate(place: seq<PlacedGuest>, i: nat, dest: NodeId): seq<PlacedGuest>
    requires i < |place|
  {
    place[i := place[i].(node := dest)]
  }

  function Recharge(nodes: seq<NodeLoad>, g: PlacedGuest, dest: NodeId): seq<NodeLoad> {
    Charge(Release(nodes, g.node, GuestNeed(g)), dest, GuestNeed(g))
  }

  // ---------- The measure: occupied (group, node) cells ----------

  ghost function Cells(place: seq<PlacedGuest>): set<(string, NodeId)> {
    set g <- place :: (g.group, g.node)
  }

  lemma {:induction false} CellsAtMostGuests(place: seq<PlacedGuest>)
    ensures |Cells(place)| <= |place|
  {
    if place != [] {
      var rest := place[1..];
      CellsAtMostGuests(rest);
      assert place == [place[0]] + rest;
      assert Cells(place) == Cells(rest) + {(place[0].group, place[0].node)};
    }
  }

  lemma TargetsAre(place: seq<PlacedGuest>, nodes: seq<NodeLoad>, i: nat, n: NodeLoad)
    requires i < |place|
    ensures n in Targets(place, nodes, i) <==>
      && n in nodes
      && n.id != place[i].node
      && (forall g <- place | g.group == place[i].group :: g.node != n.id)
      && Fits(n, GuestNeed(place[i]))
  {
    var barred := [place[i].node] + Occupied(place, place[i].group);
    OccupiedMembers(place, place[i].group, n.id);
    OutsideMembers(nodes, barred);
    FittingMembers(Outside(nodes, barred), GuestNeed(place[i]));
    assert n.id in barred <==> n.id == place[i].node || n.id in Occupied(place, place[i].group);
  }

  lemma DestinationIsFree(place: seq<PlacedGuest>, nodes: seq<NodeLoad>, i: nat)
    requires i < |place| && Destination(place, nodes, i).Some?
    ensures var dest := Destination(place, nodes, i).value;
      && dest != place[i].node
      && (forall g <- place | g.group == place[i].group :: g.node != dest)
      && exists n <- nodes :: n.id == dest && Fits(n, GuestNeed(place[i]))
  {
    var targets := Targets(place, nodes, i);
    KeysAt(targets);
    LeastKeyIsLeast(Keys(targets));
    var k :| 0 <= k < |targets| && Keys(targets)[k] == LeastKey(Keys(targets)).value;
    assert targets[k] in targets;
    TargetsAre(place, nodes, i, targets[k]);
  }

  // A move fills a cell that was empty and leaves every other cell occupied.
  lemma MoveFillsOneCell(place: seq<PlacedGuest>, nodes: seq<NodeLoad>, hold: seq<VmId>, i: nat)
    requires i < |place| && Movable(place, nodes, hold, i)
    ensures var dest := Destination(place, nodes, i).value;
      && (place[i].group, dest) !in Cells(place)
      && Cells(Relocate(place, i, dest)) == Cells(place) + {(place[i].group, dest)}
  {
    var dest := Destination(place, nodes, i).value;
    var after := Relocate(place, i, dest);
    DestinationIsFree(place, nodes, i);
    var j :| 0 <= j < |place| && j != i && place[j].node == place[i].node && place[j].group == place[i].group;
    forall c <- Cells(place)
      ensures c in Cells(after)
    {
      var k :| 0 <= k < |place| && (place[k].group, place[k].node) == c;
      var k' := if k == i then j else k;
      assert after[k'] == place[k'] && after[k'] in after;
    }
    assert after[i] in after;
    forall c <- Cells(after)
      ensures c in Cells(place) + {(place[i].group, dest)}
    {
      var k :| 0 <= k < |after| && (after[k].group, after[k].node) == c;
      if k != i {
        assert place[k] in place;
      }
    }
  }

  lemma MoveShrinksMeasure(place: seq<PlacedGuest>, nodes: seq<NodeLoad>, hold: seq<VmId>, i: nat)
    requires i < |place| && Movable(place, nodes, hold, i)
    ensures var after := Relocate(place, i, Destination(place, nodes, i).value);
      |after| - |Cells(after)| == |place| - |Cells(place)| - 1 >= 0
  {
    MoveFillsOneCell(place, nodes, hold, i);
    CellsAtMostGuests(Relocate(place, i, Destination(place, nodes, i).value));
  }

  // ---------- The plan ----------

  ghost function Slack(place: seq<PlacedGuest>): nat {
    CellsAtMostGuests(place);
    |place| - |Cells(place)|
  }

  // The moves in the order they should run.
  ghost function Plan(place: seq<PlacedGuest>, nodes: seq<NodeLoad>, hold: seq<VmId>): seq<Move>
    decreases Slack(place)
  {
    match Next(place, nodes, hold)
    case None => []
    case Some(i) =>
      MoveShrinksMeasure(place, nodes, hold, i);
      var dest := Destination(place, nodes, i).value;
      [Move(place[i].id, dest)] + Plan(Relocate(place, i, dest), Recharge(nodes, place[i], dest), hold)
  }

  lemma AppendKeepsOrder(place: seq<PlacedGuest>, front: seq<nat>, rest: seq<nat>, last: nat, i: nat)
    requires last < |place| && i < |place| && TriedBefore(place, i, last)
    requires InOrder(place, front + [last]) && InOrder(place, rest)
    requires forall j :: j in rest <==> j in front || j == i
    ensures InOrder(place, rest + [last])
  {
    forall a | 0 <= a < |rest|
      ensures TriedBefore(place, rest[a], last)
    {
      assert rest[a] in rest;
      if rest[a] != i {
        var b :| 0 <= b < |front| && front[b] == rest[a];
        assert (front + [last])[b] == rest[a] && (front + [last])[|front|] == last;
      }
    }
  }

  function SortedInsert(place: seq<PlacedGuest>, order: seq<nat>, i: nat): (r: seq<nat>)
    requires i < |place| && InOrder(place, order)
    requires forall a | 0 <= a < |order| :: order[a] < i
    ensures InOrder(place, r)
    ensures forall j :: j in r <==> j in order || j == i
    decreases |order|
  {
    if order == [] then [i]
    else
      var front, last := order[..|order| - 1], order[|order| - 1];
      assert order == front + [last];
      if TriedBefore(place, last, i) then order + [i]
      else
        var rest := SortedInsert(place, front, i);
        AppendKeepsOrder(place, front, rest, last, i);
        rest + [last]
  }

  method CrowdedInOrder(place: seq<PlacedGuest>, hold: seq<VmId>) returns (order: seq<nat>)
    ensures InOrder(place, order)
    ensures forall i | 0 <= i < |place| :: i in order <==> place[i].id !in hold && Crowded(place, i)
  {
    order := [];
    for i := 0 to |place|
      invariant InOrder(place, order)
      invariant forall j <- order :: j < i
      invariant forall j | 0 <= j < i :: j in order <==> place[j].id !in hold && Crowded(place, j)
    {
      if place[i].id !in hold && Crowded(place, i) {
        assert forall a | 0 <= a < |order| :: order[a] in order;
        order := SortedInsert(place, order, i);
      }
    }
  }

  lemma FirstTriedIsUnique(place: seq<PlacedGuest>, can: seq<bool>, i: nat)
    requires |can| == |place| && i < |can| && can[i]
    requires forall j | 0 <= j < |can| && can[j] && j != i :: TriedBefore(place, i, j)
    ensures FirstTried(place, can) == Some(i)
  {
    FirstTriedIsFirst(place, can);
  }

  lemma FirstOfSorted(place: seq<PlacedGuest>, can: seq<bool>, order: seq<nat>, k: nat)
    requires InOrder(place, order) && k <= |order| && |can| == |place|
    requires forall i | 0 <= i < |can| && can[i] :: i in order[k..]
    requires k < |order| ==> can[order[k]]
    ensures FirstTried(place, can) == if k < |order| then Some(order[k]) else None
  {
    if k < |order| {
      forall i | 0 <= i < |can| && can[i] && i != order[k]
        ensures TriedBefore(place, order[k], i)
      {
        var a :| 0 <= a < |order[k..]| && order[k..][a] == i;
        assert order[k + a] == i;
      }
      FirstTriedIsUnique(place, can, order[k]);
    }
  }

  // One round: sort the crowded guests and take the first that has somewhere to go.
  method FirstMovable(place: seq<PlacedGuest>, nodes: seq<NodeLoad>, hold: seq<VmId>) returns (r: Option<nat>)
    ensures r == Next(place, nodes, hold)
  {
    var order := CrowdedInOrder(place, hold);
    ghost var can := MovableFlags(place, nodes, hold);
    var k := 0;
    while k < |order| && Destination(place, nodes, order[k]).None?
      invariant 0 <= k <= |order|
      invariant forall i | 0 <= i < |can| && can[i] :: i in order[k..]
    {
      assert order[k..] == [order[k]] + order[k + 1..];
      k := k + 1;
    }
    assert k < |order| ==> order[k] in order;
    FirstOfSorted(place, can, order, k);
    r := if k < |order| then Some(order[k]) else None;
  }

  ghost predicate IsNextMove(place: seq<PlacedGuest>, nodes: seq<NodeLoad>, hold: seq<VmId>, i: nat, dest: NodeId) {
    Next(place, nodes, hold) == Some(i) && Destination(place, nodes, i) == Some(dest)
  }

  lemma PlanStep(place: seq<PlacedGuest>, nodes: seq<NodeLoad>, hold: seq<VmId>, i: nat, dest: NodeId)
    requires IsNextMove(place, nodes, hold, i, dest)
    ensures i < |place|
    ensures Plan(place, nodes, hold)
         == [Move(place[i].id, dest)] + Plan(Relocate(place, i, dest), Recharge(nodes, place[i], dest), hold)
    ensures Slack(Relocate(place, i, dest)) < Slack(place)
  {
    MoveShrinksMeasure(place, nodes, hold, i);
  }

  method NextMove(place: seq<PlacedGuest>, nodes: seq<NodeLoad>, hold: seq<VmId>)
    returns (r: Option<(nat, NodeId)>)
    ensures r.None? ==> Plan(place, nodes, hold) == []
    ensures r.Some? ==> IsNextMove(place, nodes, hold, r.value.0, r.value.1)
  {
    var next := FirstMovable(place, nodes, hold);
    if next.None? {
      return None;
    }
    return Some((next.value, Destination(place, nodes, next.value).value));
  }

  lemma PlanContinues(place: seq<PlacedGuest>, nodes: seq<NodeLoad>, hold: seq<VmId>, i: nat, dest: NodeId,
                      done: seq<Move>, all: seq<Move>)
    requires IsNextMove(place, nodes, hold, i, dest)
    requires done + Plan(place, nodes, hold) == all
    ensures i < |place|
    ensures (done + [Move(place[i].id, dest)])
            + Plan(Relocate(place, i, dest), Recharge(nodes, place[i], dest), hold) == all
    ensures Slack(Relocate(place, i, dest)) < Slack(place)
  {
    PlanStep(place, nodes, hold, i, dest);
  }

  // rebalance_plan: rounds until no crowded guest can move.
  method RebalancePlan(guests: seq<PlacedGuest>, loads: seq<NodeLoad>, hold: seq<VmId>)
    returns (moves: seq<Move>)
    ensures moves == Plan(guests, loads, hold)
  {
    var nodes, place := loads, guests;
    moves := [];
    ghost var all := Plan(guests, loads, hold);
    while true
      invariant moves + Plan(place, nodes, hold) == all
      decreases Slack(place)
    {
      var next := NextMove(place, nodes, hold);
      if next.None? {
        return;
      }
      var (i, dest) := next.value;
      PlanContinues(place, nodes, hold, i, dest, moves, all);
      var guest := place[i];
      nodes := Release(nodes, guest.node, GuestNeed(guest));
      nodes := Charge(nodes, dest, GuestNeed(guest));
      place := place[i := guest.(node := dest)];
      moves := moves + [Move(guest.id, dest)];
    }
  }
}
