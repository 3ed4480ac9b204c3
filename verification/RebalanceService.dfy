// The service's rebalance pass: plan, migrate the first move, plan again
// (crates/pertisk-daemon/src/service.rs).
module RebalanceService {
  import opened Prelude
  import opened Ids
  import opened Scheduler
  import opened Guests
  import opened Rebalance
  import opened RebalanceFacts

  datatype Member = Member(id: NodeId, online: bool, cpus: u32, memoryMib: u32)

  // ---------- The planner's inputs, read from the store ----------

  predicate IsPlaced(vm: VmRecord) {
    !vm.template && vm.state == Running && vm.nodeId.Some? && PlacementGroup(vm.spec.group).Some?
  }

  function Placement(vm: VmRecord): PlacedGuest
    requires IsPlaced(vm)
  {
    PlacedGuest(vm.id, vm.nodeId.value, PlacementGroup(vm.spec.group).value, vm.spec.vcpus, vm.spec.memoryMib)
  }

  function PlacedGroups(vms: seq<VmRecord>): seq<PlacedGuest> {
    if vms == [] then []
    else (if IsPlaced(vms[0]) then [Placement(vms[0])] else []) + PlacedGroups(vms[1..])
  }

  predicate RunsOn(vm: VmRecord, node: NodeId) {
    vm.state == Running && vm.nodeId == Some(node)
  }

  function UsedVcpus(vms: seq<VmRecord>, node: NodeId): nat {
    if vms == [] then 0
    else (if RunsOn(vms[0], node) then vms[0].spec.vcpus else 0) + UsedVcpus(vms[1..], node)
  }

  function UsedMemory(vms: seq<VmRecord>, node: NodeId): nat {
    if vms == [] then 0
    else (if RunsOn(vms[0], node) then vms[0].spec.memoryMib else 0) + UsedMemory(vms[1..], node)
  }

  // The u32 sums wrap in a release build.
  function LoadOf(m: Member, vms: seq<VmRecord>): NodeLoad {
    NodeLoad(m.id, m.online, m.cpus, m.memoryMib,
             UsedVcpus(vms, m.id) % U32_LIMIT, UsedMemory(vms, m.id) % U32_LIMIT)
  }

  function Loads(members: seq<Member>, vms: seq<VmRecord>): (r: seq<NodeLoad>)
    ensures |r| == |members|
  {
    seq(|members|, i requires 0 <= i < |members| => LoadOf(members[i], vms))
  }

  ghost predicate DistinctVms(vms: seq<VmRecord>) {
    forall i, j | 0 <= i < j < |vms| :: vms[i].id != vms[j].id
  }

  ghost predicate DistinctMembers(members: seq<Member>) {
    forall i, j | 0 <= i < j < |members| :: members[i].id != members[j].id
  }

  ghost predicate LoadsExact(members: seq<Member>, vms: seq<VmRecord>) {
    forall m <- members :: UsedVcpus(vms, m.id) < U32_LIMIT && UsedMemory(vms, m.id) < U32_LIMIT
  }

  // ---------- One migration ----------

  // How a migrate call ended: on the planned node, on some other node, or with an error, which may
  // come after it has rewritten where the guest is and its state.
  datatype Fate = Lands | EndsAt(node: Option<NodeId>) | Fails(left: Option<Left>)

  datatype Left = Left(node: Option<NodeId>, state: VmState)

  function EndNode(fate: Fate, dest: NodeId): Option<NodeId>
    requires !fate.Fails?
  {
    match fate
    case Lands => Some(dest)
    case EndsAt(node) => node
  }

  function SetNode(vms: seq<VmRecord>, id: VmId, node: Option<NodeId>): (r: seq<VmRecord>)
    ensures |r| == |vms|
  {
    if vms == [] then []
    else [if vms[0].id == id then vms[0].(nodeId := node) else vms[0]] + SetNode(vms[1..], id, node)
  }

  function Leave(vms: seq<VmRecord>, id: VmId, left: Left): (r: seq<VmRecord>)
    ensures |r| == |vms|
  {
    if vms == [] then []
    else
      [if vms[0].id == id then vms[0].(nodeId := left.node, state := left.state) else vms[0]]
      + Leave(vms[1..], id, left)
  }

  function AfterMigrate(vms: seq<VmRecord>, mv: Move, fate: Fate): (r: seq<VmRecord>)
    ensures |r| == |vms|
  {
    match fate
    case Fails(None) => vms
    case Fails(Some(left)) => Leave(vms, mv.id, left)
    case _ => SetNode(vms, mv.id, EndNode(fate, mv.dest))
  }

  predicate Landed(fate: Fate, dest: NodeId) {
    !fate.Fails? && EndNode(fate, dest) == Some(dest)
  }

  lemma {:induction false} SetNodeElsewhere(vms: seq<VmRecord>, id: VmId, node: Option<NodeId>)
    requires forall vm <- vms :: vm.id != id
    ensures SetNode(vms, id, node) == vms
  {
    if vms != [] {
      SetNodeElsewhere(vms[1..], id, node);
    }
  }

  lemma {:induction false} PlacedGroupsFrom(vms: seq<VmRecord>)
    ensures forall g <- PlacedGroups(vms) :: exists vm <- vms :: IsPlaced(vm) && Placement(vm) == g
  {
    if vms != [] {
      PlacedGroupsFrom(vms[1..]);
    }
  }

  lemma {:induction false} PlacedGroupsDistinct(vms: seq<VmRecord>)
    requires DistinctVms(vms)
    ensures DistinctGuests(PlacedGroups(vms))
  {
    if vms != [] {
      PlacedGroupsDistinct(vms[1..]);
      PlacedGroupsFrom(vms[1..]);
      assert forall j | 0 <= j < |PlacedGroups(vms[1..])| :: PlacedGroups(vms[1..])[j] in PlacedGroups(vms[1..]);
    }
  }

  // Rewriting one record's node is the planner's own relocation.
  lemma {:induction false} PlacedGroupsAfterMove(vms: seq<VmRecord>, i: nat, dest: NodeId)
    requires DistinctVms(vms) && i < |PlacedGroups(vms)|
    ensures PlacedGroups(SetNode(vms, PlacedGroups(vms)[i].id, Some(dest))) == Relocate(PlacedGroups(vms), i, dest)
  {
    hide PlacementGroup;
    var rest := vms[1..];
    var id := PlacedGroups(vms)[i].id;
    PlacedGroupsFrom(rest);
    if IsPlaced(vms[0]) && i == 0 {
      SetNodeElsewhere(rest, id, Some(dest));
    } else {
      var k := if IsPlaced(vms[0]) then i - 1 else i;
      assert PlacedGroups(vms)[i] == PlacedGroups(rest)[k];
      assert PlacedGroups(rest)[k] in PlacedGroups(rest);
      PlacedGroupsAfterMove(rest, k, dest);
    }
  }

  // ... and it moves exactly that guest's load from its node to the other.
  lemma {:induction false} UsedAfterMove(vms: seq<VmRecord>, i: nat, dest: NodeId, node: NodeId)
    requires DistinctVms(vms) && i < |PlacedGroups(vms)| && PlacedGroups(vms)[i].node != dest
    ensures var g := PlacedGroups(vms)[i];
      var after := SetNode(vms, g.id, Some(dest));
      && UsedVcpus(after, node) == UsedVcpus(vms, node)
         + (if node == dest then g.vcpus else 0) - (if node == g.node then g.vcpus else 0)
      && UsedMemory(after, node) == UsedMemory(vms, node)
         + (if node == dest then g.memoryMib else 0) - (if node == g.node then g.memoryMib else 0)
      && (node == g.node ==> UsedVcpus(vms, node) >= g.vcpus && UsedMemory(vms, node) >= g.memoryMib)
  {
    hide PlacementGroup;
    var rest := vms[1..];
    var id := PlacedGroups(vms)[i].id;
    PlacedGroupsFrom(rest);
    if IsPlaced(vms[0]) && i == 0 {
      SetNodeElsewhere(rest, id, Some(dest));
    } else {
      var k := if IsPlaced(vms[0]) then i - 1 else i;
      assert PlacedGroups(vms)[i] == PlacedGroups(rest)[k];
      assert PlacedGroups(rest)[k] in PlacedGroups(rest);
      UsedAfterMove(rest, k, dest, node);
    }
  }

  ghost function StateOf(members: seq<Member>, vms: seq<VmRecord>): PlanState {
    PlanState(PlacedGroups(vms), Loads(members, vms))
  }

  lemma FittingAddsExactly(n: NodeLoad, need: Need)
    requires Fits(n, need)
    ensures n.usedVcpus + need.vcpus < U32_LIMIT && n.usedMemoryMib + need.memoryMib < U32_LIMIT
  {
  }

  lemma LoadIsMember(m: Member, vms: seq<VmRecord>)
    ensures LoadOf(m, vms).id == m.id
    ensures UsedVcpus(vms, m.id) < U32_LIMIT ==> LoadOf(m, vms).usedVcpus == UsedVcpus(vms, m.id)
    ensures UsedMemory(vms, m.id) < U32_LIMIT ==> LoadOf(m, vms).usedMemoryMib == UsedMemory(vms, m.id)
  {
  }

  lemma LoadsAt(members: seq<Member>, vms: seq<VmRecord>)
    ensures forall j | 0 <= j < |members| :: Loads(members, vms)[j] == LoadOf(members[j], vms)
    ensures DistinctMembers(members) ==> DistinctNodes(Loads(members, vms))
  {
  }

  lemma LoadAfterMove(vms: seq<VmRecord>, i: nat, dest: NodeId, m: Member)
    requires DistinctVms(vms) && i < |PlacedGroups(vms)| && PlacedGroups(vms)[i].node != dest
    requires UsedVcpus(vms, m.id) < U32_LIMIT && UsedMemory(vms, m.id) < U32_LIMIT
    requires m.id == dest ==> Fits(LoadOf(m, vms), GuestNeed(PlacedGroups(vms)[i]))
    ensures var g := PlacedGroups(vms)[i];
      var after := SetNode(vms, g.id, Some(dest));
      && UsedVcpus(after, m.id) < U32_LIMIT && UsedMemory(after, m.id) < U32_LIMIT
      && LoadOf(m, after)
         == (if m.id == g.node then Lighter(LoadOf(m, vms), GuestNeed(g))
             else if m.id == dest then
               LoadOf(m, vms).(usedVcpus := UsedVcpus(vms, m.id) + g.vcpus,
                               usedMemoryMib := UsedMemory(vms, m.id) + g.memoryMib)
             else LoadOf(m, vms))
  {
    hide Fits, PlacedGroups, SetNode, UsedVcpus, UsedMemory, DistinctVms;
    var g := PlacedGroups(vms)[i];
    UsedAfterMove(vms, i, dest, m.id);
    if m.id == dest {
      FittingAddsExactly(LoadOf(m, vms), GuestNeed(g));
    }
  }

  lemma LoadsAfterMove(members: seq<Member>, vms: seq<VmRecord>, i: nat, k: nat)
    requires DistinctVms(vms) && DistinctMembers(members) && LoadsExact(members, vms)
    requires i < |PlacedGroups(vms)| && k < |members| && members[k].id != PlacedGroups(vms)[i].node
    requires Fits(LoadOf(members[k], vms), GuestNeed(PlacedGroups(vms)[i]))
    ensures var after := SetNode(vms, PlacedGroups(vms)[i].id, Some(members[k].id));
      && LoadsExact(members, after)
      && Loads(members, after) == Recharge(Loads(members, vms), PlacedGroups(vms)[i], members[k].id)
  {
    var g, dest := PlacedGroups(vms)[i], members[k].id;
    var after := SetNode(vms, g.id, Some(dest));
    var loads := Loads(members, vms);
    hide Fits, PlacedGroups, SetNode, Recharge, LoadOf, UsedVcpus, UsedMemory, DistinctVms;
    LoadsAt(members, vms);
    LoadsAt(members, after);
    RechargeMoves(loads, g, dest, k);
    forall j | 0 <= j < |members|
      ensures LoadOf(members[j], after) == Recharge(loads, g, dest)[j]
      ensures UsedVcpus(after, members[j].id) < U32_LIMIT && UsedMemory(after, members[j].id) < U32_LIMIT
    {
      assert members[j] in members;
      LoadIsMember(members[j], vms);
      LoadAfterMove(vms, i, dest, members[j]);
    }
  }

  // After a migration lands, reading the store again gives the planner's own next state.
  lemma ReplanReadsNextState(members: seq<Member>, vms: seq<VmRecord>, hold: seq<VmId>)
    requires DistinctVms(vms) && DistinctMembers(members) && LoadsExact(members, vms)
    requires HasNext(StateOf(members, vms), hold)
    ensures PlanOf(StateOf(members, vms), hold) != []
    ensures var mv := PlanOf(StateOf(members, vms), hold)[0];
      var after := SetNode(vms, mv.id, Some(mv.dest));
      && StateOf(members, after) == Step(StateOf(members, vms), hold)
      && LoadsExact(members, after)
  {
    var s := StateOf(members, vms);
    PlanUnfolds(s, hold);
    var i := Next(s.place, s.nodes, hold).value;
    var dest := Destination(s.place, s.nodes, i).value;
    DestinationIsFree(s.place, s.nodes, i);
    hide Next, Destination;
    var k :| 0 <= k < |s.nodes| && s.nodes[k].id == dest && Fits(s.nodes[k], GuestNeed(s.place[i]));
    assert s.nodes[k] == LoadOf(members[k], vms);
    PlacedGroupsAfterMove(vms, i, dest);
    LoadsAfterMove(members, vms, i, k);
  }

  lemma {:induction false} SetNodeKeepsIds(vms: seq<VmRecord>, id: VmId, node: Option<NodeId>)
    ensures forall i | 0 <= i < |vms| ::
      SetNode(vms, id, node)[i] == if vms[i].id == id then vms[i].(nodeId := node) else vms[i]
  {
    if vms != [] {
      SetNodeKeepsIds(vms[1..], id, node);
    }
  }

  lemma {:induction false} LeaveKeepsIds(vms: seq<VmRecord>, id: VmId, left: Left)
    ensures forall i | 0 <= i < |vms| ::
      Leave(vms, id, left)[i]
      == if vms[i].id == id then vms[i].(nodeId := left.node, state := left.state) else vms[i]
  {
    if vms != [] {
      LeaveKeepsIds(vms[1..], id, left);
    }
  }

  lemma MigrateTouchesOne(vms: seq<VmRecord>, mv: Move, fate: Fate)
    ensures forall i | 0 <= i < |vms| ::
      var now := AfterMigrate(vms, mv, fate)[i];
      now == vms[i].(nodeId := now.nodeId, state := now.state) && (vms[i].id != mv.id ==> now == vms[i])
  {
    match fate
    case Fails(None) =>
    case Fails(Some(left)) => LeaveKeepsIds(vms, mv.id, left);
    case _ => SetNodeKeepsIds(vms, mv.id, EndNode(fate, mv.dest));
  }

  // ---------- The pass ----------

  datatype Pass = Pass(vms: seq<VmRecord>, tried: seq<Move>, moved: seq<Move>, hold: seq<VmId>)

  // What a round meets: the members as it reads them, and how its migrate call ends.
  datatype Round = Round(members: seq<Member>, fate: Fate)

  // What the pass does, round by round.
  ghost function Run(p: Pass, rounds: seq<Round>): Pass
    decreases |rounds|
  {
    if rounds == [] then p
    else
      var plan := PlanOf(StateOf(rounds[0].members, p.vms), p.hold);
      if plan == [] then p
      else Run(AfterRound(p, plan[0], rounds[0].fate), rounds[1..])
  }

  function AfterRound(p: Pass, mv: Move, fate: Fate): Pass {
    var vms := AfterMigrate(p.vms, mv, fate);
    if Landed(fate, mv.dest) then Pass(vms, p.tried + [mv], p.moved + [mv], p.hold)
    else Pass(vms, p.tried + [mv], p.moved, p.hold + [mv.id])
  }

  class Service {
    var vms: seq<VmRecord>

    constructor (vms: seq<VmRecord>)
      ensures this.vms == vms
    {
      this.vms := vms;
    }

    // One migrate call; `fate` is what the hypervisors and the network made of it.
    method Migrate(mv: Move, fate: Fate) returns (ended: Result<Option<NodeId>, ()>)
      modifies this
      ensures vms == AfterMigrate(old(vms), mv, fate)
      ensures ended == if fate.Fails? then Err(()) else Ok(EndNode(fate, mv.dest))
    {
      vms := AfterMigrate(vms, mv, fate);
      if fate.Fails? {
        return Err(());
      }
      return Ok(EndNode(fate, mv.dest));
    }

    // rebalance: up to 64 rounds of plan, migrate the first move, replan.
    method RebalanceGuests(rounds: seq<Round>) returns (moved: seq<Move>, hold: seq<VmId>, ghost tried: seq<Move>)
      requires |rounds| == 64
      modifies this
      ensures Pass(vms, tried, moved, hold) == Run(Pass(old(vms), [], [], []), rounds)
    {
      hold, moved, tried := [], [], [];
      ghost var end := Run(Pass(vms, [], [], []), rounds);
      for n := 0 to 64
        invariant Run(Pass(vms, tried, moved, hold), rounds[n..]) == end
      {
        hide PlanOf, AfterMigrate;
        var places := PlacedGroups(vms);
        var loads := Loads(rounds[n].members, vms);
        var plan := RebalancePlan(places, loads, hold);
        assert plan == PlanOf(StateOf(rounds[n].members, vms), hold) by {
          PlanOfIsPlan(StateOf(rounds[n].members, vms), hold);
        }
        assert rounds[n..][0] == rounds[n] && rounds[n..][1..] == rounds[n + 1..];
        if plan == [] {
          return;
        }
        var mv := plan[0];
        var ended := Migrate(mv, rounds[n].fate);
        tried := tried + [mv];
        if ended == Ok(Some(mv.dest)) {
          moved := moved + [mv];
        } else {
          hold := hold + [mv.id];
        }
      }
    }
  }

  lemma PlanOfIsPlan(s: PlanState, hold: seq<VmId>)
    ensures PlanOf(s, hold) == Plan(s.place, s.nodes, hold)
  {
  }

  lemma {:induction false} SetNodeKeepsDistinct(vms: seq<VmRecord>, id: VmId, node: Option<NodeId>)
    requires DistinctVms(vms)
    ensures DistinctVms(SetNode(vms, id, node))
  {
    SetNodeKeepsIds(vms, id, node);
  }

  // While every migration lands and the members stay as they are, the pass carries out the one-shot
  // plan, up to its 64 rounds, and the store it leaves is the planner's state after those moves.
  lemma {:induction false} LandingPassFollowsPlan(members: seq<Member>, p: Pass, rounds: seq<Round>)
    requires DistinctVms(p.vms) && DistinctMembers(members) && LoadsExact(members, p.vms)
    requires forall r <- rounds :: r.fate.Lands? && r.members == members
    ensures var plan := PlanOf(StateOf(members, p.vms), p.hold);
      var n := Min(|rounds|, |plan|);
      var end := Run(p, rounds);
      && end.moved == p.moved + plan[..n]
      && end.tried == p.tried + plan[..n]
      && end.hold == p.hold
      && StateOf(members, end.vms) == StateAfter(StateOf(members, p.vms), p.hold, n)
    decreases |rounds|
  {
    hide HasNext, Step, PlanOf, StateOf, SetNode;
    var s := StateOf(members, p.vms);
    var plan := PlanOf(s, p.hold);
    PlanUnfolds(s, p.hold);
    if rounds != [] && plan != [] {
      assert rounds[0].fate.Lands? && rounds[0].members == members;
      ReplanReadsNextState(members, p.vms, p.hold);
      SetNodeKeepsDistinct(p.vms, plan[0].id, Some(plan[0].dest));
      var next := AfterRound(p, plan[0], rounds[0].fate);
      LandingPassFollowsPlan(members, next, rounds[1..]);
      assert Run(p, rounds) == Run(next, rounds[1..]);
      hide Run, AfterMigrate, DistinctVms, DistinctMembers, LoadsExact;
      var rest := PlanOf(StateOf(members, next.vms), p.hold);
      assert plan == [plan[0]] + rest;
      var n := Min(|rounds| - 1, |rest|);
      OneMoreMove(p.moved, plan[0], rest, n);
      OneMoreMove(p.tried, plan[0], rest, n);
    }
  }

  lemma OneMoreMove(done: seq<Move>, mv: Move, rest: seq<Move>, n: nat)
    requires n <= |rest|
    ensures done + [mv] + rest[..n] == done + ([mv] + rest)[..n + 1]
  {
    assert ([mv] + rest)[..n + 1] == [mv] + rest[..n];
  }

  // A pass that lands every migration and is not cut off by the round limit leaves nothing to move.
  lemma LandingPassSpreadsGroups(members: seq<Member>, vms: seq<VmRecord>, rounds: seq<Round>)
    requires DistinctVms(vms) && DistinctMembers(members) && LoadsExact(members, vms)
    requires forall r <- rounds :: r.fate.Lands? && r.members == members
    requires |PlanOf(StateOf(members, vms), [])| <= |rounds|
    ensures var end := Run(Pass(vms, [], [], []), rounds);
      PlanOf(StateOf(members, end.vms), []) == []
  {
    hide StateOf, PlanOf, StateAfter, Run;
    var s := StateOf(members, vms);
    LandingPassFollowsPlan(members, Pass(vms, [], [], []), rounds);
    ReplanIsRest(s, [], |PlanOf(s, [])|);
  }

  // A landed round, whatever the members were: the planner's move is made in the store.
  lemma LandedRoundMoves(p: Pass, members: seq<Member>) returns (i: nat)
    requires DistinctVms(p.vms) && PlanOf(StateOf(members, p.vms), p.hold) != []
    ensures var s := StateOf(members, p.vms);
      var next := AfterRound(p, PlanOf(s, p.hold)[0], Lands);
      && HasNext(s, p.hold) && i == Next(s.place, s.nodes, p.hold).value
      && PlanOf(s, p.hold)[0].id == s.place[i].id
      && PlacedGroups(next.vms) == Step(s, p.hold).place && DistinctVms(next.vms)
      && |next.moved| == |p.moved| + 1
  {
    var s := StateOf(members, p.vms);
    PlanUnfolds(s, p.hold);
    i := Next(s.place, s.nodes, p.hold).value;
    hide Next, Destination, PlanOf;
    var dest := Destination(s.place, s.nodes, i).value;
    PlacedGroupsAfterMove(p.vms, i, dest);
    SetNodeKeepsDistinct(p.vms, s.place[i].id, Some(dest));
  }

  // However the members' state changes between rounds: each landing round occupies one more cell, so
  // a landing pass makes at most as many moves as there are guests above occupied cells.
  lemma {:induction false} LandingPassFillsCells(p: Pass, rounds: seq<Round>)
    requires DistinctVms(p.vms) && forall r <- rounds :: r.fate.Lands?
    ensures var end := Run(p, rounds);
      && |PlacedGroups(end.vms)| == |PlacedGroups(p.vms)|
      && |end.moved| - |p.moved| == |Cells(PlacedGroups(end.vms))| - |Cells(PlacedGroups(p.vms))|
      && |end.moved| - |p.moved| <= |PlacedGroups(p.vms)| - |Cells(PlacedGroups(p.vms))|
    decreases |rounds|
  {
    CellsAtMostGuests(PlacedGroups(p.vms));
    if rounds != [] && PlanOf(StateOf(rounds[0].members, p.vms), p.hold) != [] {
      hide PlanOf, Cells, PlacedGroups, DistinctVms, AfterMigrate, Next, Destination;
      var s := StateOf(rounds[0].members, p.vms);
      var mv := PlanOf(s, p.hold)[0];
      assert rounds[0].fate == Lands;
      var i := LandedRoundMoves(p, rounds[0].members);
      MoveFillsOneCell(s.place, s.nodes, p.hold, i);
      var next := AfterRound(p, mv, Lands);
      LandingPassFillsCells(next, rounds[1..]);
      CellsAtMostGuests(PlacedGroups(Run(p, rounds).vms));
    }
  }

  lemma AloneAfterRound(p: Pass, members: seq<Member>, a: nat)
    requires DistinctVms(p.vms) && PlanOf(StateOf(members, p.vms), p.hold) != []
    requires a < |PlacedGroups(p.vms)| && !Crowded(PlacedGroups(p.vms), a)
    ensures var mv := PlanOf(StateOf(members, p.vms), p.hold)[0];
      var next := AfterRound(p, mv, Lands);
      && DistinctVms(next.vms)
      && a < |PlacedGroups(next.vms)| && !Crowded(PlacedGroups(next.vms), a)
      && PlacedGroups(next.vms)[a].id == PlacedGroups(p.vms)[a].id != mv.id
  {
    var s := StateOf(members, p.vms);
    PlacedGroupsDistinct(p.vms);
    var i := LandedRoundMoves(p, members);
    AloneStaysAlone(s, p.hold, a);
    StepKeepsIds(s, p.hold);
    assert i < a || a < i;
  }

  // ... and a guest alone in its cell is never moved: so a guest that has moved stays where it is.
  lemma {:induction false} LandingPassLeavesAloneAlone(p: Pass, rounds: seq<Round>, a: nat)
    requires DistinctVms(p.vms) && forall r <- rounds :: r.fate.Lands?
    requires a < |PlacedGroups(p.vms)| && !Crowded(PlacedGroups(p.vms), a)
    ensures var end := Run(p, rounds);
      && p.tried <= end.tried
      && forall t | |p.tried| <= t < |end.tried| :: end.tried[t].id != PlacedGroups(p.vms)[a].id
    decreases |rounds|
  {
    hide PlanOf, StateOf, PlacedGroups, DistinctVms, AfterMigrate, Crowded;
    if rounds != [] && PlanOf(StateOf(rounds[0].members, p.vms), p.hold) != [] {
      var mv := PlanOf(StateOf(rounds[0].members, p.vms), p.hold)[0];
      assert rounds[0].fate == Lands;
      AloneAfterRound(p, rounds[0].members, a);
      var next := AfterRound(p, mv, Lands);
      LandingPassLeavesAloneAlone(next, rounds[1..], a);
      var end := Run(p, rounds);
      assert end == Run(next, rounds[1..]);
      assert end.tried[|p.tried|] == next.tried[|p.tried|] == mv;
    }
  }

  ghost predicate NoRepeats(ids: seq<VmId>) {
    forall i, j | 0 <= i < j < |ids| :: ids[i] != ids[j]
  }

  // However the migrations end: a guest whose migration did not land is never tried again, and no
  // record but a tried guest's changes, in nothing but node and state.
  lemma {:induction false} HeldGuestsAreNotRetried(p: Pass, rounds: seq<Round>)
    requires NoRepeats(p.hold)
    ensures var end := Run(p, rounds);
      && p.tried <= end.tried && p.hold <= end.hold
      && NoRepeats(end.hold)
      && (forall a | |p.tried| <= a < |end.tried| :: end.tried[a].id !in p.hold)
      && |end.vms| == |p.vms|
      && (forall i | 0 <= i < |p.vms| ::
           end.vms[i] == p.vms[i] || exists a | |p.tried| <= a < |end.tried| :: end.tried[a].id == p.vms[i].id)
      && forall i | 0 <= i < |p.vms| ::
           end.vms[i] == p.vms[i].(nodeId := end.vms[i].nodeId, state := end.vms[i].state)
    decreases |rounds|
  {
    hide PlanOf, StateOf, AfterMigrate;
    if rounds != [] && PlanOf(StateOf(rounds[0].members, p.vms), p.hold) != [] {
      var plan := PlanOf(StateOf(rounds[0].members, p.vms), p.hold);
      var mv := plan[0];
      HeldGuestsStay(StateOf(rounds[0].members, p.vms), p.hold);
      assert mv in plan;
      var next := AfterRound(p, mv, rounds[0].fate);
      MigrateTouchesOne(p.vms, mv, rounds[0].fate);
      HeldGuestsAreNotRetried(next, rounds[1..]);
      var end := Run(p, rounds);
      assert end.tried[|p.tried|] == mv;
    }
  }

  // ---------- The planner's input covers its guests ----------

  lemma {:induction false} DemandIsUsed(vms: seq<VmRecord>, node: NodeId)
    ensures Demand(PlacedGroups(vms), node).vcpus <= UsedVcpus(vms, node)
    ensures Demand(PlacedGroups(vms), node).memoryMib <= UsedMemory(vms, node)
  {
    hide PlacementGroup;
    if vms != [] {
      var rest := PlacedGroups(vms[1..]);
      DemandIsUsed(vms[1..], node);
      if IsPlaced(vms[0]) {
        assert PlacedGroups(vms)[1..] == rest;
      } else {
        assert PlacedGroups(vms) == rest;
      }
    }
  }

  // What the service reads from its store meets the condition under which the totals are conserved.
  lemma ServiceInputCovers(members: seq<Member>, vms: seq<VmRecord>)
    requires DistinctMembers(members) && LoadsExact(members, vms)
    requires forall g <- PlacedGroups(vms) :: exists m <- members :: m.id == g.node
    ensures Covers(StateOf(members, vms))
  {
    hide PlacedGroups, UsedVcpus, UsedMemory, LoadOf, Demand;
    LoadsAt(members, vms);
    forall j | 0 <= j < |members|
      ensures Loads(members, vms)[j].id == members[j].id
      ensures Loads(members, vms)[j].usedVcpus >= Demand(PlacedGroups(vms), members[j].id).vcpus
      ensures Loads(members, vms)[j].usedMemoryMib >= Demand(PlacedGroups(vms), members[j].id).memoryMib
    {
      assert members[j] in members;
      LoadIsMember(members[j], vms);
      DemandIsUsed(vms, members[j].id);
    }
  }

  // So a rebalance pass that starts there moves load, and neither loses nor invents any.
  lemma PassConservesTotals(members: seq<Member>, vms: seq<VmRecord>, hold: seq<VmId>, k: nat)
    requires DistinctMembers(members) && LoadsExact(members, vms)
    requires forall g <- PlacedGroups(vms) :: exists m <- members :: m.id == g.node
    ensures Total(StateAfter(StateOf(members, vms), hold, k).nodes) == Total(Loads(members, vms))
  {
    hide Covers, Total, StateAfter;
    ServiceInputCovers(members, vms);
    TotalsAreConserved(StateOf(members, vms), hold, k);
  }
}
