// Placement: which node takes a guest (crates/pertisk-daemon/src/cluster.rs).
module Scheduler {
  import opened Prelude

  // Node ids are 128-bit UUIDs, totally ordered.
  type NodeId = nat

  datatype NodeLoad = NodeLoad(
    id: NodeId,
    online: bool,
    cpus: u32,
    memoryMib: u32,
    usedVcpus: u32,
    usedMemoryMib: u32)

  // What a guest asks of a node.
  datatype Need = Need(vcpus: u32, memoryMib: u32)

  const CPU_OVERCOMMIT: u32 := 8

  function CpuCapacity(n: NodeLoad): u32 {
    Max(SaturatingMul(n.cpus, CPU_OVERCOMMIT), n.cpus)
  }

  function HostMemoryReserve(hostMib: u32): u32 {
    Min(Max(hostMib / 20, 64), 1536)
  }

  function GuestMemoryBudget(hostMib: u32): u32 {
    SaturatingSub(hostMib, HostMemoryReserve(hostMib))
  }

  predicate Fits(n: NodeLoad, need: Need) {
    && n.online
    && SaturatingSub(CpuCapacity(n), n.usedVcpus) >= need.vcpus
    && SaturatingSub(GuestMemoryBudget(n.memoryMib), n.usedMemoryMib) >= need.memoryMib
  }

  // The start gate's own check, on 64-bit numbers.
  predicate GuestStartFits(hostMib: u64, runningMib: u64, needMib: u64) {
    var host32 := Min(hostMib, U32_LIMIT - 1);
    SaturatingAdd64(runningMib, needMib) <= Max(hostMib - HostMemoryReserve(host32), 0)
  }

  lemma ProductAtLeast(b: nat, x: nat)
    requires b > 0
    ensures b * x >= x
  {
    assert b * x == x + (b - 1) * x;
  }

  lemma QuotientAtMost(a: nat, b: nat)
    requires b > 0
    ensures 0 <= a / b <= a
  {
    ProductAtLeast(b, a + 1);
  }

  function Permille(used: u32, capacity: u32): (r: u32)
    requires capacity > 0
  {
    QuotientAtMost(SaturatingMul(used, 1000), capacity);
    SaturatingMul(used, 1000) / capacity
  }

  function CpuPermille(n: NodeLoad): u32 {
    Permille(n.usedVcpus, Max(n.cpus, 1))
  }

  function MemoryPermille(n: NodeLoad): u32 {
    Permille(n.usedMemoryMib, Max(GuestMemoryBudget(n.memoryMib), 1))
  }

  // The u32 addition wraps in a release build; FittingScoreIsExact says why it does not.
  function LoadScore(n: NodeLoad): u32 {
    (CpuPermille(n) + MemoryPermille(n)) % U32_LIMIT
  }

  // Nodes are compared by (score, id).
  datatype Key = Key(score: u32, id: NodeId)

  function LoadKey(n: NodeLoad): Key {
    Key(LoadScore(n), n.id)
  }

  predicate KeyLess(a: Key, b: Key) {
    a.score < b.score || (a.score == b.score && a.id < b.id)
  }

  function Keys(nodes: seq<NodeLoad>): seq<Key> {
    if nodes == [] then [] else [LoadKey(nodes[0])] + Keys(nodes[1..])
  }

  lemma {:induction false} KeysAt(nodes: seq<NodeLoad>)
    ensures |Keys(nodes)| == |nodes|
    ensures forall i | 0 <= i < |nodes| :: Keys(nodes)[i] == LoadKey(nodes[i])
  {
    if nodes != [] {
      KeysAt(nodes[1..]);
    }
  }

  // The first of the least keys.
  function LeastKey(keys: seq<Key>): Option<Key> {
    if keys == [] then None
    else
      var last := keys[|keys| - 1];
      match LeastKey(keys[..|keys| - 1])
      case None => Some(last)
      case Some(best) => if KeyLess(last, best) then Some(last) else Some(best)
  }

  lemma {:induction false} LeastKeyIsLeast(keys: seq<Key>)
    ensures LeastKey(keys).None? <==> keys == []
    ensures LeastKey(keys).Some? ==>
      LeastKey(keys).value in keys && forall k <- keys :: !KeyLess(k, LeastKey(keys).value)
  {
    if keys != [] {
      LeastKeyIsLeast(keys[..|keys| - 1]);
      assert keys == keys[..|keys| - 1] + [keys[|keys| - 1]];
    }
  }

  function LeastLoaded(nodes: seq<NodeLoad>): Option<NodeId> {
    match LeastKey(Keys(nodes))
    case None => None
    case Some(k) => Some(k.id)
  }

  function Fitting(nodes: seq<NodeLoad>, need: Need): seq<NodeLoad> {
    if nodes == [] then []
    else (if Fits(nodes[0], need) then [nodes[0]] else []) + Fitting(nodes[1..], need)
  }

  lemma {:induction false} FittingMembers(nodes: seq<NodeLoad>, need: Need)
    ensures forall n :: n in Fitting(nodes, need) <==> n in nodes && Fits(n, need)
  {
    if nodes != [] {
      FittingMembers(nodes[1..], need);
    }
  }

  function Within(nodes: seq<NodeLoad>, ids: seq<NodeId>): seq<NodeLoad> {
    if nodes == [] then []
    else (if nodes[0].id in ids then [nodes[0]] else []) + Within(nodes[1..], ids)
  }

  lemma {:induction false} WithinMembers(nodes: seq<NodeLoad>, ids: seq<NodeId>)
    ensures forall n :: n in Within(nodes, ids) <==> n in nodes && n.id in ids
  {
    if nodes != [] {
      WithinMembers(nodes[1..], ids);
    }
  }

  function Outside(nodes: seq<NodeLoad>, ids: seq<NodeId>): seq<NodeLoad> {
    if nodes == [] then []
    else (if nodes[0].id !in ids then [nodes[0]] else []) + Outside(nodes[1..], ids)
  }

  lemma {:induction false} OutsideMembers(nodes: seq<NodeLoad>, ids: seq<NodeId>)
    ensures forall n :: n in Outside(nodes, ids) <==> n in nodes && n.id !in ids
  {
    if nodes != [] {
      OutsideMembers(nodes[1..], ids);
    }
  }

  function Schedule(nodes: seq<NodeLoad>, need: Need, prefer: Option<NodeId>): Option<NodeId> {
    if prefer.Some? && exists n <- nodes :: n.id == prefer.value && Fits(n, need) then prefer
    else LeastLoaded(Fitting(nodes, need))
  }

  function ScheduleStorage(nodes: seq<NodeLoad>, need: Need, prefer: Option<NodeId>, affinity: seq<NodeId>)
    : Option<NodeId>
  {
    var first := Schedule(nodes, need, prefer);
    if first.Some? && (affinity == [] || first.value in affinity) then first
    else
      var local := Within(Fitting(nodes, need), affinity);
      if local != [] then Schedule(local, need, prefer)
      else Schedule(nodes, need, prefer)
  }

  function ScheduleSpread(
      nodes: seq<NodeLoad>, need: Need, prefer: Option<NodeId>, affinity: seq<NodeId>, avoid: seq<NodeId>)
    : Option<NodeId>
  {
    var spread :=
      if avoid != [] then ScheduleStorage(Outside(nodes, avoid), need, prefer, affinity) else None;
    if spread.Some? then spread
    else ScheduleStorage(nodes, need, prefer, affinity)
  }

  // ---------- The answer, said without the layers ----------

  ghost function FittingSet(nodes: seq<NodeLoad>, need: Need): set<NodeLoad> {
    set n <- nodes | Fits(n, need)
  }

  // The fitting nodes outside `avoid`; every fitting node when that leaves none.
  ghost function Pool(nodes: seq<NodeLoad>, need: Need, avoid: seq<NodeId>): set<NodeLoad> {
    var fitting := FittingSet(nodes, need);
    var free := set n <- fitting | n.id !in avoid;
    if free != {} then free else fitting
  }

  ghost function Holders(pool: set<NodeLoad>, affinity: seq<NodeId>): set<NodeLoad> {
    set n <- pool | n.id in affinity
  }

  // The replica holders of the pool; the whole pool when it has none.
  ghost function Candidates(pool: set<NodeLoad>, affinity: seq<NodeId>): set<NodeLoad> {
    if Holders(pool, affinity) != {} then Holders(pool, affinity) else pool
  }

  ghost function KeySet(nodes: set<NodeLoad>): set<Key> {
    set n <- nodes :: LoadKey(n)
  }

  ghost predicate HasKey(keys: set<Key>, id: NodeId) {
    exists k <- keys :: k.id == id
  }

  ghost predicate HasNode(nodes: set<NodeLoad>, id: NodeId) {
    exists n <- nodes :: n.id == id
  }

  // The preferred node if it is a candidate, else the id of the least candidate key.
  ghost predicate IsPick(candidates: set<Key>, prefer: Option<NodeId>, r: Option<NodeId>) {
    if candidates == {} then r == None
    else if prefer.Some? && HasKey(candidates, prefer.value) then r == prefer
    else exists k <- candidates :: r == Some(k.id) && forall m <- candidates :: !KeyLess(m, k)
  }

  lemma PickIsUnique(candidates: set<Key>, prefer: Option<NodeId>, r: Option<NodeId>, s: Option<NodeId>)
    requires IsPick(candidates, prefer, r) && IsPick(candidates, prefer, s)
    ensures r == s
  {
  }

  lemma LeastLoadedIsLeast(nodes: seq<NodeLoad>, c: set<NodeLoad>)
    requires forall n :: n in c <==> n in nodes
    ensures LeastLoaded(nodes).None? <==> c == {}
    ensures c != {} ==> exists k <- KeySet(c) ::
      LeastLoaded(nodes) == Some(k.id) && forall m <- KeySet(c) :: !KeyLess(m, k)
  {
    var keys := Keys(nodes);
    KeysAt(nodes);
    LeastKeyIsLeast(keys);
    assert forall k :: k in keys <==> k in KeySet(c) by {
      forall i | 0 <= i < |nodes|
        ensures keys[i] in KeySet(c)
      {
        assert nodes[i] in c;
      }
      forall k <- KeySet(c)
        ensures k in keys
      {
        var n :| n in c && LoadKey(n) == k;
        var i :| 0 <= i < |nodes| && nodes[i] == n;
        assert keys[i] == k;
      }
    }
    if nodes != [] {
      assert nodes[0] in c;
      assert LeastKey(keys).value in KeySet(c);
    }
  }

  lemma ScheduleIsPick(nodes: seq<NodeLoad>, need: Need, prefer: Option<NodeId>)
    ensures IsPick(KeySet(FittingSet(nodes, need)), prefer, Schedule(nodes, need, prefer))
  {
    var c := FittingSet(nodes, need);
    FittingMembers(nodes, need);
    LeastLoadedIsLeast(Fitting(nodes, need), c);
    KeySetIds(c);
    if n :| n in nodes && Fits(n, need) && prefer == Some(n.id) {
      assert n in c && HasNode(c, n.id);
    }
  }

  lemma KeySetIds(c: set<NodeLoad>)
    ensures c == {} <==> KeySet(c) == {}
    ensures forall id :: HasKey(KeySet(c), id) <==> HasNode(c, id)
  {
    forall n <- c
      ensures LoadKey(n) in KeySet(c)
    {
    }
    forall id | HasNode(c, id)
      ensures HasKey(KeySet(c), id)
    {
      var n :| n in c && n.id == id;
      assert LoadKey(n) in KeySet(c);
    }
  }

  lemma ScheduleStorageCases(nodes: seq<NodeLoad>, need: Need, prefer: Option<NodeId>, affinity: seq<NodeId>)
    ensures var first := Schedule(nodes, need, prefer);
      var holders := Holders(FittingSet(nodes, need), affinity);
      var local := Within(Fitting(nodes, need), affinity);
      && FittingSet(local, need) == holders
      && ScheduleStorage(nodes, need, prefer, affinity)
         == (if holders == {} || (first.Some? && first.value in affinity) then first
             else Schedule(local, need, prefer))
  {
    var holders := Holders(FittingSet(nodes, need), affinity);
    var local := Within(Fitting(nodes, need), affinity);
    FittingMembers(nodes, need);
    WithinMembers(Fitting(nodes, need), affinity);
    assert forall n :: n in local <==> n in holders;
    if holders != {} {
      var h :| h in holders;
      assert h.id in affinity && h in local;
    }
  }

  lemma ScheduleStorageIsPick(nodes: seq<NodeLoad>, need: Need, prefer: Option<NodeId>, affinity: seq<NodeId>)
    ensures IsPick(KeySet(Candidates(FittingSet(nodes, need), affinity)), prefer,
                   ScheduleStorage(nodes, need, prefer, affinity))
  {
    var first := Schedule(nodes, need, prefer);
    ScheduleStorageCases(nodes, need, prefer, affinity);
    ScheduleIsPick(nodes, need, prefer);
    if Holders(FittingSet(nodes, need), affinity) != {} {
      if first.Some? && first.value in affinity {
        LocalLeast(FittingSet(nodes, need), affinity, prefer, first);
      } else {
        ScheduleIsPick(Within(Fitting(nodes, need), affinity), need, prefer);
      }
    }
  }

  // The least key of the whole pool is also the least of any part that holds its id.
  lemma LocalLeast(pool: set<NodeLoad>, affinity: seq<NodeId>, prefer: Option<NodeId>, r: Option<NodeId>)
    requires IsPick(KeySet(pool), prefer, r)
    requires r.Some? && r.value in affinity
    ensures IsPick(KeySet(Holders(pool, affinity)), prefer, r)
  {
    var local := Holders(pool, affinity);
    KeySetIds(pool);
    KeySetIds(local);
    forall k <- KeySet(local)
      ensures k in KeySet(pool)
    {
    }
    forall k <- KeySet(pool) | k.id in affinity
      ensures k in KeySet(local)
    {
      var n :| n in pool && LoadKey(n) == k;
      assert n in local;
    }
  }

  lemma ScheduleSpreadCases(
      nodes: seq<NodeLoad>, need: Need, prefer: Option<NodeId>, affinity: seq<NodeId>, avoid: seq<NodeId>)
    ensures var outside := Outside(nodes, avoid);
      && Pool(nodes, need, avoid)
         == (if FittingSet(outside, need) != {} then FittingSet(outside, need) else FittingSet(nodes, need))
      && ScheduleSpread(nodes, need, prefer, affinity, avoid)
         == (if FittingSet(outside, need) != {} then ScheduleStorage(outside, need, prefer, affinity)
             else ScheduleStorage(nodes, need, prefer, affinity))
  {
    var outside := Outside(nodes, avoid);
    OutsideMembers(nodes, avoid);
    var fitting := FittingSet(nodes, need);
    assert FittingSet(outside, need) == (set n <- fitting | n.id !in avoid);
    ScheduleStorageIsPick(outside, need, prefer, affinity);
    KeySetIds(Candidates(FittingSet(outside, need), affinity));
    if avoid == [] {
      AllOutsideNothing(nodes);
    }
  }

  lemma {:induction false} AllOutsideNothing(nodes: seq<NodeLoad>)
    ensures Outside(nodes, []) == nodes
  {
    if nodes != [] {
      AllOutsideNothing(nodes[1..]);
    }
  }

  // The three layers together compute the one-line rule.
  lemma ScheduleSpreadIsPick(
      nodes: seq<NodeLoad>, need: Need, prefer: Option<NodeId>, affinity: seq<NodeId>, avoid: seq<NodeId>)
    ensures IsPick(KeySet(Candidates(Pool(nodes, need, avoid), affinity)), prefer,
                   ScheduleSpread(nodes, need, prefer, affinity, avoid))
  {
    ScheduleSpreadCases(nodes, need, prefer, affinity, avoid);
    if FittingSet(Outside(nodes, avoid), need) != {} {
      ScheduleStorageIsPick(Outside(nodes, avoid), need, prefer, affinity);
    } else {
      ScheduleStorageIsPick(nodes, need, prefer, affinity);
    }
  }

  // None exactly when nothing fits. Otherwise the node fits, an avoided node is taken only when
  // every fitting node is avoided, and a replica holder wins whenever the pool has one.
  lemma ScheduleSpreadContract(
      nodes: seq<NodeLoad>, need: Need, prefer: Option<NodeId>, affinity: seq<NodeId>, avoid: seq<NodeId>)
    ensures var r := ScheduleSpread(nodes, need, prefer, affinity, avoid);
      && (r.None? <==> forall n <- nodes :: !Fits(n, need))
      && (r.Some? ==> exists n <- nodes :: n.id == r.value && Fits(n, need))
      && (r.Some? && r.value in avoid ==> forall n <- nodes | Fits(n, need) :: n.id in avoid)
      && (r.Some? && (exists n <- Pool(nodes, need, avoid) :: n.id in affinity) ==> r.value in affinity)
  {
    var r := ScheduleSpread(nodes, need, prefer, affinity, avoid);
    var fitting := FittingSet(nodes, need);
    var free := set n <- fitting | n.id !in avoid;
    var pool := Pool(nodes, need, avoid);
    var local := Holders(pool, affinity);
    var c := Candidates(pool, affinity);
    ScheduleSpreadIsPick(nodes, need, prefer, affinity, avoid);
    KeySetIds(c);
    if n :| n in nodes && Fits(n, need) {
      assert n in fitting;
      assert r.Some?;
      assert HasKey(KeySet(c), r.value);
      var m :| m in c && m.id == r.value;
      assert m in pool && m in nodes && Fits(m, need);
      if r.value in avoid {
        assert free == {};
        assert forall x <- nodes | Fits(x, need) :: x in fitting && x !in free;
      }
      if h :| h in pool && h.id in affinity {
        assert h in local && m in local;
      }
    } else {
      assert c == {};
    }
  }

  // The answer depends on the nodes, the holders and the avoided ids as sets only: a permuted
  // (or repeated) list gives the same node, so survivors with the same view agree.
  lemma ScheduleSpreadIgnoresOrder(
      nodes: seq<NodeLoad>, nodes': seq<NodeLoad>, need: Need, prefer: Option<NodeId>,
      affinity: seq<NodeId>, affinity': seq<NodeId>, avoid: seq<NodeId>, avoid': seq<NodeId>)
    requires forall n :: n in nodes <==> n in nodes'
    requires forall id :: id in affinity <==> id in affinity'
    requires forall id :: id in avoid <==> id in avoid'
    ensures ScheduleSpread(nodes, need, prefer, affinity, avoid)
         == ScheduleSpread(nodes', need, prefer, affinity', avoid')
  {
    ScheduleSpreadIsPick(nodes, need, prefer, affinity, avoid);
    ScheduleSpreadIsPick(nodes', need, prefer, affinity', avoid');
    assert FittingSet(nodes, need) == FittingSet(nodes', need);
    var fitting := FittingSet(nodes, need);
    assert (set n <- fitting | n.id !in avoid) == (set n <- fitting | n.id !in avoid');
    var pool := Pool(nodes, need, avoid);
    assert pool == Pool(nodes', need, avoid');
    assert Holders(pool, affinity) == Holders(pool, affinity');
    PickIsUnique(KeySet(Candidates(pool, affinity)), prefer,
                 ScheduleSpread(nodes, need, prefer, affinity, avoid),
                 ScheduleSpread(nodes', need, prefer, affinity', avoid'));
  }

  // ---------- The answer, on the nodes' own fields ----------

  // The fit test without saturation: eight guest vCPUs a thread, and the memory left when the host
  // keeps a twentieth of it, but no less than 64 and no more than 1536 MiB.
  lemma FitsIff(n: NodeLoad, need: Need)
    ensures Fits(n, need) <==>
      && n.online
      && (need.vcpus == 0 || n.usedVcpus + need.vcpus <= Min(8 * n.cpus, U32_LIMIT - 1))
      && (need.memoryMib == 0
          || n.usedMemoryMib + need.memoryMib + Min(Max(n.memoryMib / 20, 64), 1536) <= n.memoryMib)
  {
  }

  // The score: used vCPU and memory, each in thousandths of what the node has.
  lemma ScoreIs(n: NodeLoad)
    ensures CpuPermille(n) == Min(1000 * n.usedVcpus, U32_LIMIT - 1) / Max(n.cpus, 1)
    ensures MemoryPermille(n)
         == Min(1000 * n.usedMemoryMib, U32_LIMIT - 1)
            / Max(n.memoryMib - Min(Max(n.memoryMib / 20, 64), 1536), 1)
    ensures LoadScore(n) == (CpuPermille(n) + MemoryPermille(n)) % U32_LIMIT
  {
    assert Max(GuestMemoryBudget(n.memoryMib), 1) == Max(n.memoryMib - Min(Max(n.memoryMib / 20, 64), 1536), 1);
  }

  // It fits; it is avoided only if every fitting node is.
  ghost predicate Admissible(nodes: seq<NodeLoad>, need: Need, avoid: seq<NodeId>, n: NodeLoad) {
    n in nodes && Fits(n, need) && (n.id in avoid ==> forall m <- nodes | Fits(m, need) :: m.id in avoid)
  }

  // And it holds a replica if any such node does.
  ghost predicate Eligible(nodes: seq<NodeLoad>, need: Need, affinity: seq<NodeId>, avoid: seq<NodeId>, n: NodeLoad) {
    && Admissible(nodes, need, avoid, n)
    && (n.id in affinity || forall m <- nodes | Admissible(nodes, need, avoid, m) :: m.id !in affinity)
  }

  lemma CandidatesAreEligible(nodes: seq<NodeLoad>, need: Need, affinity: seq<NodeId>, avoid: seq<NodeId>)
    ensures forall n :: n in Pool(nodes, need, avoid) <==> Admissible(nodes, need, avoid, n)
    ensures forall n ::
      n in Candidates(Pool(nodes, need, avoid), affinity) <==> Eligible(nodes, need, affinity, avoid, n)
  {
    var fitting := FittingSet(nodes, need);
    var free := set n <- fitting | n.id !in avoid;
    assert forall n :: n in fitting <==> n in nodes && Fits(n, need);
    assert free == {} <==> forall m <- nodes | Fits(m, need) :: m.id in avoid by {
      if free != {} {
        var f :| f in free;
        assert f in nodes && Fits(f, need) && f.id !in avoid;
      }
      assert forall m <- nodes | Fits(m, need) && m.id !in avoid :: m in free;
    }
    var pool := Pool(nodes, need, avoid);
    assert forall n :: n in pool <==> Admissible(nodes, need, avoid, n);
    assert forall n :: n in Holders(pool, affinity) <==> n in pool && n.id in affinity;
  }

  // There is an answer exactly when some node fits; it is an eligible node, the preferred one if that
  // is eligible, else the one with the least score and, among equals, the least id.
  lemma ScheduleSpreadIsLeast(
      nodes: seq<NodeLoad>, need: Need, prefer: Option<NodeId>, affinity: seq<NodeId>, avoid: seq<NodeId>)
    ensures match ScheduleSpread(nodes, need, prefer, affinity, avoid)
      case None => forall n <- nodes :: !Fits(n, need)
      case Some(id) =>
        exists n ::
          && Eligible(nodes, need, affinity, avoid, n) && n.id == id
          && (|| prefer == Some(id)
              || (&& (forall m | Eligible(nodes, need, affinity, avoid, m) :: prefer != Some(m.id))
                  && forall m | Eligible(nodes, need, affinity, avoid, m) ::
                       LoadScore(n) < LoadScore(m) || (LoadScore(n) == LoadScore(m) && n.id <= m.id)))
  {
    var r := ScheduleSpread(nodes, need, prefer, affinity, avoid);
    var c := Candidates(Pool(nodes, need, avoid), affinity);
    ScheduleSpreadIsPick(nodes, need, prefer, affinity, avoid);
    ScheduleSpreadContract(nodes, need, prefer, affinity, avoid);
    CandidatesAreEligible(nodes, need, affinity, avoid);
    KeySetIds(c);
    hide ScheduleSpread, Eligible, Admissible, Candidates, Pool, LoadScore, Fits;
    if r.Some? {
      PickIsEligible(c, prefer, r.value);
    }
  }

  lemma PickIsEligible(c: set<NodeLoad>, prefer: Option<NodeId>, id: NodeId)
    requires IsPick(KeySet(c), prefer, Some(id))
    ensures exists n <- c ::
      && n.id == id
      && (|| prefer == Some(id)
          || (&& (forall m <- c :: prefer != Some(m.id))
              && forall m <- c :: LoadScore(n) < LoadScore(m) || (LoadScore(n) == LoadScore(m) && n.id <= m.id)))
  {
    hide LoadScore;
    KeySetIds(c);
    if prefer.Some? && HasKey(KeySet(c), prefer.value) {
      assert HasNode(c, prefer.value);
    } else {
      var k :| k in KeySet(c) && id == k.id && forall m <- KeySet(c) :: !KeyLess(m, k);
      var n :| n in c && LoadKey(n) == k;
      forall m | m in c
        ensures prefer != Some(m.id)
        ensures LoadScore(n) < LoadScore(m) || (LoadScore(n) == LoadScore(m) && n.id <= m.id)
      {
        assert LoadKey(m) in KeySet(c) && HasNode(c, m.id);
      }
    }
  }

  // ---------- The score ----------

  lemma PermilleBelow(used: u32, capacity: u32, times: nat)
    requires capacity > 0 && used < times * capacity
    ensures Permille(used, capacity) < 1000 * times
  {
    assert 1000 * (times * capacity) == capacity * (1000 * times);
  }

  lemma FittingHasRoom(n: NodeLoad, need: Need)
    requires need.vcpus > 0 && need.memoryMib > 0
    requires Fits(n, need)
    ensures n.usedMemoryMib < GuestMemoryBudget(n.memoryMib)
    ensures n.cpus > 0 && n.usedVcpus < 8 * n.cpus
  {
    hide GuestMemoryBudget;
  }

  // A node that fits a guest with a vCPU and memory scores below 9000, so the sum never wraps.
  lemma FittingScoreIsExact(n: NodeLoad, need: Need)
    requires need.vcpus > 0 && need.memoryMib > 0
    requires Fits(n, need)
    ensures LoadScore(n) == CpuPermille(n) + MemoryPermille(n) < 9000
  {
    hide Fits, GuestMemoryBudget, Permille;
    FittingHasRoom(n, need);
    PermilleBelow(n.usedMemoryMib, GuestMemoryBudget(n.memoryMib), 1);
    PermilleBelow(n.usedVcpus, n.cpus, 8);
  }

  // So for such a guest the order of the scores is the order of the loads themselves.
  lemma ScoreOrdersLoads(a: NodeLoad, b: NodeLoad, need: Need)
    requires need.vcpus > 0 && need.memoryMib > 0
    requires Fits(a, need) && Fits(b, need)
    ensures var (x, y) := (CpuPermille(a) + MemoryPermille(a), CpuPermille(b) + MemoryPermille(b));
      KeyLess(LoadKey(a), LoadKey(b)) <==> x < y || (x == y && a.id < b.id)
  {
    hide Fits, CpuPermille, MemoryPermille, LoadScore;
    FittingScoreIsExact(a, need);
    FittingScoreIsExact(b, need);
  }

  // A node the scheduler accepts also passes the start gate when its load is what is running there.
  lemma ScheduledGuestCanStart(n: NodeLoad, need: Need)
    requires need.memoryMib > 0
    requires Fits(n, need)
    ensures GuestStartFits(n.memoryMib, n.usedMemoryMib, need.memoryMib)
  {
  }
}
