// The witness lease protocol on a common clock: claims, delayed or lost replies, and what each node
// believes (crates/pertisk-daemon/src/cluster.rs, service.rs).
module Witness {
  import opened Prelude
  import opened Scheduler
  import opened Quorum

  datatype Lease = Lease(holder: Option<NodeId>, untilMs: u64)

  // The holder keeps the lease until it expires, and renews it by claiming again.
  function Claimed(lease: Lease, claimant: NodeId, now: u64, ttl: u64): Lease {
    if lease.holder.Some? && now < lease.untilMs then
      if lease.holder.value == claimant then lease.(untilMs := SaturatingAdd64(now, ttl)) else lease
    else Lease(Some(claimant), SaturatingAdd64(now, ttl))
  }

  class WitnessLease {
    var holder: Option<NodeId>
    var untilMs: u64

    constructor ()
      ensures holder == None && untilMs == 0
    {
      holder, untilMs := None, 0;
    }

    // witness_claim: an empty or expired lease goes to the claimant, the live holder's claim renews it,
    // anybody else's changes nothing; the answer names the holder after the claim.
    method Claim(claimant: NodeId, now: u64, ttl: u64) returns (answer: NodeId)
      modifies this
      ensures Lease(holder, untilMs) == Claimed(Lease(old(holder), old(untilMs)), claimant, now, ttl)
      ensures holder == Some(answer)
      ensures old(holder).None? || now >= old(untilMs) || old(holder) == Some(claimant) ==>
                answer == claimant && untilMs == Min(now + ttl, U64_LIMIT - 1)
      ensures old(holder).Some? && now < old(untilMs) && old(holder) != Some(claimant) ==>
                holder == old(holder) && untilMs == old(untilMs)
    {
      if holder.Some? && now < untilMs {
        if holder.value == claimant {
          untilMs := SaturatingAdd64(now, ttl);
        }
        return holder.value;
      }
      holder := Some(claimant);
      untilMs := SaturatingAdd64(now, ttl);
      answer := claimant;
    }
  }

  // What a node last heard (witness_holder, witness_until_ms).
  datatype View = View(holder: NodeId, untilMs: u64)

  // A reply on its way to a node.
  datatype Reply = Reply(to: NodeId, holder: NodeId, sentAt: u64)

  // `lostAt` is a history variable: when each former holder was last displaced.
  datatype World = World(
    now: u64,
    lease: Lease,
    lostAt: map<NodeId, u64>,
    views: map<NodeId, View>,
    flight: set<Reply>)

  predicate Believes(w: World, p: NodeId) {
    p in w.views && w.views[p].holder == p && w.now < w.views[p].untilMs
  }

  ghost predicate Init(w: World) {
    w.lease == Lease(None, 0) && w.lostAt == map[] && w.views == map[] && w.flight == {}
  }

  function AfterClaim(w: World, p: NodeId, ttl: u64): World {
    var lease := Claimed(w.lease, p, w.now, ttl);
    var lostAt :=
      if w.lease.holder.Some? && lease.holder != w.lease.holder then w.lostAt[w.lease.holder.value := w.now]
      else w.lostAt;
    assert lease.holder.Some?;
    w.(lease := lease, lostAt := lostAt, flight := w.flight + {Reply(p, lease.holder.value, w.now)})
  }

  function AfterDelivery(w: World, r: Reply, ttl: u64): World {
    w.(views := w.views[r.to := View(r.holder, SaturatingAdd64(w.now, ttl))], flight := w.flight - {r})
  }

  // Everyone who may have been promised the lease.
  function Promised(w: World): set<NodeId> {
    w.views.Keys + (set r <- w.flight :: r.to) + (if w.lease.holder.Some? then {w.lease.holder.value} else {})
  }

  // The lease lives in memory: a restarted witness starts from an empty one, and so displaces everyone.
  function AfterWitnessRestart(w: World): World {
    w.(lease := Lease(None, 0), lostAt := map p | p in w.lostAt.Keys + Promised(w) :: w.now)
  }

  // Time passes; a node claims; a reply arrives no more than `delay` after it was sent; replies are
  // lost; a node restarts and forgets its grant.
  ghost predicate Step(w: World, w': World, ttl: u64, delay: u64) {
    || (w' == w.(now := w'.now) && w'.now >= w.now)
    || (exists p :: w' == AfterClaim(w, p, ttl))
    || (exists r <- w.flight :: w.now <= r.sentAt + delay && w' == AfterDelivery(w, r, ttl))
    || (w' == w.(flight := w'.flight) && w'.flight <= w.flight)
    || (exists p :: w' == w.(views := w.views - {p}))
  }

  // Or the witness restarts.
  ghost predicate Next(w: World, w': World, ttl: u64, delay: u64) {
    Step(w, w', ttl, delay) || w' == AfterWitnessRestart(w)
  }

  ghost predicate IsRun(run: seq<World>, ttl: u64, delay: u64) {
    && run != []
    && Init(run[0])
    && forall i | 0 <= i < |run| - 1 :: Next(run[i], run[i + 1], ttl, delay)
  }

  // ---------- The invariant ----------

  // What the witness may forget: no node counts on the lease for longer than a reply takes, and no
  // reply still to arrive grants more time.
  ghost predicate MayForget(w: World, ttl: u64, delay: u64) {
    && (forall p <- w.views | w.views[p].holder == p :: w.views[p].untilMs <= w.now + delay)
    && (forall r <- w.flight | r.holder == r.to && w.now <= r.sentAt + delay :: SaturatingAdd64(r.sentAt, ttl) <= w.now)
  }

  // Runs in which the witness restarts only then.
  ghost predicate IsCarefulRun(run: seq<World>, ttl: u64, delay: u64) {
    && run != []
    && Init(run[0])
    && forall i | 0 <= i < |run| - 1 ::
         || Step(run[i], run[i + 1], ttl, delay)
         || (MayForget(run[i], ttl, delay) && run[i + 1] == AfterWitnessRestart(run[i]))
  }

  // The last instant up to which p may have been promised the lease.
  ghost predicate PromiseEnded(w: World, p: NodeId, end: u64, slack: u64) {
    if w.lease.holder == Some(p) then end <= w.lease.untilMs + slack
    else p in w.lostAt && end <= w.lostAt[p] + slack
  }

  ghost predicate Inv(w: World, ttl: u64, delay: u64) {
    && w.lease.untilMs <= SaturatingAdd64(w.now, ttl)
    && (forall p <- w.lostAt :: w.lostAt[p] <= w.now)
    && (forall p <- w.views | w.views[p].holder == p :: PromiseEnded(w, p, w.views[p].untilMs, delay))
    && (forall r <- w.flight :: r.sentAt <= w.now)
    && (forall r <- w.flight | r.holder == r.to && w.now <= r.sentAt + delay ::
          PromiseEnded(w, r.to, SaturatingAdd64(r.sentAt, ttl), 0))
  }

  // The part that holds in every run, whenever the witness restarts.
  ghost predicate InOrder(w: World) {
    && (forall p <- w.lostAt :: w.lostAt[p] <= w.now)
    && (forall r <- w.flight :: r.sentAt <= w.now)
  }

  lemma ClaimKeepsInv(w: World, p: NodeId, ttl: u64, delay: u64)
    requires Inv(w, ttl, delay)
    ensures Inv(AfterClaim(w, p, ttl), ttl, delay)
  {
    var w' := AfterClaim(w, p, ttl);
    forall q, end: u64, slack: u64 | PromiseEnded(w, q, end, slack)
      ensures PromiseEnded(w', q, end, slack)
    {
    }
  }

  lemma DeliveryKeepsInv(w: World, r: Reply, ttl: u64, delay: u64)
    requires Inv(w, ttl, delay) && r in w.flight && w.now <= r.sentAt + delay
    ensures Inv(AfterDelivery(w, r, ttl), ttl, delay)
  {
    var w' := AfterDelivery(w, r, ttl);
    forall q <- w'.views | w'.views[q].holder == q
      ensures PromiseEnded(w', q, w'.views[q].untilMs, delay)
    {
      if q == r.to {
        assert PromiseEnded(w, q, SaturatingAdd64(r.sentAt, ttl), 0);
      } else {
        assert PromiseEnded(w, q, w.views[q].untilMs, delay);
      }
    }
  }

  lemma StepKeepsInv(w: World, w': World, ttl: u64, delay: u64)
    requires Inv(w, ttl, delay) && Step(w, w', ttl, delay)
    ensures Inv(w', ttl, delay)
  {
    hide AfterClaim, AfterDelivery;
    if p :| w' == AfterClaim(w, p, ttl) {
      ClaimKeepsInv(w, p, ttl, delay);
    } else if r :| r in w.flight && w.now <= r.sentAt + delay && w' == AfterDelivery(w, r, ttl) {
      DeliveryKeepsInv(w, r, ttl, delay);
    }
  }

  // A restart keeps the invariant exactly when the witness may forget.
  lemma RestartKeepsInvIff(w: World, ttl: u64, delay: u64)
    requires InOrder(w)
    ensures Inv(AfterWitnessRestart(w), ttl, delay) <==> MayForget(w, ttl, delay)
  {
    var w' := AfterWitnessRestart(w);
    forall p, end: u64, slack: u64 | p in Promised(w)
      ensures PromiseEnded(w', p, end, slack) <==> end <= w.now + slack
    {
    }
    assert forall r <- w.flight :: r.to in Promised(w);
  }

  lemma {:induction false} RunKeepsInv(run: seq<World>, i: nat, ttl: u64, delay: u64)
    requires IsCarefulRun(run, ttl, delay) && i < |run|
    ensures Inv(run[i], ttl, delay)
  {
    if i > 0 {
      hide Inv, Step, MayForget, AfterWitnessRestart;
      RunKeepsInv(run, i - 1, ttl, delay);
      if Step(run[i - 1], run[i], ttl, delay) {
        StepKeepsInv(run[i - 1], run[i], ttl, delay);
      } else {
        RestartKeepsInvIff(run[i - 1], ttl, delay);
      }
    }
  }

  lemma {:induction false} RunIsInOrder(run: seq<World>, i: nat, ttl: u64, delay: u64)
    requires IsRun(run, ttl, delay) && i < |run|
    ensures InOrder(run[i])
    ensures forall p <- run[i].views :: run[i].views[p].untilMs <= SaturatingAdd64(run[i].now, ttl)
  {
    if i > 0 {
      RunIsInOrder(run, i - 1, ttl, delay);
      assert Next(run[i - 1], run[i], ttl, delay);
    }
  }

  // ---------- Safety ----------

  // In every run: a node displaced as holder stops believing at most `delay` after it lost the lease.
  lemma DisplacedHolderStopsBelieving(run: seq<World>, i: nat, p: NodeId, ttl: u64, delay: u64)
    requires IsCarefulRun(run, ttl, delay) && i < |run|
    requires run[i].lease.holder != Some(p) && Believes(run[i], p)
    ensures p in run[i].lostAt && run[i].now < run[i].lostAt[p] + delay
  {
    RunKeepsInv(run, i, ttl, delay);
  }

  lemma {:induction false} LossIsRemembered(run: seq<World>, i: nat, j: nat, p: NodeId, ttl: u64, delay: u64)
    requires IsCarefulRun(run, ttl, delay) && i < j < |run|
    requires run[i].lease.holder == Some(p)
    requires forall k | i < k <= j :: run[k].lease.holder != Some(p)
    requires forall k | i <= k < j :: Step(run[k], run[k + 1], ttl, delay)
    ensures p in run[j].lostAt && run[j].lostAt[p] == run[i].now >= run[i].lease.untilMs
    decreases j
  {
    assert Step(run[j - 1], run[j], ttl, delay);
    if j > i + 1 {
      LossIsRemembered(run, i, j - 1, p, ttl, delay);
    }
  }

  // So a takeover at time T, at which the old lease has expired, silences the old holder by
  // T + delay, until it is granted the lease again.
  lemma TakeoverSilencesOldHolder(run: seq<World>, i: nat, j: nat, p: NodeId, ttl: u64, delay: u64)
    requires IsCarefulRun(run, ttl, delay) && i < j < |run|
    requires run[i].lease.holder == Some(p)
    requires forall k | i < k <= j :: run[k].lease.holder != Some(p)
    requires forall k | i <= k < j :: Step(run[k], run[k + 1], ttl, delay)
    ensures run[i].now >= run[i].lease.untilMs
    ensures run[j].now >= run[i].now + delay ==> !Believes(run[j], p)
  {
    LossIsRemembered(run, i, j, p, ttl, delay);
    RunKeepsInv(run, j, ttl, delay);
  }

  // With immediate replies no two nodes ever believe they hold the lease at once.
  lemma AtMostOneBeliever(run: seq<World>, i: nat, p: NodeId, q: NodeId, ttl: u64)
    requires IsCarefulRun(run, ttl, 0) && i < |run|
    requires Believes(run[i], p) && Believes(run[i], q)
    ensures p == q
  {
    RunKeepsInv(run, i, ttl, 0);
  }

  // No split brain: in every run with immediate replies, two nodes whose online views share no
  // member never both have quorum, whatever the cluster size.
  lemma NoSplitBrain(
      run: seq<World>, i: nat, ttl: u64, members: set<NodeId>,
      p: NodeId, seenByP: set<NodeId>, q: NodeId, seenByQ: set<NodeId>)
    requires IsCarefulRun(run, ttl, 0) && i < |run|
    requires p in seenByP && seenByP <= members && q in seenByQ && seenByQ <= members
    requires seenByP !! seenByQ
    ensures !(QuorumWithWitness(|seenByP|, |members|, Believes(run[i], p))
           && QuorumWithWitness(|seenByQ|, |members|, Believes(run[i], q)))
  {
    BothSidesNeedTheLease(members, seenByP, seenByQ, Believes(run[i], p), Believes(run[i], q));
    if Believes(run[i], p) && Believes(run[i], q) {
      AtMostOneBeliever(run, i, p, q, ttl);
    }
  }

  // Whatever the delay: when both have quorum, one of them does not hold the lease, and was displaced
  // less than the delay ago.
  lemma SplitBrainIsBrief(
      run: seq<World>, i: nat, ttl: u64, delay: u64, members: set<NodeId>,
      p: NodeId, seenByP: set<NodeId>, q: NodeId, seenByQ: set<NodeId>)
    requires IsCarefulRun(run, ttl, delay) && i < |run|
    requires p in seenByP && seenByP <= members && q in seenByQ && seenByQ <= members
    requires seenByP !! seenByQ
    requires QuorumWithWitness(|seenByP|, |members|, Believes(run[i], p))
    requires QuorumWithWitness(|seenByQ|, |members|, Believes(run[i], q))
    ensures exists x :: (x == p || x == q) && JustDisplaced(run[i], x, delay)
  {
    BothSidesNeedTheLease(members, seenByP, seenByQ, Believes(run[i], p), Believes(run[i], q));
    var x := if run[i].lease.holder == Some(p) then q else p;
    DisplacedHolderStopsBelieving(run, i, x, ttl, delay);
    assert JustDisplaced(run[i], x, delay);
  }

  ghost predicate JustDisplaced(w: World, x: NodeId, delay: u64) {
    w.lease.holder != Some(x) && x in w.lostAt && w.now < w.lostAt[x] + delay
  }

  // The lease can always be had again: once it is empty or has run out, any node that claims it and
  // hears the answer at once believes that it holds it, for as long as was granted.
  lemma FreeLeaseCanBeTaken(w: World, p: NodeId, ttl: u64, delay: u64) returns (claimed: World, heard: World)
    requires w.lease.holder.None? || w.now >= w.lease.untilMs
    requires w.now + ttl < U64_LIMIT
    ensures Step(w, claimed, ttl, delay) && Step(claimed, heard, ttl, delay)
    ensures heard.now == w.now && heard.lease == Lease(Some(p), w.now + ttl)
    ensures forall later: World | later.views == heard.views ::
              Believes(later, p) <==> later.now < w.now + ttl
  {
    claimed := AfterClaim(w, p, ttl);
    var r := Reply(p, p, w.now);
    assert r in claimed.flight;
    heard := AfterDelivery(claimed, r, ttl);
  }

  // A live lease is renewed by its holder and by nobody else; the others learn who holds it.
  lemma LiveLeaseIsKept(w: World, p: NodeId, ttl: u64)
    requires w.lease.holder.Some? && w.now < w.lease.untilMs && w.now + ttl < U64_LIMIT
    ensures var claimed := AfterClaim(w, p, ttl);
      var heard := AfterDelivery(claimed, Reply(p, w.lease.holder.value, w.now), ttl);
      && claimed.flight == w.flight + {Reply(p, w.lease.holder.value, w.now)}
      && claimed.lease == (if w.lease.holder == Some(p) then Lease(Some(p), w.now + ttl) else w.lease)
      && (Believes(heard, p) <==> w.lease.holder == Some(p) && ttl > 0)
  {
  }

  // ---------- Looking back ----------

  lemma StepRemembers(w: World, w': World, p: NodeId, ttl: u64, delay: u64)
    requires InOrder(w) && Next(w, w', ttl, delay)
    ensures w.now <= w'.now
    ensures p in w.lostAt ==> p in w'.lostAt && w.lostAt[p] <= w'.lostAt[p]
    ensures w.lease.holder == Some(p) != w'.lease.holder ==> p in w'.lostAt && w.now <= w'.lostAt[p]
  {
  }

  // p holds the lease, or was displaced no earlier than at `since`.
  ghost predicate LostSince(w: World, p: NodeId, since: u64) {
    w.lease.holder != Some(p) ==> p in w.lostAt && since <= w.lostAt[p]
  }

  lemma {:induction false} LossIsKept(run: seq<World>, i: nat, j: nat, p: NodeId, since: u64, ttl: u64, delay: u64)
    requires IsCarefulRun(run, ttl, delay) && i <= j < |run| && since <= run[i].now && LostSince(run[i], p, since)
    ensures LostSince(run[j], p, since) && run[i].now <= run[j].now
    decreases j
  {
    if i < j {
      LossIsKept(run, i, j - 1, p, since, ttl, delay);
      CarefulRunIsRun(run, ttl, delay);
      hide Next, IsCarefulRun;
      RunIsInOrder(run, j - 1, ttl, delay);
      StepRemembers(run[j - 1], run[j], p, ttl, delay);
    }
  }

  lemma CarefulRunIsRun(run: seq<World>, ttl: u64, delay: u64)
    requires IsCarefulRun(run, ttl, delay)
    ensures IsRun(run, ttl, delay)
  {
    hide Step, MayForget, AfterWitnessRestart;
  }

  // A node that does not hold the lease has not believed later than the delay after it was displaced.
  lemma BeliefEndsWithLoss(run: seq<World>, i: nat, j: nat, p: NodeId, ttl: u64, delay: u64)
    requires IsCarefulRun(run, ttl, delay) && i <= j < |run|
    requires Believes(run[i], p) && run[j].lease.holder != Some(p)
    ensures p in run[j].lostAt && run[i].now <= run[j].lostAt[p] + delay
  {
    RunKeepsInv(run, i, ttl, delay);
    var since := if run[i].lease.holder == Some(p) then run[i].now else run[i].lostAt[p];
    LossIsKept(run, i, j, p, since, ttl, delay);
  }

  // ---------- What a forgetful witness costs ----------

  // Once the lease has run out the witness may forget it.
  lemma ExpiredMayBeForgotten(run: seq<World>, i: nat, ttl: u64, delay: u64)
    requires IsCarefulRun(run, ttl, delay) && i < |run| && run[i].now >= run[i].lease.untilMs
    ensures MayForget(run[i], ttl, delay)
  {
    RunKeepsInv(run, i, ttl, delay);
  }

  // Some node believes, or a reply sent this instant is about to make one believe.
  ghost predicate SomeoneCounts(w: World, ttl: u64) {
    || (exists p <- w.views :: Believes(w, p))
    || (exists r <- w.flight :: r.holder == r.to && r.sentAt == w.now < SaturatingAdd64(w.now, ttl))
  }

  // Two nodes believe at once, at some point of what follows without a further restart.
  ghost predicate IsPath(path: seq<World>, ttl: u64) {
    path != [] && forall i | 0 <= i < |path| - 1 :: Step(path[i], path[i + 1], ttl, 0)
  }

  ghost predicate TwoBelieve(w: World) {
    exists p, q :: p != q && Believes(w, p) && Believes(w, q)
  }

  ghost predicate MaySplit(w: World, ttl: u64) {
    exists path :: IsPath(path, ttl) && path[0] == w && TwoBelieve(path[|path| - 1])
  }

  lemma {:induction false} PathKeepsInv(path: seq<World>, i: nat, ttl: u64)
    requires IsPath(path, ttl) && Inv(path[0], ttl, 0) && i < |path|
    ensures Inv(path[i], ttl, 0)
  {
    if i > 0 {
      PathKeepsInv(path, i - 1, ttl);
      hide Inv, Step;
      StepKeepsInv(path[i - 1], path[i], ttl, 0);
    }
  }

  // With immediate replies: after a restart two nodes may come to believe at once exactly when, at the
  // restart, some node believed or was about to. For every state that any run can reach.
  lemma RestartMaySplitIff(run: seq<World>, i: nat, ttl: u64)
    requires IsRun(run, ttl, 0) && i < |run|
    ensures MaySplit(AfterWitnessRestart(run[i]), ttl) <==> SomeoneCounts(run[i], ttl)
  {
    var w := run[i];
    RunIsInOrder(run, i, ttl, 0);
    if SomeoneCounts(w, ttl) {
      ForgettingSplits(w, ttl);
    } else {
      RestartKeepsInvIff(w, ttl, 0);
      hide IsRun;
      forall path | IsPath(path, ttl) && path[0] == AfterWitnessRestart(w)
        ensures !TwoBelieve(path[|path| - 1])
      {
        PathKeepsInv(path, |path| - 1, ttl);
      }
    }
  }

  lemma PathGrows(path: seq<World>, w: World, ttl: u64)
    requires IsPath(path, ttl) && Step(path[|path| - 1], w, ttl, 0)
    ensures IsPath(path + [w], ttl)
  {
    hide Step;
  }

  // The holder still believes after the restart, or hears its reply.
  lemma HolderBelieves(w: World, ttl: u64) returns (path: seq<World>, h: NodeId)
    requires InOrder(w) && SomeoneCounts(w, ttl)
    requires forall p <- w.views :: w.views[p].untilMs <= SaturatingAdd64(w.now, ttl)
    ensures IsPath(path, ttl) && path[0] == AfterWitnessRestart(w)
    ensures var u := path[|path| - 1];
      Believes(u, h) && u.lease == Lease(None, 0) && u.now < SaturatingAdd64(u.now, ttl)
  {
    var w0 := AfterWitnessRestart(w);
    if p :| p in w.views && Believes(w, p) {
      path, h := [w0], p;
    } else {
      var r :| r in w.flight && r.holder == r.to && r.sentAt == w.now < SaturatingAdd64(w.now, ttl);
      path, h := [w0, AfterDelivery(w0, r, ttl)], r.to;
    }
  }

  // Then another node claims and hears back.
  lemma ForgettingSplits(w: World, ttl: u64)
    requires InOrder(w) && SomeoneCounts(w, ttl)
    requires forall p <- w.views :: w.views[p].untilMs <= SaturatingAdd64(w.now, ttl)
    ensures MaySplit(AfterWitnessRestart(w), ttl)
  {
    hide Step, Believes, AfterClaim, AfterDelivery, AfterWitnessRestart, InOrder, SomeoneCounts, IsPath;
    var path, h := HolderBelieves(w, ttl);
    NotEmpty(path, ttl);
    var u := path[|path| - 1];
    ClaimAndHear(u, h, ttl);
    var claimed := AfterClaim(u, h + 1, ttl);
    var heard := AfterDelivery(claimed, Reply(h + 1, h + 1, u.now), ttl);
    PathGrows(path, claimed, ttl);
    PathGrows(path + [claimed], heard, ttl);
    var whole := path + [claimed] + [heard];
    assert whole[|whole| - 1] == heard && whole[0] == path[0];
  }

  lemma NotEmpty(path: seq<World>, ttl: u64)
    requires IsPath(path, ttl)
    ensures path != []
  {
  }

  lemma ClaimAndHear(u: World, h: NodeId, ttl: u64)
    requires Believes(u, h) && u.lease == Lease(None, 0) && u.now < SaturatingAdd64(u.now, ttl)
    ensures var claimed := AfterClaim(u, h + 1, ttl);
      var reply := Reply(h + 1, h + 1, u.now);
      var heard := AfterDelivery(claimed, reply, ttl);
      && Step(u, claimed, ttl, 0) && reply in claimed.flight && Step(claimed, heard, ttl, 0)
      && Believes(heard, h) && Believes(heard, h + 1)
  {
  }
}
