// Lease, quorum and fencing together: what two isolated sides run after they tick
// (crates/pertisk-daemon/src/cluster.rs and service.rs).
module SplitBrain {
  import opened Prelude
  import opened Scheduler
  import opened Quorum
  import opened Membership
  import opened Gossip
  import opened Fencing
  import Witness

  // The node's own fields say what it last heard from the witness.
  ghost predicate Shows(inner: Inner, w: Witness.World) {
    if inner.selfId in w.views then
      && inner.witnessHolder == Some(w.views[inner.selfId].holder)
      && inner.witnessUntilMs == w.views[inner.selfId].untilMs
    else inner.witnessHolder == None
  }

  // Hearing an answer keeps the fields in step with the protocol.
  lemma NotedAnswerShows(inner: Inner, w: Witness.World, r: Witness.Reply, ttl: u64)
    requires Shows(inner, w) && r.to == inner.selfId
    ensures Shows(inner.(witnessHolder := Some(r.holder), witnessUntilMs := SaturatingAdd64(w.now, ttl)),
                  Witness.AfterDelivery(w, r, ttl))
  {
  }

  ghost predicate RunsNothing(p: Peer) {
    forall id <- p.vms :: !RunsHere(p.vms[id], p.inner.selfId)
  }

  // A node that is about to decide about fencing, in a world of witness claims and answers.
  ghost predicate Decides(p: Peer, w: Weather, timeout: u64, world: Witness.World) {
    var d := AtDecision(p, w, timeout);
    && Inv(p) && Wellformed(d.inner) && d.inner.haArmed
    && w.now == world.now && Shows(d.inner, world)
  }

  // Two armed nodes of one membership that see no common member tick at one instant: after the ticks
  // at most one of them has a guest on record as running there.
  lemma OneSideRunsGuests(run: seq<Witness.World>, i: nat, ttl: u64, timeout: u64,
                          p: Peer, wp: Weather, q: Peer, wq: Weather)
    requires Witness.IsCarefulRun(run, ttl, 0) && i < |run|
    requires Decides(p, wp, timeout, run[i]) && Decides(q, wq, timeout, run[i])
    requires var (dp, dq) := (AtDecision(p, wp, timeout).inner, AtDecision(q, wq, timeout).inner);
      && dp.members.Keys == dq.members.Keys
      && OnlineIds(dp, wp.now, timeout) !! OnlineIds(dq, wq.now, timeout)
    ensures RunsNothing(AfterTick(p, wp, timeout)) || RunsNothing(AfterTick(q, wq, timeout))
  {
    var (dp, dq) := (AtDecision(p, wp, timeout).inner, AtDecision(q, wq, timeout).inner);
    var seenByP, seenByQ := OnlineIds(dp, wp.now, timeout), OnlineIds(dq, wq.now, timeout);
    assert dp.selfId in seenByP && dq.selfId in seenByQ;
    assert |dp.members| == |dp.members.Keys| && |dq.members| == |dq.members.Keys|;
    hide AtDecision, AfterTick;
    Witness.NoSplitBrain(run, i, ttl, dp.members.Keys, dp.selfId, seenByP, dq.selfId, seenByQ);
    assert !SeesQuorum(dp, wp.now, timeout) || !SeesQuorum(dq, wq.now, timeout);
    TickDecidesByQuorum(p, wp, timeout);
    TickDecidesByQuorum(q, wq, timeout);
  }

  // The tick left guests running here, so the node saw quorum.
  lemma RunningMeansQuorum(p: Peer, w: Weather, timeout: u64, world: Witness.World)
    requires Decides(p, w, timeout, world) && !RunsNothing(AfterTick(p, w, timeout))
    ensures var d := AtDecision(p, w, timeout).inner;
      var seen := OnlineIds(d, w.now, timeout);
      && QuorumWithWitness(|seen|, |d.members.Keys|, Witness.Believes(world, d.selfId))
      && d.selfId in seen && seen <= d.members.Keys
  {
    TickDecidesByQuorum(p, w, timeout);
    hide AtDecision, AfterTick;
    var d := AtDecision(p, w, timeout).inner;
    assert d.selfId in OnlineIds(d, w.now, timeout);
    assert |d.members| == |d.members.Keys|;
  }

  // Two armed nodes of one membership that see no common member tick on their own, at most h apart,
  // and their latest ticks (at i and j) left both with guests running: then one of them does not hold
  // the lease, and was displaced at most h plus the reply delay ago.
  lemma OverlapIsBounded(run: seq<Witness.World>, i: nat, j: nat, now: nat, h: nat, ttl: u64, delay: u64,
                         timeout: u64, p: Peer, wp: Weather, q: Peer, wq: Weather)
    requires Witness.IsCarefulRun(run, ttl, delay) && i <= now < |run| && j <= now
    requires run[now].now <= run[i].now + h && run[now].now <= run[j].now + h
    requires Decides(p, wp, timeout, run[i]) && Decides(q, wq, timeout, run[j])
    requires var (dp, dq) := (AtDecision(p, wp, timeout).inner, AtDecision(q, wq, timeout).inner);
      && dp.members.Keys == dq.members.Keys
      && OnlineIds(dp, wp.now, timeout) !! OnlineIds(dq, wq.now, timeout)
    requires !RunsNothing(AfterTick(p, wp, timeout)) && !RunsNothing(AfterTick(q, wq, timeout))
    ensures exists x :: (x == p.inner.selfId || x == q.inner.selfId) && DisplacedWithin(run[now], x, h, delay)
  {
    RunningMeansQuorum(p, wp, timeout, run[i]);
    RunningMeansQuorum(q, wq, timeout, run[j]);
    DecisionKeepsInv(p, wp, timeout);
    DecisionKeepsInv(q, wq, timeout);
    var (dp, dq) := (AtDecision(p, wp, timeout).inner, AtDecision(q, wq, timeout).inner);
    hide AtDecision, AfterTick, Decides, RunsNothing;
    var (believesP, believesQ) := (Witness.Believes(run[i], dp.selfId), Witness.Believes(run[j], dq.selfId));
    BothSidesNeedTheLease(dp.members.Keys, OnlineIds(dp, wp.now, timeout), OnlineIds(dq, wq.now, timeout),
                          believesP, believesQ);
    if run[now].lease.holder == Some(dp.selfId) {
      Witness.BeliefEndsWithLoss(run, j, now, dq.selfId, ttl, delay);
      assert DisplacedWithin(run[now], dq.selfId, h, delay);
    } else {
      Witness.BeliefEndsWithLoss(run, i, now, dp.selfId, ttl, delay);
      assert DisplacedWithin(run[now], dp.selfId, h, delay);
    }
  }

  ghost predicate DisplacedWithin(w: Witness.World, x: NodeId, h: nat, delay: u64) {
    w.lease.holder != Some(x) && x in w.lostAt && w.now <= w.lostAt[x] + h + delay
  }
}
