// Majority, and the witness lease that breaks a two-node tie (crates/pertisk-daemon/src/cluster.rs).
module Quorum {
  import opened Scheduler

  predicate HasQuorum(online: nat, total: nat) {
    total > 0 && online * 2 > total
  }

  predicate QuorumWithWitness(online: nat, total: nat, holdsLease: bool) {
    HasQuorum(online, total) || (total == 2 && online == 1 && holdsLease)
  }

  lemma DisjointSizes(members: set<NodeId>, a: set<NodeId>, b: set<NodeId>)
    requires a <= members && b <= members && a !! b
    ensures |a| + |b| <= |members|
  {
    assert |a + b| == |a| + |b|;
    SubsetSize(a + b, members);
  }

  lemma {:induction false} SubsetSize(a: set<NodeId>, b: set<NodeId>)
    requires a <= b
    ensures |a| <= |b|
  {
    if a != {} {
      var x :| x in a;
      SubsetSize(a - {x}, b - {x});
    }
  }

  // Two sides that see no common node never both have the majority of one membership.
  lemma OneSideHasMajority(members: set<NodeId>, a: set<NodeId>, b: set<NodeId>)
    requires a <= members && b <= members && a !! b
    ensures !(HasQuorum(|a|, |members|) && HasQuorum(|b|, |members|))
  {
    DisjointSizes(members, a, b);
  }

  // A side has the majority when it outnumbers the rest; with the lease also when it is one of two.
  lemma QuorumIff(members: set<NodeId>, side: set<NodeId>, lease: bool)
    requires side <= members
    ensures HasQuorum(|side|, |members|) <==> |side| > |members - side|
    ensures QuorumWithWitness(|side|, |members|, lease)
       <==> |side| > |members - side| || (lease && |side| == 1 && |members - side| == 1)
  {
    assert members == side + (members - side);
    assert |members| == |side| + |members - side|;
  }

  // With the lease, both sides pass only in a two-node cluster split one to one where each holds it.
  lemma BothSidesNeedTheLease(
      members: set<NodeId>, a: set<NodeId>, b: set<NodeId>, leaseA: bool, leaseB: bool)
    requires a <= members && b <= members && a !! b
    ensures (QuorumWithWitness(|a|, |members|, leaseA) && QuorumWithWitness(|b|, |members|, leaseB))
       <==> |members| == 2 && |a| == 1 && |b| == 1 && leaseA && leaseB
  {
    DisjointSizes(members, a, b);
  }
}
