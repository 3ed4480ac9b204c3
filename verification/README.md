# Verification of the cluster core

A Dafny 4.11 model of the coordination core of this virtualization control plane, with proofs. `dafny verify dfyconfig.toml`
checks all of it.

- `Scheduler`, `Rebalance`, `RebalanceFacts`, `RebalanceService`, `RebalanceOutcome`: where a guest is placed, the planner
  that spreads placement groups, and the service pass that migrates one guest at a time and plans again. Load arithmetic is
  32-bit and saturating, as in the program.
- `Quorum`, `Witness`, `Membership`, `Gossip`, `Fencing`, `SplitBrain`, `HaRecovery`: who may act. Majority and the two-node
  witness lease, the membership a node keeps, inventory snapshots carried by heartbeats, fencing, and restarting a lost node's
  guests. The protocols are state machines over messages, ticks and API calls; theorems are about every run.
- `LiveMigration`, `MigrationReceiver`: the handshake between source and destination with any number of migrate calls for one
  guest at once and messages that are late, lost or left over, and the destination's handlers as single calls.
- `SparseFile`, `Snapshots`, `Retention`: the sparse writer, snapshots over several disks with roll-back, and retention of
  scheduled snapshots.
- `Bits`, `Ipam`, `Allocation`: IPv4 networks on explicit bit operations, address text, and first-free allocation.
- `Lines`, `Repositories`, `ListFile`, `Deb822`, `EnabledField`, `SourcesFile`, `Deb822Facts`: package repository files and
  the edit that turns one repository on or off.
- `Store`, `StoreRuns`: the guest store, and its runs with calls interleaved at their two lock points.
- `Prelude`, `Ids`, `Text`, `Guests`: machine integers, ids, the string functions used, and the records.

Code that changes state is a class or a method with loops, proved against a function of the old state; what that function
guarantees is stated in lemmas. I/O, clocks, hypervisors, storage backends and the network appear as parameters: the time, which
peers answer, and whether a call works, fails, or fails after taking effect.

Where the program falls short of what it is for, the model keeps the program's behaviour and the lemmas give the exact extent: a
rename that races an insert (`StoreRuns.EditsKeepNamesUniqueIff`), a witness that restarts while someone counts on its lease
(`Witness.RestartMaySplitIff`), a migration that meets another call to its destination, whether earlier, under way or started
meanwhile (`LiveMigration.SuccessMeansExecutingIff`, `LiveMigration.OverlapLosesGuest`), a peer's run request that ignores the
fence (`Fencing.PeerRunKeepsInvIff`), a guest snapshot whose failing call had already recorded it
(`Snapshots.FailureRestoresPoolIff`), an `Enabled` field that does not follow the toggle (`EnabledField.RewriteSetsFlagIff`),
and gossip between nodes that disagree at one generation (`Gossip.TwoRoundsLevelIff`).

## Model

| member | source | states |
|---|---|---|
| Scheduler.ScheduleSpreadIsPick | crates/pertisk-daemon/src/cluster.rs:109-191 | The three scheduling layers together compute one rule: among the fitting nodes outside the avoided ones (all fitting nodes if none is left), and among their replica holders if there are any, the preferred node if it is one of them, else the one with the least (score, id); none when nothing fits |
| Scheduler.ScheduleSpreadContract | crates/pertisk-daemon/src/cluster.rs:127-148 | None exactly when no node fits; an avoided node only if every fitting node is avoided; a replica holder whenever the chosen pool has one |
| Scheduler.ScheduleSpreadIsLeast | crates/pertisk-daemon/src/cluster.rs:103-191 | On the nodes' fields: there is an answer exactly when some node fits; it is an eligible node, the preferred one if that is eligible, else the one with the least score and, of equals, the least id |
| Scheduler.FitsIff | crates/pertisk-daemon/src/cluster.rs:67-107 | A node fits exactly when it is online and, in plain arithmetic, has room among eight guest vCPUs a thread and in the memory left after the host's reserve |
| Scheduler.ScoreIs | crates/pertisk-daemon/src/cluster.rs:203-214 | The score is the floor of 1000 times the used vCPU over the threads, plus that of the used memory over what guests may use |
| Scheduler.ScheduleSpreadIgnoresOrder | crates/pertisk-daemon/src/cluster.rs:127-148 | The answer does not depend on the order or repetition of nodes, holders or avoided ids, so survivors with equal views agree |
| Scheduler.ScheduledGuestCanStart | crates/pertisk-daemon/src/cluster.rs:77-82 | A node that fits a guest also passes the start gate, which counts in 64 bits, when its load is what runs there |
| Scheduler.FittingScoreIsExact | crates/pertisk-daemon/src/cluster.rs:203-214 | A node that fits a guest with a vCPU and memory scores below 9000, so the u32 sum of the score is exact |
| Guests.ValidatedGuestsCompareLoads | crates/pertisk-types/src/lib.rs:1285-1296 | A guest that passed validation has a vCPU and 64 MiB, so every node that fits it has an exact score, and the order of the scores is the order of the unwrapped loads |
| Rebalance.RebalancePlan | crates/pertisk-daemon/src/cluster.rs:219-278 | The planning loop terminates and returns the plan that is defined move by move |
| Rebalance.FirstMovable | crates/pertisk-daemon/src/cluster.rs:224-259 | One round: sorting the crowded un-held guests by (node, id) and taking the first with a destination gives the least movable guest |
| Rebalance.MoveFillsOneCell | crates/pertisk-daemon/src/cluster.rs:224-277 | A move occupies exactly one more (group, node) cell and vacates none |
| RebalanceFacts.ReplanIsRest | crates/pertisk-daemon/src/cluster.rs:219-278 | From the state after k moves the planner returns exactly the rest of the plan, for every k |
| RebalanceFacts.PlanFillsCells | crates/pertisk-daemon/src/cluster.rs:224-277 | The number of moves is the number of cells gained, so at most guests minus cells occupied at the start |
| RebalanceFacts.HeldGuestsStay | crates/pertisk-daemon/src/cluster.rs:228-245 | No held guest is ever in the plan |
| RebalanceFacts.AloneNeverMoves | crates/pertisk-daemon/src/cluster.rs:224-277 | A guest alone in its cell is never moved, at any later point of the plan |
| RebalanceFacts.NoGuestMovesTwice | crates/pertisk-daemon/src/cluster.rs:224-277 | No guest appears twice in the plan |
| RebalanceFacts.PlanEmptyIff | crates/pertisk-daemon/src/cluster.rs:224-259 | The plan is empty exactly when no un-held guest sharing a cell has an online node, free of its group, that fits it |
| RebalanceFacts.PlanReachesFixpoint | crates/pertisk-daemon/src/cluster.rs:224-277 | At the end of every plan no such guest is left |
| RebalanceFacts.DestinationIsLeastLoaded | crates/pertisk-daemon/src/cluster.rs:246-259 | The destination is, of all nodes the guest could take, the one with the least (score, id); there is none only if it could take no node |
| RebalanceFacts.LoadsStayBounded | crates/pertisk-daemon/src/cluster.rs:260-277 | At every intermediate state no node's used vCPU or memory is above both its initial value and its capacity |
| RebalanceFacts.TotalsAreConserved | crates/pertisk-daemon/src/cluster.rs:260-277 | When every load covers its guests, the totals of vCPU and memory are the initial ones at every intermediate state |
| RebalanceService.Service.RebalanceGuests | crates/pertisk-daemon/src/service.rs:673-703 | The pass of up to 64 rounds of reading members and store, planning, migrating the first move and replanning, with guests that did not land held back, is the run defined round by round; RebalanceOutcome says on the records what that run does |
| RebalanceService.ReplanReadsNextState | crates/pertisk-daemon/src/service.rs:678-724 | After a migration lands, the placements and loads read from the store again are the planner's own next state |
| RebalanceService.LandingPassFollowsPlan | crates/pertisk-daemon/src/service.rs:673-703 | While every migration lands and the members stay as they are, the pass carries out the one-shot plan in order, up to the round limit, and leaves the store in the planner's state after those moves |
| RebalanceService.LandingPassSpreadsGroups | crates/pertisk-daemon/src/service.rs:673-703 | Such a pass, when the round limit does not cut it off, leaves a store for which the plan is empty |
| RebalanceService.LandingPassFillsCells | crates/pertisk-daemon/src/service.rs:673-703 | However the members' state changes between the rounds, a landing pass gains one cell a move, so it makes at most as many moves as there are guests above occupied cells |
| RebalanceService.LandingPassLeavesAloneAlone | crates/pertisk-daemon/src/service.rs:673-703 | However the members' state changes, a guest alone in its cell, such as one already moved, is not tried in the rest of a landing pass |
| RebalanceService.HeldGuestsAreNotRetried | crates/pertisk-daemon/src/service.rs:678-699 | However the migrations end, also with an error after the record was rewritten: a guest that did not land is not tried again, and nothing but a tried guest's node and state changes |
| RebalanceOutcome.RoundIs | crates/pertisk-daemon/src/service.rs:678-724 | On the members' and the records' fields, each round: of the un-held running guests that share a node with their group and that some online member without the group and with room would take, the first by (node, id) goes to the least loaded such member, and the pass ends exactly when there is none |
| RebalanceOutcome.TriedMovesAre | crates/pertisk-daemon/src/service.rs:673-703 | Every move any pass tries is that one, on the members and the store of its round |
| RebalanceOutcome.FinishedPassLeavesNobody | crates/pertisk-daemon/src/service.rs:673-703 | However the migrations end and the members change: a pass that the round limit does not cut off ends with no un-held guest that shares its node with its group and that some member would take; when all land, nobody is held |
| RebalanceOutcome.RoundLeaves | crates/pertisk-daemon/src/service.rs:684-699 | What each round leaves in the store, by how its migration ended, and whether the guest counts as moved or is held back |
| RebalanceOutcome.UnlandedIsNotRetried | crates/pertisk-daemon/src/service.rs:684-699 | A guest whose migration ended anywhere but on the planned node is not tried again in the pass |
| RebalanceService.ServiceInputCovers | crates/pertisk-daemon/src/service.rs:4298-4319 | The loads read from the store cover the placed guests, when the 32-bit sums do not wrap and every such guest is on a member |
| RebalanceService.PassConservesTotals | crates/pertisk-daemon/src/service.rs:678-724 | So the totals of vCPU and memory are conserved along every plan made from the store |
| Quorum.OneSideHasMajority | crates/pertisk-daemon/src/cluster.rs:27-31 | Two disjoint online views of one membership never both have the majority |
| Quorum.QuorumIff | crates/pertisk-daemon/src/cluster.rs:27-35 | A side has quorum exactly when it outnumbers the rest of the membership, or is one of two and holds the lease |
| Quorum.BothSidesNeedTheLease | crates/pertisk-daemon/src/cluster.rs:27-35 | With the lease both sides pass exactly when the cluster has two members, each side sees one, and each holds the lease |
| Witness.WitnessLease.Claim | crates/pertisk-daemon/src/cluster.rs:44-56 | An empty or expired lease goes to the claimant for the given time, the live holder's claim renews it, anybody else's claim changes nothing; the answer is the holder after the claim |
| Witness.FreeLeaseCanBeTaken | crates/pertisk-daemon/src/cluster.rs:44-56 | From every state with an empty or expired lease, a claim by any node and its immediate answer make that node believe, for as long as was granted |
| Witness.LiveLeaseIsKept | crates/pertisk-daemon/src/cluster.rs:44-56 | A live lease is renewed by its holder and by nobody else, and a claimant that hears the answer believes exactly when it is the holder |
| Witness.RunKeepsInv | crates/pertisk-daemon/src/cluster.rs:44-56 | Over every run of claims, delayed or lost replies, node restarts, and witness restarts at which it may forget: whatever end a node was promised is covered by the live lease, or by the instant it was displaced, plus the reply delay |
| Witness.DisplacedHolderStopsBelieving | crates/pertisk-daemon/src/cluster.rs:890-899 | A node that is not the holder but believes it is was displaced less than the reply delay ago |
| Witness.TakeoverSilencesOldHolder | crates/pertisk-daemon/src/cluster.rs:44-56 | While the witness does not restart, a takeover happens only after the old lease expired, and from the delay after it the old holder no longer believes |
| Witness.AtMostOneBeliever | crates/pertisk-daemon/src/cluster.rs:896-913 | With immediate replies at most one node believes it holds the lease, in every such run |
| Witness.NoSplitBrain | crates/pertisk-daemon/src/cluster.rs:33-56 | With immediate replies two nodes with disjoint online views never both have quorum, for every cluster size |
| Witness.SplitBrainIsBrief | crates/pertisk-daemon/src/cluster.rs:33-56 | With any reply delay: when two nodes with disjoint online views both have quorum, one of them does not hold the lease and was displaced less than the delay ago |
| Witness.RestartMaySplitIff | crates/pertisk-daemon/src/service.rs:630-635 | The lease is in memory only. For every state any run can reach, with immediate replies: after a witness restart two nodes can come to believe at once exactly when some node believed at the restart, or a reply sent that instant was about to make one believe |
| Witness.RestartKeepsInvIff | crates/pertisk-daemon/src/service.rs:630-635 | For every reply delay: a restart keeps the protocol's invariant exactly when no node counts on the lease for longer than the delay and no reply still to arrive grants more time |
| Witness.ExpiredMayBeForgotten | crates/pertisk-daemon/src/service.rs:630-635 | A lease that has run out may be forgotten |
| SplitBrain.OneSideRunsGuests | crates/pertisk-daemon/src/service.rs:4678-4693 | With immediate replies, two armed nodes of one membership that see no common member and tick at one instant: after the ticks at most one of them has a guest on record as running there |
| SplitBrain.OverlapIsBounded | crates/pertisk-daemon/src/service.rs:4678-4693 | Two such nodes ticking on their own, at most h apart, with any reply delay: if the latest ticks left both with guests running, one of them does not hold the lease and was displaced at most h plus the delay ago |
| SplitBrain.NotedAnswerShows | crates/pertisk-daemon/src/cluster.rs:890-894 | Noting the witness's answer keeps the node's own fields equal to what the protocol says it last heard |
| Membership.Cluster.ApplyMembership | crates/pertisk-daemon/src/cluster.rs:1006-1063 | The member list, generation and flags after a snapshot, forced or not |
| Membership.AdoptionFollowsTheList | crates/pertisk-daemon/src/cluster.rs:1016-1063 | After adoption the members are exactly those listed plus the node itself; peers that stay keep their last-seen time, new ones start unseen |
| Membership.AdoptionKeepsPeersOnline | crates/pertisk-daemon/src/cluster.rs:1016-1063 | A peer that was online and is listed is online after the adoption |
| Membership.HeardIsOnline | crates/pertisk-daemon/src/cluster.rs:535-537 | A peer that is heard from counts as online until the timeout has passed, with the record it sent; nobody else's standing changes |
| Membership.Cluster.RemoveMember | crates/pertisk-daemon/src/cluster.rs:991-1004 | Forgetting a peer removes it, raises the generation and lifts the fence; forgetting oneself or a stranger changes nothing |
| Gossip.Service.ApplySnapshot | crates/pertisk-daemon/src/service.rs:4504-4518 | Membership from an equal or newer snapshot, inventory only from a strictly newer one |
| Gossip.Service.OnHeartbeat | crates/pertisk-daemon/src/service.rs:4638-4656 | The receiver's whole state after a heartbeat, when it answers, and that the answer is its state |
| Gossip.RemoteInventoryIsNewer | crates/pertisk-daemon/src/service.rs:4504-4518 | Over any sequence of messages the generation never drops, and the inventory changes only together with it, to that of a message with the final generation |
| Gossip.NewerNeedsCarrier | crates/pertisk-daemon/src/service.rs:4504-4518 | A raised generation is always that of a received message, with its inventory |
| Gossip.ExchangeLevels | crates/pertisk-daemon/src/service.rs:5135-5183 | One exchange leaves both nodes at the higher generation with that node's inventory; at equal generations neither inventory moves |
| Gossip.HeartbeatShowsSender | crates/pertisk-daemon/src/service.rs:4638-4656 | A node that hears a heartbeat counts the sender as online |
| Gossip.HeartbeatAdopts | crates/pertisk-daemon/src/service.rs:4638-4656 | A node that hears a newer snapshot takes its name, secret, arming and members, and is no longer fenced |
| Gossip.AnswerShowsPeer | crates/pertisk-daemon/src/service.rs:5135-5183 | A sender whose call was answered counts the peer as online, while it is a member |
| Gossip.SendHeartbeats | crates/pertisk-daemon/src/service.rs:5135-5183 | A round posts one message to every peer in turn: each reachable peer is levelled with the sender, the sender ends at the top of those it reached, nobody else changes |
| Gossip.RoundFromTheTop | crates/pertisk-daemon/src/service.rs:5135-5183 | A sole top-generation sender brings every reachable peer to its inventory |
| Gossip.TwoRoundsLevelIff | crates/pertisk-daemon/src/service.rs:5135-5183 | Two rounds of one node level the whole group exactly when its top-generation nodes agreed to begin with |
| Fencing.Node.FenceLocal | crates/pertisk-daemon/src/service.rs:4942-4955 | Exactly this node's running guests are stopped |
| Fencing.Node.DecideFence | crates/pertisk-daemon/src/service.rs:4678-4693 | The fence flag and the records after the fencing step of a tick |
| Fencing.FencedNodeRunsNothing | crates/pertisk-daemon/src/service.rs:4658-4722 | Over every run of ticks, API calls, heartbeats, snapshots, joins and membership changes: a node whose fence flag is set owns no running record |
| Fencing.TickDecidesByQuorum | crates/pertisk-daemon/src/service.rs:4678-4693 | A tick of an armed node sets the flag exactly when it has no quorum, and then no guest runs here; a disarmed node is never newly fenced |
| Fencing.WitnessBreaksTheTie | crates/pertisk-daemon/src/service.rs:4725-4756 | One of two members that sees only itself has quorum at the tick exactly when the witness grants it the lease, or, if the witness does not answer, while an earlier grant lasts |
| Fencing.OnlyATieAsks | crates/pertisk-daemon/src/service.rs:4732-4734 | With another number of members, or with a majority, the witness is not asked and nothing changes |
| Fencing.TickTidiesRecords | crates/pertisk-daemon/src/service.rs:4911-4940 | A tick without quorum that does not fence anew stops exactly the records that say Running here and whose process is gone |
| Fencing.GateTurnsAway | crates/pertisk-daemon/src/service.rs:4288-4296 | Without quorum, or while fenced, an API call that changes the cluster changes nothing |
| Fencing.MajorityElsewhereStopsGuests | crates/pertisk-daemon/src/service.rs:4678-4693 | If the members an armed node does not see form a majority, its next tick fences it and leaves nothing running |
| Fencing.PeerRunKeepsInvIff | crates/pertisk-daemon/src/service.rs:2716-2743 | The peer run handler does not look at the fence: it keeps the invariant exactly when the node is not fenced or the guest did not start |
| HaRecovery.VolumeAffinity | crates/pertisk-daemon/src/service.rs:4450-4472 | The result is the intersection of the replica holders of the disks that tie the guest, and empty when none does |
| HaRecovery.DurableGuestHasNoAffinity | crates/pertisk-daemon/src/service.rs:6029-6041 | A guest whose disks are all RBD, or that has none, is tied to no node |
| HaRecovery.RestartNodeIsAlive | crates/pertisk-daemon/src/service.rs:4998-5004 | The restart node exists exactly when some node fits, is online, and is never the lost owner |
| HaRecovery.RestartNodeIsBest | crates/pertisk-daemon/src/service.rs:4998-5004 | On the records as they are at that guest's turn: the restart node fits, hosts another guest of the group only if every fitting node does, and has the least (score, id) of such nodes |
| HaRecovery.SurvivorsPickTheSameNode | crates/pertisk-daemon/src/service.rs:4998-5004 | Survivors with the same records and node view, in whatever order, pick the same node |
| HaRecovery.Node.RecoverHa | crates/pertisk-daemon/src/service.rs:4957-5059 | The pass over the list read at the start, guest by guest, is the recovery function applied in turn, whose choice of node is HaRecovery.RestartNodeIsBest |
| HaRecovery.RecoveryPassSettlesEveryGuest | crates/pertisk-daemon/src/service.rs:4957-5059 | After the pass every guest that was not lost is unchanged; a lost one is Failed, untouched because nothing fits, or running on that best node, which is online and not its old one |
| HaRecovery.SurvivorsRecoverAlike | crates/pertisk-daemon/src/service.rs:4957-5059 | Two survivors whose loads list the same nodes in any order leave the same records |
| LiveMigration.AtMostOneExecutor | crates/pertisk-daemon/src/service.rs:2839-3046 | In every run, with delayed, lost and left-over messages and any number of overlapping calls, the guest executes on at most one node at every step |
| LiveMigration.DropFollowsResume | crates/pertisk-daemon/src/service.rs:2933-2954 | The source is dropped only once the call that sent the guest has had its finish call answered with success; its destination is then the owner, and executes the guest exactly unless an incoming call or an abort made it drop the guest |
| LiveMigration.DropNeedNotFollowRun | crates/pertisk-daemon/src/service.rs:2956-3038 | That exception occurs from every reachable state with the guest on its source: a further call replaces the process before the resume, which the new process may accept, and the source is dropped for a guest that has run nowhere else |
| LiveMigration.FailureLeavesGuestOnSource | crates/pertisk-daemon/src/service.rs:2839-2927 | While no step was a migrate_to that succeeded, whatever else failed, the guest executes on the source alone, which owns it |
| LiveMigration.SuccessMeansExecutingIff | crates/pertisk-daemon/src/service.rs:2839-3046 | From every reachable state with the guest on its source, for a call after which no other one to its destination starts: a reported success means that the guest executes there, whatever else happens, exactly when at the start no message was on its way to that destination and no other call to it could still send one |
| LiveMigration.OverlapLosesGuest | crates/pertisk-daemon/src/service.rs:2772-2793 | No lock keeps a second call out: from every such state, however calm, one further call to the destination can make the first report success for a guest that executes nowhere |
| LiveMigration.FailureLeavesAbort | crates/pertisk-daemon/src/service.rs:2866-2924 | One call that is given up can leave an abort on its way to the next one, from every reachable state |
| MigrationReceiver.Receiver.ApplyIncoming | crates/pertisk-daemon/src/service.rs:2956-3007 | The call changes its guest as the protocol's listen step does for that outcome, and no other guest |
| MigrationReceiver.Receiver.FinishIncoming | crates/pertisk-daemon/src/service.rs:3009-3038 | Undisturbed, the call is the protocol's read, start and commit steps in a row; either way the entry is gone afterwards; without an entry it is an error and changes nothing |
| MigrationReceiver.Receiver.AbortIncoming | crates/pertisk-daemon/src/service.rs:3040-3046 | The call is the protocol's abort step: nothing without an entry |
| SparseFile.WriteSparseChunk | crates/pertisk-daemon/src/service.rs:5895-5917 | The file is the dense append of the chunk, cursor, count and length agree, and exactly the bytes of blocks that are not all zero take up space |
| SparseFile.OccupiedIs | crates/pertisk-daemon/src/service.rs:5895-5917 | A byte of a chunk takes up space exactly when some byte of its 64 KiB block is not zero |
| SparseFile.StreamToFile | crates/pertisk-daemon/src/service.rs:5878-5893 | The file is the concatenation of the chunks that arrived, however they were cut; the count is its length; a broken stream returns its first error |
| SparseFile.ConcatOfJoined | crates/pertisk-daemon/src/service.rs:5878-5893 | Joining two neighbouring chunks makes no difference to the file |
| Snapshots.VolumePool.Snapshot | crates/pertisk-storage/src/lib.rs:647-700 | The pool after a snapshot call: the record is appended, or nothing changes, also when the call fails after recording |
| Snapshots.VolumePool.Delete | crates/pertisk-storage/src/lib.rs:750-789 | Removing the first record of a name, or all of them, is the same, since names are unique per volume |
| Snapshots.CreateVmSnapshot | crates/pertisk-daemon/src/service.rs:1655-1711 | When the call succeeds, and what it leaves in the pool in every case, given what each backend call does; after a success exactly the volumes that some disk but a CD drive names have gained one snapshot of the name, and the records returned are those disks', in their order |
| Snapshots.AdmittedIff | crates/pertisk-daemon/src/service.rs:1660-1686 | The call goes ahead exactly with quorum, a name, a guest that is no template and has a data disk, and every data disk's volume there and without the name |
| Snapshots.SuccessTagsEveryDisk | crates/pertisk-daemon/src/service.rs:1688-1711 | Success adds the name to every data disk, at that disk's creation time, and touches no other volume |
| Snapshots.LeftoverIs | crates/pertisk-daemon/src/service.rs:1695-1708 | After a failure the name is left exactly on the disks whose clean-up delete did nothing, and on the failing disk if its snapshot was recorded before the call failed |
| Snapshots.FailureRestoresPoolIff | crates/pertisk-daemon/src/service.rs:1695-1708 | A failed call leaves the pool as it was exactly when the failing step had recorded nothing and every clean-up delete took effect; a call that fails after recording (inventory or cluster file) breaks the all-or-nothing promise |
| Retention.PruneScheduledSnapshots | crates/pertisk-daemon/src/service.rs:1510-1537 | Only snapshots named `sched-...` on the guest's data disks, and of no kept name, are lost, and after a success none of those is left; the kept names are the `keep` last made; keep 0 and a missing volume change nothing |
| Retention.DeleteNamedSnapshot | crates/pertisk-daemon/src/service.rs:1539-1571 | One name goes from every disk, or an error leaves nothing lost but that name |
| Retention.MergeDisk | crates/pertisk-daemon/src/service.rs:1521-1531 | The merge loop keeps one entry per name at its latest creation over all disks so far |
| Retention.KeepsTheNewest | crates/pertisk-daemon/src/service.rs:1533-1536 | The kept names are min(keep, all), and every kept one was made later than every dropped one, or at the same time with the greater name |
| Retention.PrunedDiskHas | crates/pertisk-daemon/src/service.rs:1539-1571 | A kept name stays on every disk that had it, a dropped one on none, and no other snapshot is touched |
| Ipam.ContainsIsInterval | crates/pertisk-net/src/ipam.rs:14-36 | A normal network contains exactly the addresses from its network address to its broadcast address (section 3.1 of RFC 4632) |
| Ipam.BroadcastIs | crates/pertisk-net/src/ipam.rs:34-36 | The broadcast address is the network address plus the size minus one |
| Ipam.OverlapsIffShared | crates/pertisk-net/src/ipam.rs:22-28 | Two normal networks overlap exactly when some address is in both |
| Ipam.ParseIpv4ByShifts | crates/pertisk-net/src/ipam.rs:77-93 | The shift-and-or loop returns the positional value of exactly four valid octets, and an error otherwise |
| Ipam.ParseIpv4Iff | crates/pertisk-net/src/ipam.rs:77-93 | A text parses exactly when it is four dotted parts that each parse as a byte, and to their value |
| Ipam.ParseOfPrinted | crates/pertisk-net/src/ipam.rs:77-103 | Parsing a printed address gives it back, for every u32 |
| Ipam.ParseOfCidrString | crates/pertisk-net/src/ipam.rs:38-75 | Parsing a printed network gives it back |
| Ipam.ParsedIsNormal | crates/pertisk-net/src/ipam.rs:61-75 | A parsed network is normal and contains the address it was written with |
| Allocation.Allocate | crates/pertisk-net/src/ipam.rs:42-58 | The least address in [network + 2, broadcast - 1] that is neither gateway nor used; exhausted exactly when there is none; the increment never overflows |
| Allocation.AnswerIs | crates/pertisk-net/src/ipam.rs:42-58 | The answer on the inputs: an unreadable gateway is the error; else the least address from the third to the last but one that is neither the gateway nor written among the used, and exhausted exactly when there is none |
| Allocation.SessionExhaustsPool | crates/pertisk-net/src/ipam.rs:42-58 | Feeding the answers back as used gives free addresses in ascending order, and the pool is exhausted exactly when all that were free at the start have been given |
| Allocation.PoolSize | crates/pertisk-net/src/ipam.rs:42-58 | A /p network with p at most 30 has 2^(32-p) - 3 addresses to give, one fewer if the gateway is among them |
| Allocation.TinyNetworkIsExhausted | crates/pertisk-net/src/ipam.rs:42-58 | A /31 or /32 network never has an address to give |
| ListFile.ParseListFile | crates/pertisk-daemon/src/updates.rs:763-796 | The line loop lists the repositories of the lines that hold one |
| ListFile.SetListEnabled | crates/pertisk-daemon/src/updates.rs:906-933 | The text with the line of the repository's id rewritten, or an error exactly when no line has that id |
| ListFile.ToggleLineIs | crates/pertisk-daemon/src/updates.rs:906-933 | What the toggle makes of a repository line, as it stands or commented out, with blanks around it |
| ListFile.DebLineParses | crates/pertisk-daemon/src/updates.rs:763-818 | A line of kind, bracketed options and words parses to the kind, its first word as URI, the second as suite and the rest as components; commented out, to the same switched off |
| ListFile.ToggleCommutesWithParse | crates/pertisk-daemon/src/updates.rs:763-933 | For every text and every repository found in it, parsing the toggled text gives the same repositories and ids with only that flag set as asked |
| Deb822.SplitStanzas | crates/pertisk-daemon/src/updates.rs:857-876 | The stanzas are the runs of lines that are not blank |
| Deb822Facts.GroupsAreRuns | crates/pertisk-daemon/src/updates.rs:857-876 | The stanzas are exactly the longest runs of lines that are not blank, in order |
| Deb822.ParseFields | crates/pertisk-daemon/src/updates.rs:878-904 | The field loop reads keys, values and continuation lines as the reader function does |
| Deb822Facts.StanzaParses | crates/pertisk-daemon/src/updates.rs:878-904 | A stanza written field by field, one of them over several lines, parses to those fields, continuation lines joined with blanks |
| Deb822Facts.StanzaIsRepository | crates/pertisk-daemon/src/updates.rs:820-855 | So it is the repository with the kind, URIs, suites and components written, on unless the flag is no or false in any letters |
| Deb822.RewriteEnabledField | crates/pertisk-daemon/src/updates.rs:962-978 | Every Enabled line is replaced, or one is appended when there is none |
| Deb822Facts.RewriteIs | crates/pertisk-daemon/src/updates.rs:962-978 | Exactly the lines that begin with `enabled:`, in whatever letters, are replaced, and a line is added at the end when there is none |
| EnabledField.RewriteKeepsOtherFields | crates/pertisk-daemon/src/updates.rs:962-978 | The rewrite leaves every field not named enabled (in any case of letters) as it was, for every stanza |
| EnabledField.RewriteSetsFlagIff | crates/pertisk-daemon/src/updates.rs:878-978 | The flag read after the rewrite is the one asked for exactly when no Enabled line existed, or the last word is a rewritten line's and a `no` is not continued, or it is another line's that already says so |
| EnabledField.AskedToggleTakesIff | crates/pertisk-daemon/src/updates.rs:238-263 | When the flag asked for differs from the current one, the only time the toggle runs, it takes exactly when the stanza has no Enabled line, or a rewritten one has the last word and a `no` is not continued |
| EnabledField.PlainStanzaTakes | crates/pertisk-daemon/src/updates.rs:962-978 | A stanza with one single-line Enabled field meets that condition |
| EnabledField.ContinuedNoStaysOn | crates/pertisk-daemon/src/updates.rs:962-978 | A stanza that stays enabled after it was disabled: its Enabled line is continued |
| SourcesFile.ParseDeb822File | crates/pertisk-daemon/src/updates.rs:820-855 | The file's repositories, one per stanza whose types name deb or deb-src |
| SourcesFile.SetDeb822Enabled | crates/pertisk-daemon/src/updates.rs:935-960 | The text rebuilt from the stanzas with the addressed one rewritten, or an error when the id addresses none |
| SourcesFile.ToggleCommutesWithParseIff | crates/pertisk-daemon/src/updates.rs:820-978 | For every text and repository in it, parsing the toggled text gives the same repositories and ids; only the target's flag can differ, and it is the one asked for exactly under the condition on its stanza |
| SourcesFile.SetReachesRepository | crates/pertisk-daemon/src/updates.rs:935-960 | Setting a listed repository by its id succeeds, rewrites the stanza it was listed under, and has exactly that effect on the parsed repositories |
| SourcesFile.ResplitKeepsOthersIff | crates/pertisk-daemon/src/updates.rs:857-960 | Splitting the toggled text gives the same number of stanzas, the rewritten one in its place, and another one unchanged exactly when no line of it ends in a carriage return |
| Store.NextNumeric | crates/pertisk-daemon/src/store.rs:188-204 | The least free number from 100 to 9999999999 while there is one, else a new UUID |
| Store.ReplaceAllIs | crates/pertisk-daemon/src/store.rs:107-116 | Of the records of one id in a snapshot the last one counts |
| Store.Store.InsertUnique | crates/pertisk-daemon/src/store.rs:68-91 | Name taken and id taken errors exactly when they are, else the record is added under the requested or next id, and the file written |
| Store.Store.Update | crates/pertisk-daemon/src/store.rs:93-105 | A missing id changes nothing; a live record is patched in place and the file written |
| Store.Store.ReplaceWith | crates/pertisk-daemon/src/store.rs:107-116 | The map becomes exactly the given records, and the file is written |
| StoreRuns.InsertIsNew | crates/pertisk-daemon/src/store.rs:68-91 | The operation that InsertUnique's contract gives takes an id and a name that no live record has, and loses no record |
| StoreRuns.ChangeIsUniqueIff | crates/pertisk-daemon/src/store.rs:57-125 | A change to a unique store keeps ids and names unique exactly when it stores no record under another id and gives none a name that another one has |
| StoreRuns.RunIsUniqueIff | crates/pertisk-daemon/src/store.rs:57-131 | In every interleaving: ids and names are unique throughout exactly when every change was of that kind at its own lock point |
| StoreRuns.EditsKeepNamesUniqueIff | crates/pertisk-daemon/src/service.rs:851-911 | In every run of inserts, edits that check under one lock and write under another, deletes, patches and snapshots: ids and names are unique throughout exactly when no edit's name was taken, and kept, between its check and its write |
| StoreRuns.PlainTakeIsInsert | crates/pertisk-daemon/src/service.rs:851-911 | Snapshots and other edits aside, only an insert can take a name |
| StoreRuns.RenameRace | crates/pertisk-daemon/src/service.rs:860-909 | From every unique store, editing any guest to a free name while an insert of that name gets in between ends with two guests of the name |
| StoreRuns.DiskIsNotOlderThanReturnedCall | crates/pertisk-daemon/src/store.rs:57-134 | In every interleaving, once a call has returned the file holds the map of some lock point no earlier than that call's own change |
| StoreRuns.QuietStoreIsOnDisk | crates/pertisk-daemon/src/store.rs:127-134 | With no call under way and no failed write the file and the memory map agree |

## Left out

- Replica placement, placement when a guest is defined, and the non-live migrate path, which starts the destination before it
  drops the source.
- Writing the cluster file and the volume inventory: their failures appear only as outcomes of the snapshot calls. Generations
  are unbounded numbers.
- Peer addresses, the peer secret and its check: a peer that rejects a call counts as unreachable.
- RebalanceService.LandingPassFollowsPlan: assumes that the members' state does not change over the pass, that the store lists
  each guest once, that the 32-bit load sums do not wrap, and that nothing else writes to the store between rounds. The members
  are read anew in every round, as in the program; what holds when they change is in RebalanceService.LandingPassFillsCells. The
  quorum check in front of the pass is not repeated.
- Gossip.TwoRoundsLevelIff: rounds of one sender with no writes in between; rounds of several senders at once are not modelled,
  and neither is the order of the lists in a snapshot.
- Witness.NoSplitBrain: a common clock and immediate replies; with a delay d the overlap is bounded by d
  (Witness.SplitBrainIsBrief, Witness.TakeoverSilencesOldHolder).
- SplitBrain.OneSideRunsGuests: both nodes tick at one instant; between two ticks of a node its lease may run out unnoticed, for
  which SplitBrain.OverlapIsBounded gives the bound. Both are about the records the ticks leave.
- Fencing.FencedNodeRunsNothing: steps are atomic, and the peer run, stop, restart and incoming handlers are outside the runs
  (Fencing.PeerRunKeepsInvIff shows why). API calls may leave any state that does not set or clear the fence flag.
- HaRecovery.RecoveryPassSettlesEveryGuest: loads are read once, as in the program, so the capacity of a node that several guests
  of one pass restart on is not claimed.
- LiveMigration.AtMostOneExecutor: the coordinators run on the guest's node, and the hypervisor stops the source exactly when
  migrate_to succeeds. An incoming call that replaces the destination's process and records its entry is one step. Progress under
  message loss is not claimed.
- LiveMigration.DropFollowsResume: does not promise that the guest ever ran on the destination when its process was replaced
  before the resume, because a process without the guest may accept the resume (LiveMigration.DropNeedNotFollowRun).
- StoreRuns.EditsKeepNamesUniqueIff: records that peers send to be run or stopped are stored without a check and are outside
  these runs; StoreRuns.RunIsUniqueIff covers them.
- Snapshots.CreateVmSnapshot: a guest running on another node, whose volumes are snapshotted by a call to that node, is not
  modelled; notes and paths of snapshots are not kept.
- SparseFile.WriteSparseChunk: write errors of the file itself, and file lengths of 2^64 and more.
- Store: opening and quarantining a corrupt file, and the temporary file behind the atomic write.
- ListFile.ToggleCommutesWithParse: one file at a time; which files are read, in which order, and dnf repositories are not
  modelled. SourcesFile.SetReachesRepository covers texts of fewer than 2^64 characters.
- HTTP, web sockets, terminals, TLS, mail, metrics, users and tokens, the installer, the web interface and Terraform: no hard
  invariant of their own.
