# Gossip, wire format and routing of Acki Nacki: a verified model

This project models, in Dafny 4.11, the parts of the Acki Nacki node that keep a cluster in agreement, and proves what
they promise.

* **Gossip.** Every node owns a versioned key-value map. Peers hold replicas of it and bring them up to date with
  digests and deltas (`Syn`, `SynAck`, `Ack`). Deleted keys become tombstones, tombstones are collected, and a replica
  that missed a collection is reset. The model is a transition system over any number of peers and a network that
  loses, delays, duplicates and reorders messages. The truth is the owner's *log*: the sequence of records it wrote, the
  record at position `i` having version `i + 1`. A state *replicates* a log when it holds only written records, holds
  the current record of every key it is not behind on, and lacks only records that are scheduled for deletion and at
  most its `last_gc_version`.
* **Wire format.** Streams of items cut into blocks that are compressed or stored, the operations of a delta, digests,
  messages, and the length bound that keeps a delta within a payload limit.
* **Failure detection and removal** of dead nodes.
* **Key derivation** for PKCS#12, **relaying** through proxies, **subscription** planning, **listeners**, the **bitmask
  table** of routes and **sortable strings**.

State that the source updates in place is a class whose methods are proved against functions on values; the theorems
are about those functions and about runs of them. Proofs use Dafny's `hide` statement to keep definitions that a proof
does not need out of it.

## What the proofs found

* The message "received an inapplicable delta, ignoring it" (`chitchat/src/state.rs:182-189`) is logged, but the function
  goes on and may reset the state. The sender compares with `<`, the receiver with `>`, so a replica that stands exactly
  at the owner's `last_gc_version` is sent an increment and resets on it. `Handshake.BoundaryHandshake` says exactly when
  that loses records, `Counterexamples.BoundaryHandshakeLosesLiveKey` is a run, and
  `Replication.DeliveryKeepsReplicaExactly` is the condition for any delta and any replica.
* The test "does not bring us to a fresher state" (`chitchat/src/state.rs:205-218`) can never succeed
  (`NodeRuns.FreshnessTestNeverFires`).
* With key collection on, a delta from a third node can bring a deleted key back for good, and a late answer can reset
  the owner's own state, after which versions are used twice (runs of the whole cluster: `ExampleRuns.ThirdPartyRun`,
  `ExampleRuns.LateAnswerRun`). A message changes what a peer holds of itself exactly if it resets it
  (`Scuttlebutt.OwnStateChangesExactly`). Even then the versions within a state stay distinct, so the assertion on the
  delta builder holds in every run (`Numbering.EveryRunIsNumbered`).
* `NodeDelta.max_version` is ignored unless the delta resets. A replica whose owner has collected its newest record can
  therefore hold everything and never reach the owner's `max_version`; the owner goes on sending it empty deltas
  (`Handshake.WholeHandshakeCatchesUpExactly`, `Counterexamples.ReplicaStaysBehind`).
* Two replicas with the same `max_version` that collected nothing need not hold the same keys
  (`Counterexamples.EqualVersionsDifferentKeys`). They do if and only if no key written up to that version was written
  again later (`Replication.EqualVersionsAgreeExactly`).
* However short its deltas are cut, a replica has everything of a quiet owner after as many handshakes as the owner has
  keys (`CatchUp.EveryRunCatchesUp`).
* `serialized_len_upperbound_after` is an upper bound exactly when the pending bytes and the item fit into two blocks
  (`Streams.UpperboundExact`).
* The length assertion in `Delta::serialize` holds for every limit of at least 100, not only for limits of at least
  16384: a shorter limit never fills a block.
* Whatever is accepted under a limit stays within it exactly for limits of at most 2 * 16384 + 7 bytes
  (`PayloadLimits.LimitKeptExactly`). The payload size of the UDP transport, 65507, is above that: an operation longer than a
  block can break the limit.
* The header has 4 bytes and one is set aside for it. Under a payload size of 101 an `Ack` can have 104 bytes
  (`PayloadLimits.OverlongAck`). An answer fits exactly if its delta leaves 3 bytes of its limit
  (`Chitchats.AnswerFitsExactly`), and 16392 is the only payload size that every `Ack` fits
  (`PayloadLimits.EveryAckFitsExactly`).
* A dead node can become live again without a new heartbeat of its own: a digest with its last heartbeat is news to a
  peer whose view lags behind (`Revival.RevivedExactly`). Over digests alone it stays dead if and only if no heartbeat
  can be news to the peer any more, or just one can and it comes too late (`Revival.StaysDeadExactly`). A reset sets the
  heartbeat to 0 and makes old heartbeats news again, so with deltas it stays dead in every history if and only if it
  never had a second heartbeat (`Revival.StaysDeadUnderResetsExactly`). Once the heartbeats have converged, removal is
  final if and only if the peers declared the node dead within half the grace period minus the message delay
  (`Revival.RemovalIsFinalExactly`).
* Watchers of live nodes are told of nodes that join, leave or change their `max_version`, and of nothing else: keys
  that are collected go unnoticed (`Watchers.WatchersHearExactly`, `Watchers.CollectionIsNotNotified`).
* A group without addresses is scheduled for subscription in every round (`Subscriptions.RoundsSettleExactly`).
* `trigger_event` panics exactly for keys whose first character is not a single byte
  (`Listeners.InnerListeners.TriggerEvent`).
* A node can get its own broadcast back, over two proxies (`Relay.OwnMessageComesBackExactly` says exactly when).

## Files

| file | module | contents |
|---|---|---|
| Types.dfy | ChitchatTypes | records, statuses, deltas, digests, messages |
| NodeState.dfy | NodeStates | one node's state: writes, collection, applying a delta |
| Retention.dfy | Retention | how long deleted keys are kept |
| NodeRuns.dfy | NodeRuns | runs of one state: idempotence, progress, order of tombstones |
| Replication.dfy | Replication | logs, the replica invariant, exact effect of a delivery |
| Gossip.dfy | Gossip | one peer as a value, and the relation between a message, the new peer and the answer |
| Scuttlebutt.dfy | Scuttlebutt | the cluster, the invariant over all runs |
| Clusters.dfy | Clusters | peers of different clusters do not mix |
| Numbering.dfy | Numbering | distinct versions in every view, over all runs |
| Handshake.dfy | Handshake | owner and replica with collection on both sides |
| CatchUp.dfy | CatchUp | how many cut handshakes a replica needs |
| Spreading.dfy | Spreading | how many rounds a chain of peers needs |
| Counterexamples.dfy | Counterexamples | concrete runs that show which conditions are needed |
| ExampleRuns.dfy | ExampleRuns | two of these as runs of the whole cluster |
| FailureDetector.dfy | FailureDetectors | ring buffer, sampling window, phi, live and dead nodes |
| Removal.dfy | Removal | removal of a dead node across the cluster, with time |
| Revival.dfy | Revival | what brings a removed or a dead node back |
| Stream.dfy | Streams | block streams, their round trip and their length |
| Delta.dfy | Deltas | deltas and their operations |
| Wire.dfy | Wire | formats of operations, deltas, digests and messages |
| DeltaSerializer.dfy | DeltaSerializers | building a delta under a payload limit |
| PayloadLimits.dfy | PayloadLimits | which limits and payload sizes are kept |
| ClusterState.dfy | ClusterStates | staleness, the partial delta, applying deltas |
| Heartbeats.dfy | Heartbeats | how heartbeats travel and make a node live |
| Watchers.dfy | Watchers | what the watchers of live nodes are told |
| Chitchat.dfy | Chitchats | the peer as an object |
| Pkcs12.dfy | Pkcs12 | key derivation |
| Relay.dfy | Relay | routes of broadcasts |
| Subscriptions.dfy | Subscriptions | which publishers to subscribe to |
| Lexicographic.dfy | Lexicographic | the order of strings |
| Listeners.dfy | Listeners | prefix iteration and listeners |
| Bitmask.dfy | Bitmasks | the routing table |
| SortableStrings.dfy | SortableStrings | order-preserving hexadecimal |

## Model

| member | source | states |
|---|---|---|
| `Scuttlebutt.ScuttlebuttWithoutCollection` | chitchat/src/state.rs:152-263 | in every run without key collection, for every owner and every holder of a view of it: what the owner holds at a version the view has reached, the view holds, the same record; the view has no foreign or newer keys; at the owner's `max_version` the key sets are equal |
| `Scuttlebutt.EveryRunIsReplicated` | chitchat/src/lib.rs:135-182 | in every run with collections, truncated deltas, resets, removed replicas and any network behaviour, whose deliveries pass the test `SafeFor`, every view and every delta in flight replicates its owner's log |
| `Scuttlebutt.StepKeepsReplicated` | chitchat/src/lib.rs:135-245 | each single step of any peer keeps that invariant of the whole system |
| `Scuttlebutt.RunsWithoutCollection` | chitchat/src/state.rs:589-660 | without key collection every delivery is safe, so the invariant needs no assumption on deliveries |
| `Scuttlebutt.OwnStateChangesExactly` | chitchat/src/lib.rs:135-182 | a received message changes what a peer holds of itself, apart from its heartbeat, if and only if it holds a delta that resets it |
| `Scuttlebutt.OwnStateIsOwn` | chitchat/src/lib.rs:135-182 | in every run without key collection no received message changes what a peer holds of itself, apart from its heartbeat |
| `Clusters.ClustersStaySeparate` | chitchat/src/lib.rs:135-182 | in every run in which answers go to the peer they answer, whoever a `Syn` reaches, the view of a peer holds only peers of its own cluster |
| `Clusters.ForeignSynIsRefused` | chitchat/src/lib.rs:139-147 | a `Syn` of another cluster is answered with `BadCluster` and leaves the failure detector and all of the view but the own heartbeat as they were |
| `Clusters.AnswerSpeaksOfView` | chitchat/src/lib.rs:149-173 | an answer speaks only of nodes, and holds only records, that the peer holds once it has taken over the message |
| `Numbering.EveryRunIsNumbered` | chitchat/src/delta.rs:387-394 | in every run, whatever is delivered, collected or reset: the keys of every node in every view have distinct versions, at most its `max_version`, and the records of every delta in flight are strictly increasing; the delta builder thus accepts every record offered to it |
| `Numbering.StepKeepsNumbers` | chitchat/src/lib.rs:135-245 | each step of any peer keeps this, without any assumption on deliveries |
| `Numbering.DeltaKeepsNumbers` | chitchat/src/state.rs:152-263 | a delta in order, safe or not, keeps the versions of a state distinct and at most its `max_version` |
| `Replication.DeliveryKeepsReplicaExactly` | chitchat/src/state.rs:152-263 | delivering any delta, however old, to any replica leaves a replica if and only if it neither resets away a current live record nor brings back an outdated one; the condition speaks of the replica and the delta before the delivery only |
| `Replication.ResetReachesExactly` | chitchat/src/state.rs:220-263 | which versions a replica accounts for after a reset, read off the delta |
| `Replication.SafeDeliveryKeepsReplica` | chitchat/src/state.rs:152-263 | a condition on the two version pairs alone, which a receiver could test, is enough for that |
| `Replication.OwnerUnmovedExactly` | chitchat/src/state.rs:152-263 | a delta leaves the owner's own state exactly as it was if and only if it does not reset it |
| `Replication.OwnerWrites` | chitchat/src/state.rs:306-382 | every write of the owner either changes nothing or appends one record to the log, and the owner's state still replicates it |
| `Replication.CollectKeepsReplica` | chitchat/src/state.rs:417-436 | collecting keys, at any time and with any grace period, keeps a replica a replica |
| `Replication.SenderMakesDelta` | chitchat/src/state.rs:589-660 | a node delta computed from any replica, wherever it is cut, carries only and all the current records it accounts for |
| `Replication.ReplicaHoldsOwnersRecords` | chitchat/src/state.rs:44-68 | a record of the owner that a replica has reached is at the replica, or it is scheduled for deletion and at most the replica's `last_gc_version` |
| `Replication.CollectedKeysAreScheduledOrWiped` | chitchat/src/state.rs:608-629 | a key that the replica holds and the owner does not is the current, scheduled record of that key, which the owner collected, or the replica is behind the collection with both its versions |
| `Replication.CaughtUpReplicaIsEqual` | chitchat/src/state.rs:240-263 | without collections a replica at the owner's `max_version` has the same keys and the same records |
| `Replication.ReplicasAgree` | chitchat/src/state.rs:240-263 | two replicas have the same record of a key on which neither is behind |
| `Replication.EqualVersionsAgreeExactly` | chitchat/src/state.rs:240-263 | all replicas at a version that collected nothing hold the same keys and records, if and only if no key written up to that version was written again later |
| `Handshake.HandshakesKeepInSync` | chitchat/src/state.rs:152-263 | over every run of an owner and a replica, with writes, collections on both sides, cut deltas and restarts of the replica, handshakes away from the boundary keep the replica invariant |
| `Handshake.HandshakeIsSafe` | chitchat/src/state.rs:608-629 | away from the boundary, what an owner sends in answer to its replica's digest passes the receiver's test |
| `Handshake.BoundaryHandshake` | chitchat/src/state.rs:182-189 | at the boundary a handshake keeps the invariant if and only if the owner holds only scheduled records up to its `last_gc_version` |
| `Handshake.LeftoversAreWiped` | chitchat/src/state.rs:220-237 | a key that only the replica still holds, live or in an outdated scheduled record, is gone after the owner's next delta that brings anything, which resets the replica |
| `Handshake.WholeHandshakeDelivers` | chitchat/src/state.rs:240-263 | after a handshake away from the boundary whose delta was not cut, the replica has every record of the owner, except scheduled ones that it has collected |
| `Handshake.WholeHandshakeCatchesUpExactly` | chitchat/src/state.rs:225-234 | it then has the owner's `max_version` if and only if the owner still holds its newest record and the replica has not collected it, or a reset announced the version |
| `CatchUp.EveryRunCatchesUp` | chitchat/src/state.rs:631-658 | after any run of an owner and its replica off the boundary, with an owner's clock that never goes back: once the owner is quiet, handshakes each of which brings at least one record or is whole have brought every record of the owner, except scheduled ones that the replica has collected, after as many handshakes as the owner has keys, and at least one |
| `CatchUp.HandshakesCatchUp` | chitchat/src/state.rs:631-658 | the same from any state in sync in which the owner holds no scheduled record at or below its `last_gc_version` |
| `CatchUp.HandshakesProgress` | chitchat/src/state.rs:631-658 | after `n` of these at most as many keys as the owner has, less `n`, are still ahead of the replica, or it has everything |
| `Spreading.EveryRunSpreads` | chitchat/src/lib.rs:135-182 | from any state of any run without key collection, along any chain of peers that starts with an owner which is quiet from then on: after `k` times as many rounds as the owner has keys, peer `k` has the owner's keys and records; in a round each peer hears of the one before it, deltas may be cut after one record, and any other exchanges may happen |
| `Spreading.ChainCatchesUp` | chitchat/src/state.rs:631-658 | the same for any line of replicas of one log |
| `Spreading.PassingAdvances` | chitchat/src/state.rs:589-660 | whatever is exchanged, a peer that hears once of one that has caught up gets past one more key of the owner, or has none ahead |
| `Handshake.AnswerIsHandshake` | chitchat/src/state.rs:569-578 | every node delta that answers a digest is the delta of a handshake with the state the digest was taken from |
| `Counterexamples.BoundaryHandshakeLosesLiveKey` | chitchat/src/state.rs:182-189 | a run of seven steps at whose end a live key is missing at a replica that has the owner's `max_version` |
| `Counterexamples.ThirdPartyResurrectsDeletedKey` | chitchat/src/state.rs:240-263 | deltas of the owner and of a stale third node that leave a deleted key live at the owner's `max_version` |
| `Counterexamples.LateAnswerResetsOwner` | chitchat/src/state.rs:220-237 | a late answer resets the owner's own state, and its next write uses a version again |
| `ExampleRuns.ThirdPartyRun` | chitchat/src/lib.rs:135-187 | the first of these as an execution of three peers: it ends with the deleted key live at a replica with the owner's `max_version` and `last_gc_version` |
| `ExampleRuns.LateAnswerRun` | chitchat/src/lib.rs:135-187 | the second as an execution: the owner's `max_version` falls from 3, and its next write gets version 2 again |
| `Counterexamples.OwnersHistory` | chitchat/src/state.rs:306-382 | the owner's states in these examples arise from an empty state by writes and one collection |
| `Counterexamples.EqualVersionsDifferentKeys` | chitchat/src/state.rs:240-263 | two replicas with equal `max_version` and different keys, without any collection |
| `Counterexamples.ReplicaStaysBehind` | chitchat/src/state.rs:225-234 | a replica that has every record, stays below the owner's `max_version`, and is left as it is by every further delta that the owner can compute for it |
| `NodeRuns.DeltaIdempotent` | chitchat/src/state.rs:152-263 | receiving any delta twice, at any instants, in any state, is receiving it once |
| `NodeRuns.WriteTakesEffect` | chitchat/src/state.rs:306-382 | after each kind of write the key reads as written, under a version of its own if anything changed, and nothing else is touched |
| `NodeRuns.WriteIsFreeExactly` | chitchat/src/state.rs:306-382 | a write changes nothing, and takes no version, if and only if it sets the value and status that are there, or deletes a key that is not |
| `NodeRuns.HeartbeatsMerge` | chitchat/src/state.rs:393-406 | of heartbeats in any order the greatest stays, and it is news only after a first one |
| `NodeRuns.StepProgress` | chitchat/src/state.rs:152-263 | no write, collection or delta takes the pair (`last_gc_version`, `max_version`) back; a reset advances its first part |
| `NodeRuns.RunProgress` | chitchat/src/state.rs:463-492 | along every run the pair never decreases lexicographically, and strictly increases over every reset |
| `NodeRuns.RetainedTombstonesAreYoung` | chitchat/src/state.rs:417-436 | in every run with a clock that never goes back, scheduled entries still held are above `last_gc_version`, and their versions are in the order of their scheduling times |
| `NodeRuns.StepKeepsOrder` | chitchat/src/state.rs:322-382 | each step keeps that order |
| `Retention.DeletedKeyLasts` | chitchat/src/state.rs:417-436 | in every run, a record that a step deletes or gives a time to live, and that no later step writes or resets, is still there, unchanged, after any number of steps if and only if no collection among them came as late as that step plus its grace period |
| `Retention.CollectsExactly` | chitchat/src/state.rs:417-436 | a collection drops exactly the records deleted, or given a time to live, at least the grace period ago |
| `Retention.GcVersionMovesExactly` | chitchat/src/state.rs:417-436 | `last_gc_version` moves if and only if a record above it is dropped, to the greatest version that is |
| `Retention.CollectStepExactly` | chitchat/src/lib.rs:184-187 | the same for every node that a peer knows, with the peer's own grace period |
| `NodeRuns.FreshnessTestNeverFires` | chitchat/src/state.rs:191-218 | the exact condition for a reset; it does not involve the freshness test |
| `NodeStates.NodeState.SetVersionedValue` | chitchat/src/state.rs:463-492 | an update that is not newer than the present record changes nothing but, possibly, `max_version`; listeners are notified exactly of an update that was written and is not a deletion |
| `NodeStates.NodeState.SetValue` | chitchat/src/state.rs:306-320 | the new state: unchanged for the same live value, else the value with the next version |
| `NodeStates.NodeState.SetWithTtl` | chitchat/src/state.rs:322-341 | the same with a time to live |
| `NodeStates.NodeState.Delete` | chitchat/src/state.rs:352-366 | a present key becomes an empty tombstone with the next version; an absent one changes nothing |
| `NodeStates.NodeState.ScheduleDeletion` | chitchat/src/state.rs:371-382 | a present key keeps its value, with the next version and a time to live |
| `NodeStates.NodeState.OfferHeartbeat` | chitchat/src/state.rs:393-406 | the first heartbeat is taken but is no update; later only a greater one is |
| `NodeStates.NodeState.GcKeysMarkedForDeletion` | chitchat/src/state.rs:417-436 | exactly the expired entries go, and `last_gc_version` becomes the greatest of itself and their versions |
| `NodeStates.NodeState.PrepareApplyDelta` | chitchat/src/state.rs:152-237 | refused, kept or reset, and the state after each |
| `NodeStates.NodeState.Apply` | chitchat/src/state.rs:240-263 | the loop over the mutations computes `ApplyDelta`, about which the theorems above are |
| `ClusterStates.ClusterState.ComputePartialDelta` | chitchat/src/state.rs:589-660 | the delta takes the stale, unscheduled nodes in order of staleness, each with exactly its records above the starting version by increasing version; only the last may be cut; if anything is left out, the next operation exceeds the limit by the length bound; the recorded length is the payload's and within the limit |
| `ClusterStates.SortStaleNodes` | chitchat/src/state.rs:589-629 | exactly the stale nodes that are not scheduled for deletion, each once, ranked |
| `ClusterStates.RankedOrder` | chitchat/src/state.rs:676-695 | unknown nodes first by increasing `max_version`, then the others by decreasing number of stale records |
| `ClusterStates.StalenessIsTotal` | chitchat/src/state.rs:676-695 | the staleness order is total and transitive |
| `ClusterStates.Offer` | chitchat/src/state.rs:737-751 | a node is inserted without disturbing the others, and the ranking is kept |
| `ClusterStates.StaleKeyValues` | chitchat/src/state.rs:771-778 | all records above the starting version and no others, strictly increasing by version |
| `ClusterStates.AddStaleNodes` | chitchat/src/state.rs:631-658 | the loop over the nodes: complete node deltas, then at most one cut short, and what did not fit |
| `ClusterStates.AddContents` | chitchat/src/state.rs:640-657 | the records of one node, or its `max_version` if there are none, and the first operation that does not fit |
| `ClusterStates.AddKeyValues` | chitchat/src/state.rs:640-646 | the longest prefix of the records that fits |
| `ClusterStates.AddMaxVersion` | chitchat/src/state.rs:649-656 | the `max_version` is announced unless nothing of its length fits |
| `ClusterStates.AddNode` | chitchat/src/state.rs:631-638 | a node is started unless its operation does not fit |
| `ClusterStates.FollowingIsPartialDelta` | chitchat/src/state.rs:589-660 | what the loop leaves is one of the deltas that the protocol theorems are about, and can be rebuilt from its operations |
| `ClusterStates.CompleteIsWhole` | chitchat/src/state.rs:631-658 | a node delta that was not cut is one that the handshake theorems call whole |
| `ClusterStates.ClusterState.ApplyDelta` | chitchat/src/state.rs:560-567 | node deltas are applied in order, each to a state that may have to be created |
| `ClusterStates.ClusterState.GcKeysMarkedForDeletion` | chitchat/src/state.rs:580-584 | every node state is collected, none is added or dropped |
| `Chitchats.Chitchat.ProcessMessage` | chitchat/src/lib.rs:135-182 | the peer after any message and its answer are related as the cluster model assumes; the answer has exactly the length of its parts |
| `Chitchats.AnswerFitsExactly` | chitchat/src/lib.rs:149-173 | an answer fits the payload size if and only if its delta leaves 3 bytes of the room it was given, and is at most 3 bytes too long if that room was kept |
| `Chitchats.Chitchat.AnswerSyn` | chitchat/src/lib.rs:149-162 | the digest of all unscheduled nodes, and a delta in the room that is left |
| `Chitchats.Chitchat.AnswerSynAck` | chitchat/src/lib.rs:163-173 | a delta in the payload size minus one |
| `Chitchats.Chitchat.ReportHeartbeatsInDigest` | chitchat/src/lib.rs:111-115 | one by one in any order, the entries have the effect of all at once |
| `Heartbeats.GossipSpreadsHeartbeats` | chitchat/src/lib.rs:111-115 | once a peer has received what another of its cluster gossiped, it has, of every node that the other talks about, the greater of the two heartbeats; the other's own is one more than before, modulo 2^64 |
| `Heartbeats.GossipCarriesHeartbeats` | chitchat/src/state.rs:569-578 | a `Syn` names the sender's cluster and holds the heartbeats of exactly the nodes that the sender knows and that are not dead for more than half the grace period |
| `Heartbeats.HeartbeatsAreMerged` | chitchat/src/lib.rs:135-182 | the heartbeat of every node after any message: the greater one, or 0 if a delta in the message resets the node |
| `Heartbeats.NewsIsNoted` | chitchat/src/lib.rs:191-199 | the failure detector notes exactly the heartbeats greater than a known one, with their time |
| `Heartbeats.HeardTwiceIsLive` | chitchat/src/failure_detector.rs:56-75 | two messages in a row that one peer gossips and another of its cluster receives, at most `max_interval` apart, make it live at the next update, if and only if that comes within `phi_threshold` times the mean, written out |
| `Chitchats.ReportOneMore` | chitchat/src/lib.rs:191-199 | reporting one more entry commutes with those already reported |
| `Chitchats.Chitchat.ReportHeartbeat` | chitchat/src/lib.rs:191-199 | oneself is ignored; the failure detector hears only of updates |
| `Chitchats.Chitchat.UpdateNodesLiveness` | chitchat/src/lib.rs:203-245 | judging the nodes one by one and then forgetting the collected ones is the step of the cluster model; in between the live nodes that are ready are published if and only if the versions of the live nodes are not those of the last time |
| `Chitchats.Chitchat.JudgeNodes` | chitchat/src/lib.rs:204-208 | the loop judges every known node but oneself |
| `Chitchats.Chitchat.PublishLiveNodes` | chitchat/src/lib.rs:209-239 | what watchers are sent, and exactly when |
| `Chitchats.Chitchat.ForgetCollected` | chitchat/src/lib.rs:240-244 | the loop removes what the failure detector has collected, and nothing else |
| `Watchers.WatchersHearExactly` | chitchat/src/lib.rs:203-239 | in every run, at every update of a peer: watchers are sent something if and only if it is the peer's first update, or since its last one some node has become or is no longer known and alive by its samples, or has another `max_version` |
| `Watchers.PublishedExactly` | chitchat/src/lib.rs:209-220 | the same for two updates of any peers whose detectors speak only of known nodes |
| `Watchers.EveryRunIsTended` | chitchat/src/failure_detector.rs:56-91 | in every run the live, dead and sampled nodes of every peer are among the other nodes that it knows, and none is both live and dead; the samples stay within their bounds |
| `Watchers.HeartbeatsAreNotNotified` | chitchat/src/lib.rs:264-273 | heartbeats reported between two updates make a difference to watchers if and only if a node's verdict is another |
| `Watchers.CollectionIsNotNotified` | chitchat/src/lib.rs:184-187 | collecting keys makes none |
| `Watchers.ReadyAreSent` | chitchat/src/lib.rs:220-233 | what is sent: the states of exactly the nodes that are known, alive by their samples and ready, oneself included |
| `Watchers.OwnWriteIsNotified` | chitchat/src/lib.rs:264-273 | a write to one's own state that changes anything always does |
| `Chitchats.UpdateOneMore` | chitchat/src/failure_detector.rs:56-75 | nodes are judged independently of each other |
| `Chitchats.Chitchat.UpdateSelfHeartbeat` | chitchat/src/lib.rs:351-353 | only the own heartbeat advances, wrapping around at 64 bits |
| `Chitchats.Chitchat.GcKeysMarkedForDeletion` | chitchat/src/lib.rs:184-187 | the collection step of the cluster model |
| `Chitchats.Chitchat.constructor` | chitchat/src/lib.rs:72-101 | a peer starts with one heartbeat and its initial records, and an empty failure detector |
| `Chitchats.InitialRecords` | chitchat/src/lib.rs:72-101 | a new peer holds, of every key it is given, the last value |
| `Chitchats.SynAckLength` | chitchat/src/message.rs:103-115 | the length of a `SynAck` is exactly 4 and the lengths of its digest and of its delta |
| `Chitchats.AckLength` | chitchat/src/message.rs:103-115 | the length of an `Ack` is exactly 4 and the recorded length of its delta |
| `PayloadLimits.OverlongAck` | chitchat/src/lib.rs:163-173 | whatever the partial delta of one given node under a payload size of 101 is, it has 100 bytes and the `Ack` has 104 |
| `PayloadLimits.EveryAckFitsExactly` | chitchat/src/lib.rs:163-173 | every `Ack` that can be built under a payload size fits it, for every compressor, if and only if the size is 16392 |
| `PayloadLimits.RoomLeftExactly` | chitchat/src/delta.rs:371-394 | 16391 is the only limit under which everything that is accepted leaves the 3 bytes for the header |
| `PayloadLimits.LimitKeptExactly` | chitchat/src/delta.rs:371-394 | everything that is accepted under a limit is within it, for every compressor, if and only if the limit is at most two blocks and 7 bytes |
| `FailureDetectors.SilentNodeIsDeclaredDead` | chitchat/src/failure_detector.rs:56-75 | a node silent for more than `phi_threshold` times the greater of `max_interval` and `initial_interval` is dead and not live after the next update, and keeps its time of death |
| `FailureDetectors.JudgedExactly` | chitchat/src/failure_detector.rs:177-245 | a node is live after an update if and only if it has an interval and the time since its last heartbeat, times the number of intervals plus 5, is at most `phi_threshold` times their sum plus five initial intervals |
| `FailureDetectors.DeadAfterShortIntervals` | chitchat/src/failure_detector.rs:56-75 | so with intervals of at most `x` it is declared dead accordingly earlier |
| `FailureDetectors.HeardAllExactly` | chitchat/src/failure_detector.rs:213-227 | after any heartbeats in order, the window holds the last `sampling_window_size` of the intervals of at most `max_interval`, and the last time |
| `FailureDetectors.RecentNodeIsAlive` | chitchat/src/failure_detector.rs:56-75 | a node heard of within `phi_threshold` times a floor of its intervals and of the prior is live after the next update |
| `FailureDetectors.MeanBounds` | chitchat/src/failure_detector.rs:177-182 | the smoothed mean is positive and at most the greater of `max_interval` and `initial_interval` |
| `FailureDetectors.RecentAreTheLast` | chitchat/src/failure_detector.rs:249-302 | what is retained of any stream of values is its last `min(n, capacity)` values |
| `FailureDetectors.BoundedArrayStats.Append` | chitchat/src/failure_detector.rs:276-288 | the ring keeps the most recent values in order, and the running sum is their sum |
| `FailureDetectors.BoundedArrayStats.Clear` | chitchat/src/failure_detector.rs:290-294 | nothing is retained |
| `FailureDetectors.BoundedArrayStats.Len` | chitchat/src/failure_detector.rs:296-302 | the number of retained values |
| `FailureDetectors.SamplingWindow.ReportHeartbeat` | chitchat/src/failure_detector.rs:213-227 | only intervals of at most `max_interval` are retained, and the time is noted |
| `FailureDetectors.SamplingWindow.ComputePhi` | chitchat/src/failure_detector.rs:235-245 | phi of the retained intervals; none before two heartbeats |
| `FailureDetectors.FailureDetector.UpdateNodeLiveness` | chitchat/src/failure_detector.rs:56-75 | the node becomes live, or dead since its first such judgement with its samples cleared |
| `FailureDetectors.FailureDetector.CollectGarbage` | chitchat/src/failure_detector.rs:78-91 | exactly the nodes dead for the grace period are returned and forgotten |
| `FailureDetectors.FailureDetector.Report` | chitchat/src/failure_detector.rs:50-54 | the window of the node, created if need be, records the heartbeat |
| `Removal.RemovalIsFinal` | chitchat/src/failure_detector.rs:78-116 | if the peers declared a node dead within half the grace period minus the message delay and its heartbeats have converged, in the views and in the messages that can still arrive, no peer that removed it ever has it again |
| `Removal.RemovalIsComplete` | chitchat/src/lib.rs:203-245 | and each peer that updates the liveness of its nodes after the grace period has removed it, for good |
| `Revival.RemovalIsFinalExactly` | chitchat/src/failure_detector.rs:78-116 | no peer that has removed a node ever has it again, in any run from a state in which all peers mourn it, if and only if they declared it dead within half the grace period minus the message delay |
| `Revival.LateMessageReturns` | chitchat/src/failure_detector.rs:104-116 | otherwise, a run of four steps in which a peer removes the node and then receives a message that was sent at the last moment at which another peer still talks about it |
| `Revival.RevivedExactly` | chitchat/src/failure_detector.rs:56-75 | a digest makes a node that is not live and has no samples live at the next update if and only if its heartbeat there is above the one known, which is not 0, the last news of it is at most `max_interval` old, and six times the time until the update is at most `phi_threshold` times that interval plus five initial ones |
| `Revival.DeclaredDeadIsSilent` | chitchat/src/failure_detector.rs:64-75 | a node that an update does not find alive has no intervals after it, and is dead since the first such update |
| `Revival.StaysDeadExactly` | chitchat/src/state.rs:393-406 | until it is removed, a dead node is never live again, over all histories of digests with heartbeats up to `last` and of updates, if and only if `last` does not exceed the greater of 1 and the known heartbeat, or exceeds it by 1 and there is no news of the node that is at most `max_interval` old |
| `Revival.StaysDeadUnderResetsExactly` | chitchat/src/state.rs:220-237 | over all histories that have deltas too, if and only if `last` is at most 1 |
| `Revival.NewsAfterReset` | chitchat/src/state.rs:220-237 | a delta that resets the node's state, then its first and its second heartbeat: news that the failure detector records |
| `Removal.StepSettles` | chitchat/src/lib.rs:135-245 | each step of any peer keeps what this rests on: peers mourn or have forgotten, and messages that mention the node are old and quiet |
| `Streams.StreamRoundTrip` | chitchat/src/serialize.rs:341-433 | any items through any threshold, followed by any bytes, are read back as they were, and those bytes are left |
| `Streams.BlocksRoundTrip` | chitchat/src/serialize.rs:356-433 | wherever blocks were cut and whichever were compressed, the bytes come back and exactly the rest is left |
| `Streams.UpperboundExact` | chitchat/src/serialize.rs:324-338 | the length bound holds for every compressor if and only if the pending bytes and the item fit into two blocks |
| `Streams.UpperboundForShortItem` | chitchat/src/serialize.rs:324-338 | the bound for each such item and each compressor |
| `Streams.ShortStream` | chitchat/src/serialize.rs:356-391 | the bytes of a stream of one block: tag, length, and the compressed bytes whenever the compressor manages to |
| `Streams.BlocksReadBack` | chitchat/src/serialize.rs:394-425 | nothing is read but blocks of the two kinds, the compressed ones of which decompress, up to the end marker, and what is read is their data |
| `Streams.ItemsReadBack` | chitchat/src/serialize.rs:426-433 | items that are read are written as exactly the bytes they were read from |
| `Streams.CutAfterAppend` | chitchat/src/serialize.rs:341-385 | the blocks do not depend on how the bytes were split into items |
| `Streams.CompressedStreamWriter.Append` | chitchat/src/serialize.rs:341-354 | the flush loop ends, and output and pending bytes are those of all bytes appended |
| `Streams.CompressedStreamWriter.FlushBlock` | chitchat/src/serialize.rs:356-385 | one block, compressed if that succeeds, of the first pending bytes |
| `Streams.CompressedStreamWriter.Finish` | chitchat/src/serialize.rs:387-391 | the finished stream of all bytes appended |
| `Streams.DeserializeStream` | chitchat/src/serialize.rs:394-433 | both loops together compute `DecodeStream`, of which the round trip is proved |
| `Streams.ReadBlocks` | chitchat/src/serialize.rs:394-425 | the loop over the blocks |
| `Streams.ReadItems` | chitchat/src/serialize.rs:426-433 | the loop over the items |
| `Deltas.OperationsAfterOp` | chitchat/src/delta.rs:28-45 | an accepted operation is the last one of the flattened delta if and only if it came in its place |
| `Deltas.BuildOperations` | chitchat/src/delta.rs:303-355 | every well-formed delta is rebuilt exactly from its operations |
| `Deltas.BuiltIsWellFormed` | chitchat/src/delta.rs:310-355 | conversely, whatever operations a builder accepts, it builds a well-formed delta: distinct nodes, each with strictly increasing versions |
| `Deltas.DeltaBuilder.Apply` | chitchat/src/delta.rs:310-344 | which operations are refused, and the builder after each |
| `Deltas.DeltaBuilder.Flush` | chitchat/src/delta.rs:346-355 | the current node delta joins the others |
| `Deltas.DeltaBuilder.Finish` | chitchat/src/delta.rs:304-308 | all node deltas, with the length |
| `DeltaSerializers.DeltaSerializer.TryAddOp` | chitchat/src/delta.rs:387-394 | accepted exactly if the length bound is within the limit; stream and builder stay in step |
| `DeltaSerializers.DeltaSerializer.Finish` | chitchat/src/delta.rs:420-424 | the recorded length is the length of the payload for every limit, and within the limit if that is at most two blocks and 7 bytes or no operation is longer than a block |
| `DeltaSerializers.AcceptedFits` | chitchat/src/delta.rs:371-394 | one accepted operation keeps the finished stream within the limit |
| `DeltaSerializers.SamePayload` | chitchat/src/delta.rs:177-191 | built with the threshold of its limit or serialized with the full one, the stream is the same |
| `Wire.MessageRoundTrip` | chitchat/src/message.rs:77-160 | every message that can be written is read back as it was, and what follows it is left |
| `Wire.ReadMessageIsWellFormed` | chitchat/src/message.rs:119-160 | every message that is read, from any bytes, holds a well-formed delta |
| `Wire.MessageLayout` | chitchat/src/message.rs:77-101 | the first bytes of every message: 45139, version 0, the kind, then the digest if there is one |
| `Wire.HeaderIsChecked` | chitchat/src/message.rs:119-160 | nothing is read that does not begin so, nor as a message of another kind |
| `Wire.DeltaReadBack` | chitchat/src/delta.rs:193-204 | whatever is read as a delta, from any bytes, its operations are written in the blocks that were read, and the builder accepts them |
| `Wire.BrokenDigestIsRefused` | chitchat/src/digest.rs:94-103 | a digest that is cut off or cannot be decompressed is refused |
| `Wire.DeltaRoundTrip` | chitchat/src/delta.rs:177-204 | every well-formed delta is read back, with the length it took |
| `Wire.DigestRoundTrip` | chitchat/src/digest.rs:62-119 | written in any order, a digest is read back as the same map |
| `Wire.OpRoundTrip` | chitchat/src/delta.rs:88-175 | the three operations |
| `Wire.OpReadBack` | chitchat/src/delta.rs:88-175 | conversely, whatever is read as an operation is what would be written for it |
| `Wire.EntryReadBack` | chitchat/src/digest.rs:71-81 | the same for an entry of a digest |
| `Wire.IdReadBack` | chitchat/src/serialize.rs:254-275 | the same for an identifier |
| `Wire.IdLayout` | chitchat/src/serialize.rs:254-275 | where the parts of an identifier are |
| `Wire.EntryLayout` | chitchat/src/digest.rs:63-70 | where heartbeat, `last_gc_version` and `max_version` of an entry are |
| `Wire.NodeOpLayout` | chitchat/src/delta.rs:147-152 | the tag and the parts of the operation that starts a node |
| `Wire.KeyValueLayout` | chitchat/src/delta.rs:153-156 | the tag and the parts of the operation for a record, with the code of its status |
| `Wire.MaxVersionLayout` | chitchat/src/delta.rs:157-160 | the tag and the value of the operation that announces a `max_version` |
| `DeltaSerializers.NodeOpLength` | chitchat/src/delta.rs:164-175 | the length of the operation that starts a node, as announced |
| `DeltaSerializers.KeyValueOpLength` | chitchat/src/delta.rs:164-175 | the length of the operation for a record |
| `Wire.MutationRoundTrip` | chitchat/src/types.rs:232-257 | key, value, version and status |
| `Wire.IdRoundTrip` | chitchat/src/serialize.rs:254-275 | node identifiers |
| `Wire.IpRoundTrip` | chitchat/src/serialize.rs:139-176 | addresses of both versions |
| `Wire.TextRoundTrip` | chitchat/src/serialize.rs:178-212 | strings of up to 65535 bytes |
| `Wire.SerializeDigest` | chitchat/src/digest.rs:63-90 | the loop over the map and the compressed body, appended to the buffer |
| `Wire.DeserializeEntries` | chitchat/src/digest.rs:71-81 | the counted loop over the entries |
| `Wire.DeserializeDigestBody` | chitchat/src/digest.rs:71-81 | the number of entries, then the entries |
| `Pkcs12.DeriveKey` | transport-layer/src/pkcs12.rs:353-388 | for every password, salt, identifier, number of iterations and size, the key of section B.2 of RFC 7292, of exactly that size |
| `Pkcs12.KeyIsHashes` | transport-layer/src/pkcs12.rs:353-388 | the key is the beginning of the hashes of a number of rounds: the first hashes 64 times the identifier, then salt and password; each next one hashes blocks to which the hash before, repeated, and 1 were added |
| `Pkcs12.KeyOfOneHash` | transport-layer/src/pkcs12.rs:353-371 | a key of up to 20 bytes is the beginning of one iterated hash |
| `Pkcs12.IterationHashesAgain` | transport-layer/src/pkcs12.rs:342-350 | one more iteration hashes the first hash once more |
| `Pkcs12.IdsTellKeysApart` | transport-layer/src/pkcs12.rs:355-357 | for any two identifiers there is a hash with which the keys differ, whatever password, salt, iterations and size |
| `Pkcs12.AddToBlocks` | transport-layer/src/pkcs12.rs:372-384 | the in-place loop from the last byte to the first makes every 64-byte block its sum with B and 1, modulo 2^512 |
| `Pkcs12.SweepIsNextInput` | transport-layer/src/pkcs12.rs:372-384 | the bytes left by the sweep are those sums, block by block |
| `Pkcs12.AddBytesValue` | transport-layer/src/pkcs12.rs:377-383 | adding bytes with a carry adds the numbers they stand for |
| `Pkcs12.AddBytesIsAddOne` | transport-layer/src/pkcs12.rs:375-383 | on a block with an initial carry of 1 that is the sum modulo 2^512 |
| `Pkcs12.HashRounds` | transport-layer/src/pkcs12.rs:366-387 | the hashes of all rounds, one after the other |
| `Pkcs12.Core` | transport-layer/src/pkcs12.rs:342-350 | the iterated hash, appended |
| `Pkcs12.AddByte` | transport-layer/src/pkcs12.rs:379-382 | two overflowing additions are one addition with carry |
| `Pkcs12.ShorterKeyIsPrefix` | transport-layer/src/pkcs12.rs:353-388 | a shorter key is a prefix of a longer one |
| `Pkcs12.InputIsSaltThenPassword` | transport-layer/src/pkcs12.rs:357-365 | steps 2 to 4 of section B.2 of RFC 7292: copies of the salt cut to whole blocks, then copies of the password |
| `Relay.EveryCopyIsRouted` | proxy/src/server.rs:317-363 | in every run over any, even changing, subscriptions: every hop of a copy was a subscription when it was taken, one after the other; only proxies relay, never over two links between proxies in a row, never straight back; and the identifier names the route |
| `Relay.AtMostThreeHops` | network/src/pub_sub/connection.rs:136-148 | such a route has at most three hops, or two from a proxy |
| `Relay.EveryRouteIsTaken` | network/src/pub_sub/sender.rs:94-99 | conversely every such route over given subscriptions is taken in some run |
| `Relay.DeliveredExactly` | network/src/pub_sub/connection.rs:136-148 | over fixed subscriptions a host gets a message in some run if and only if such a route leads to it |
| `Relay.HostReachesExactly` | network/src/pub_sub/connection.rs:136-148 | exactly the hosts that get, in some run, what a host publishes: its subscribers, those one proxy further, unless both ends are proxies, and the nodes two proxies further |
| `Relay.OwnMessageComesBackExactly` | network/src/pub_sub/connection.rs:136-148 | exactly when a host gets its own message in some run |
| `Relay.NextHop` | network/src/pub_sub/server.rs:132-139 | a proxy sends on exactly where the route may turn, and what arrives is the published message with the longer trail |
| `Relay.SendMessage` | network/src/pub_sub/sender.rs:94-99 | sent exactly if allowed, with the flag of the sender and one more name in its identifier |
| `Relay.PrefixIsShort` | network/src/lib.rs:69-71 | the part of a host's identifier that a route records: its first six bytes, or all of it |
| `Relay.Multiplex` | proxy/src/server.rs:317-363 | every message received is sent on unchanged and in order, excluding the connection it came from |
| `Subscriptions.Diff` | network/src/pub_sub/mod.rs:303-335 | the groups to include, in order, and exactly the values of current keys in no group, each once |
| `Subscriptions.CollectTakesTheLast` | network/src/pub_sub/mod.rs:307-310 | of several current values for a key the last one counts |
| `Subscriptions.ChosenAreDisjoint` | network/src/pub_sub/mod.rs:311-328 | included groups are pairwise disjoint and disjoint from the current keys |
| `Subscriptions.SkippedOverlaps` | network/src/pub_sub/mod.rs:311-328 | a group that is not included has a key in common with the current keys or with a group included before it |
| `Subscriptions.RoundsSettleExactly` | network/src/pub_sub/mod.rs:77-90 | when each round connects to one address of each included group, nothing more is included from round `n` = number of groups on, if and only if no group is empty; the subscriptions then stay |
| `Subscriptions.MarkGroup` | network/src/pub_sub/mod.rs:312-321 | the keys of the group are marked, and it is new if it meets neither map |
| `Listeners.InnerListeners.TriggerEvent` | chitchat/src/listener.rs:95-120 | every listener whose prefix begins the key is called exactly once, and no other, if and only if the key is empty or its first character is one byte; otherwise the listeners for all keys are called and then it panics; so it never panics for a key of bytes below 0x80, and always for one that begins with a character of several bytes |
| `Listeners.InnerListeners.Subscribe` | chitchat/src/listener.rs:56-93 | a new listener adds its own calls and no others |
| `Listeners.InnerListeners.Remove` | chitchat/src/listener.rs:122-126 | removing a listener removes its calls and no others |
| `Listeners.RangeIsEnough` | chitchat/src/listener.rs:107-119 | whatever begins the key lies in the range that is walked |
| `Listeners.IterPrefixIsScan` | chitchat/src/state.rs:266-276 | taking from the range while the prefix matches is filtering all keys |
| `Listeners.IterPrefixExactly` | chitchat/src/state.rs:266-276 | the live keys with the prefix and no others, each once, in order |
| `Lexicographic.PrefixesAreContiguous` | chitchat/src/state.rs:270-276 | keys with a common prefix are contiguous in the order of strings |
| `Bitmasks.InsertIsLocal` | node/src/bitmask/table.rs:62-77 | a new row changes the route exactly of the addresses that match it and no row above it |
| `Bitmasks.MatchesExactly` | node/src/bitmask/mask.rs:23-27 | a mask matches exactly the addresses that agree with it on the meaningful bits |
| `Bitmasks.EveryAddressHasARoute` | node/src/bitmask/table.rs:45-90 | after any insertions and removals every address has a route |
| `Bitmasks.RemovingUndoesInserting` | node/src/bitmask/table.rs:79-86 | removing a row restores the table, and so every route |
| `Bitmasks.BitmasksTable.FindMatch` | node/src/bitmask/table.rs:45-57 | the first matching row decides, and the panic is not reached |
| `Bitmasks.BitmasksTable.InsertAbove` | node/src/bitmask/table.rs:62-77 | refused exactly at or below the end; the default row stays last |
| `Bitmasks.BitmasksTable.Remove` | node/src/bitmask/table.rs:79-86 | refused exactly for the default row and beyond; inserting the row again gives the old table |
| `SortableStrings.OrderIsPreserved` | database/src/helpers.rs:3-7 | of any two numbers the smaller has the string that sorts first, in both directions, and the digits after the first character give the number back |
| `SortableStrings.U64ToString` | database/src/helpers.rs:3-7 | the string of which that is proved |
| `SortableStrings.HexRoundTrip` | database/src/sqlite/sqlite_helper.rs:648-657 | the digits that are left when the first character is dropped determine the number |

## Left out

- Sockets, QUIC, TLS, DNS, tasks, channels and metrics are not modelled; the network is a set of messages from which any may be received at any time, by anyone. Only `Clusters.ClustersStaySeparate` needs answers to go to the peer they answer, and says so.
- Time is a parameter: one instant per step, where the source may read the clock several times in a step.
- Versions are unbounded; overflow of the source's 64-bit versions is not modelled. Heartbeats wrap around as in the source.
- Durations, intervals and phi are real numbers; floating-point rounding is not modelled. The sampling window has at least one place and the initial interval is positive.
- zstd and SHA-1 are arbitrary functions with the laws that decompression undoes compression, that a compressed block is no longer than the buffer given for it, and that a hash has 20 bytes.
- That strings are valid UTF-8 is not modelled: they are byte sequences, and reading a string never fails for its contents.
- The formats of integers, strings, addresses, identifiers and operations are functions from a value to its bytes and from the bytes to the value and the rest, not methods that advance a buffer; the stream, the delta builder and the digest are written and read by loops as in the source.
- Reading an item that takes no bytes is a failure in the model of the stream; the source would loop. No item of the source takes no bytes.
- The state of each node is kept as a value in the map of the cluster state and is turned into an object for each method call; aliasing of node states is not captured.
- `FailureDetectors.FailureDetector` keeps its sampling windows as values; the window as an object is `SamplingWindow`.
- The order in which equally stale nodes, map entries and listeners are taken is arbitrary in the model; it is shuffled or an order of hash maps in the source, except that sorted maps are iterated in order there.
- `reset_node_state`, `set_max_version`, `set_last_gc_version` and `remove_key_value_internal` are not steps of the model: their callers can install any state.
- Catch-up callbacks are left out; they do not feed back into the state. Watchers of live nodes are modelled by what they are sent; a closed watcher, which the source logs, is not.
- Listeners are identifiers; what a callback does is not modelled, and neither is the reference count behind a handle.
- Direct messages to one address and the trust decisions on certificates are left out; `AllowSending` has the branch for addresses, but no run uses it.
- `Relay.Prefix` takes the first six bytes; the source returns the whole identifier if the sixth byte is inside a character.
- Connections that break or fail during subscription rounds: a round of `Subscriptions.Round` connects every included group that has an address.
- `bmp_string` and the ASN.1 structures of PKCS#12 are not modelled: the password is the byte string that the key derivation is given, and files are neither read nor written.
- Bits in the routing table are sets of positions, whatever their width.
- Decoding of malformed bytes is modelled as failing where the source returns an error or panics; which of the two is not distinguished.
