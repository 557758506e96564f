# NexusD daemon core: a verified model

NexusD is a publish/subscribe daemon. Every node runs a sidecar for local clients, tells its
peers over multicast which topics it has (as a 64-bit hash), pulls the topics of a peer whose
hash is new, and pushes publications to the peers that want them. This project models the
in-memory state machines behind that and proves what they keep over every run.

| part | modules |
|---|---|
| CRC-64 | `Gf2` (polynomial division over GF(2)), `WordView` (words as bit sequences), `Crc64`, `Ecma182` |
| Topic hash and its cache | `TopicHash`, `HashCache` |
| Local subscriptions | `Subscriptions`, `PausedRuns` |
| Peers and routes | `Routing`, `PeerRegistry` |
| The mesh | `Gossip`, `GossipSafety`, `GossipEndpoints`, `MeshConvergence`, `SplitReads`, `MeshNode` |
| Backpressure queue | `SubscriberQueue`, `QueueRuns` |
| Write pump of one stream | `WritePump`, `PumpQueue`, `Cancellation`, `SubscribeStream` |
| Replay rings and recovery | `TopicBuffer`, `ReplayStore`, `Eviction`, `TopicMessageBuffer`, `Recovery` |

Each object the daemon updates in place is a class (`Crc64.Calculator`, `PeerRegistry`,
`DiscoveryAgent`, `Queue`, `Stream`, `TopicBuffer`, `TopicMessageBuffer`). Its methods are proved
equal to functions on values, and the theorems are about runs of those functions. Concurrency
is a step system: a step is one critical section, or one atomic access where the code takes
no lock, and theorems quantify over all sequences of steps. Clocks, iteration orders of hash
tables, random id suffixes and message arrival are parameters of steps.

The main results:

- **CRC-64.** The table-driven update is long division by the ECMA-182 polynomial, given by its
  published exponents, and the CRC tells apart any two equally long strings that differ within 64
  consecutive bits.
- **Subscriptions.** Over every run the index is exactly the inverse of the active subscriptions. A
  paused one can be resumed if and only if neither the resume nor any sweep came after its expiry,
  and is then as it was; otherwise it is gone for good.
- **Mesh.** No run invents a route or an address to push to. A synced record always shows topics
  its peer had all at once, under their hash. Publications stay inside the cluster and are pushed at
  most once to each target. A round of syncs makes routes exact if and only if no record hides behind a matching
  hash, and inside any run that brings nothing stale a rebuild makes them exact if and only if a
  reply came after the beacon or the record was right already.
- **Routes under separate locks.** In every interleaving the routes lie between the topics of
  synced peers and the recorded topics, peer by peer, except for peers a thread is working on.
- **Queue.** Every accepted message has exactly one fate. The reaper is invisible to consumers
  if and only if the queue is unlimited or drops the oldest.
- **Write pump.** At most one write is outstanding if and only if the stream does not start
  with a write the flag does not stand for. A stream gets stuck exactly when a kick dequeues
  nothing. It writes what its own calls put into the queue, in that order, each message once. After
  a cancel no completion goes on, and a stream that was quiet never writes again.
- **Replay.** The byte counter is exact and within budget over every run. A topic loses its log if
  and only if it is cleared or its space is still needed when its turn comes. A paused subscription
  recovers exactly the last messages since the sequence it last noted, if and only if there were
  none, or its topic was not erased since then and it had a sequence to start from (or there was
  just one message, below the capacity).

Where the code does not do what its documents or tests say, the model follows the code:

- A sync whose reply is lost is not retried by the next identical beacon
  (`MeshConvergence.FrozenRecord`), unlike docs/ARCHITECTURE.md:602-603.
- The topic hash joins topics without a separator, unlike docs/design.md:68, so that different
  sets collide (`TopicHash.HashCollision`).
- `total_enqueued + dropped_oldest + dropped_newest`, which tests/unit/test_subscriber_queue.cpp:455
  equates with the calls made, is that number in every run only for unlimited queues and queues
  that drop the newest (`QueueRuns.TestedSumIff`).
- The reactor's first write is issued with the `writing` flag down, so a second write can start
  beside it (`WritePump.AtMostOneWriteIff`); the other pump theorems start from an idle stream.
- A producer blocked in `enqueueMessage` holds the write mutex, so with non-expiring messages it
  always runs into its timeout (`WritePump.BlockedNeverGetsSpace`).
- A message that was delivered but not buffered sets the saved sequence to 0, after which a
  replay reports no gap (`Recovery.OversizedForgets`, `Recovery.SavedPositiveIff`); and deliveries
  that note their sequences in the other order than they buffered send it back
  (`Recovery.CrossedNotesRegress`).
- A message that expires between a kick's check and its dequeue leaves the stream stuck for good
  (`WritePump.StuckRun`, `WritePump.NeverStuckIff`).
- Erasing a topic loses messages without a gap report (`Recovery.ErasureLoses`).
- A client paused before its first delivery has a saved sequence of 0, and is replayed only the
  latest message, without a gap report (`Recovery.ZeroExactIff`, `Recovery.FreshSubscriberLoses`).
- Read without a lock, the hash cache and the node state can become stale
  (`HashCache.SafeToChangeIff`, `SplitReads.SplitAnswerHidesIff`). Elsewhere each of these
  reads is one step.

The step that turns a wanted sync into a request, and a reply into an update of the peer's
record, is wired outside the core; it follows docs/ARCHITECTURE.md:526-549.

## Model

| member | source | states |
|---|---|---|
| `Gf2.FeedIsRemainder` | include/nexusd/utils/crc64.hpp:89-95 | shifting message bits through a register computes the remainder of long division, for any generator |
| `Gf2.FeedLinear` | include/nexusd/utils/crc64.hpp:89-95 | the register after a message is linear in register and message |
| `Gf2.BurstDetected` | include/nexusd/utils/crc64.hpp:89-95 | for any generator with a constant term, equally long messages that differ inside a window no longer than the register end in different registers |
| `Crc64.TableStepFeeds` | include/nexusd/utils/crc64.hpp:89-95 | one table lookup is eight bit steps of division |
| `Crc64.UpdateIsDivision` | include/nexusd/utils/crc64.hpp:89-95 | for every register and byte string, the table-driven update is the remainder of bitwise division by the ECMA-182 polynomial |
| `Crc64.DivisionDeterminesUpdate` | include/nexusd/utils/crc64.hpp:89-95 | and it is the only word with those bits |
| `Crc64.UpdateConcat` | include/nexusd/utils/crc64.hpp:89-95 | updating piece by piece equals updating with the concatenation |
| `Crc64.CrcDetectsBursts` | include/nexusd/utils/crc64.hpp:50-102 | equally long strings that differ only inside 64 consecutive bits have different CRCs |
| `Crc64.CrcDetectsByteBursts` | include/nexusd/utils/crc64.hpp:50-102 | the same for 8 consecutive bytes |
| `Ecma182.GeneratorIsEcma` | include/nexusd/utils/crc64.hpp:45-45 | the constant's bits are the terms of the generator that Annex B of ECMA-182 publishes, exponent by exponent |
| `Ecma182.CrcIsEcma` | include/nexusd/utils/crc64.hpp:50-102 | for every byte string the hash is the remainder of sixty-four ones and the message divided by the published generator, inverted bit by bit |
| `Crc64.TableRow` | include/nexusd/utils/crc64.hpp:125-141 | the inner loop leaves the specified table entry |
| `Crc64.GenerateTable` | include/nexusd/utils/crc64.hpp:125-141 | the array holds all 256 table entries |
| `Crc64.Calculator.constructor` | include/nexusd/utils/crc64.hpp:77-77 | nothing absorbed yet, with a valid table |
| `Crc64.Calculator.Absorb` | include/nexusd/utils/crc64.hpp:89-95 | the loop over the data adds exactly the data to what was absorbed, however the input is cut up |
| `Crc64.Calculator.Finalize` | include/nexusd/utils/crc64.hpp:100-102 | the CRC of everything absorbed since construction or the last reset |
| `Crc64.Calculator.Reset` | include/nexusd/utils/crc64.hpp:107-109 | what was absorbed before no longer counts, and the calculator can go on |
| `Crc64.Compute` | include/nexusd/utils/crc64.hpp:50-61 | the CRC of a string |
| `Crc64.ComputeStrings` | include/nexusd/utils/crc64.hpp:66-72 | the CRC of the joined strings |
| `TopicHash.LeqIff` | src/core/peer_registry.cpp:444-444 | the order sorted by is that of byte strings: a prefix, or a smaller byte at the first difference |
| `TopicHash.Sort` | src/core/peer_registry.cpp:444-444 | a sorted permutation |
| `TopicHash.SortedListingUnique` | src/core/peer_registry.cpp:435-448 | a multiset of topics has one sorted listing |
| `TopicHash.HashIgnoresOrder` | src/core/peer_registry.cpp:435-448 | the hash depends only on the topic set, not on iteration order or history |
| `TopicHash.HashCollision` | src/core/peer_registry.cpp:446-447 | two sorted pairs with the same concatenation are different sets with the same hash |
| `TopicHash.CollidingTopics` | src/core/peer_registry.cpp:446-447 | such pairs exist |
| `HashCache.UndisturbedIsFresh` | src/core/peer_registry.cpp:427-433 | with any number of lock-free readers, the cache is right while topics do not change between a computation and its clearing of the flag |
| `HashCache.OvertakenIsFreshIff` | src/core/peer_registry.cpp:427-433 | one read overtaken by a change leaves the cache right if and only if old and new topics share their hash |
| `HashCache.SafeToChangeIff` | src/core/peer_registry.cpp:427-433 | at every point of every undisturbed run of any readers, a change of topics is safe under all continuations if and only if no reader is between computing and clearing |
| `HashCache.OvertakenIsStale` | src/core/peer_registry.cpp:427-433 | a family of topic sets for which it is left wrong |
| `HashCache.CleanStays` | src/core/peer_registry.cpp:427-433 | a clean cache, right or wrong, stays until the topics change |
| `Subscriptions.GeneratedIdsDiffer` | src/services/sidecar_service.cpp:245-249 | ids from different counter values differ whatever the random part |
| `Subscriptions.RunConsistent` | src/core/peer_registry.cpp:147-326 | over every run active and paused ids are disjoint, and the index is exactly the inverse of the active subscriptions' topics without empty sets |
| `Subscriptions.InverseUnique` | src/core/peer_registry.cpp:147-183 | the index is determined by the subscriptions' topics |
| `Subscriptions.PauseThenResume` | src/core/peer_registry.cpp:185-280 | pause and unexpired resume restore client, topics, last sequence and index entries, whatever happened to other subscriptions |
| `Subscriptions.ResumeKeepsInverseIff` | src/core/peer_registry.cpp:233-280 | if an id is both active and paused, resuming keeps the index exact if and only if the paused topics include the active ones |
| `Subscriptions.AddThenRemove` | src/core/peer_registry.cpp:147-227 | adding is refused if and only if the id is active and removing if and only if it is not, a refusal changes nothing, and removing at once undoes an addition completely, index included |
| `PausedRuns.ResumedIff` | src/core/peer_registry.cpp:185-315 | a subscription paused at a time for a TTL can be resumed, whatever happens to others in between, if and only if neither the resume nor any sweep of expired ones came after time plus TTL; then it is as it was, with everything saved; otherwise it is neither active nor paused |
| `PausedRuns.TooLateForGood` | src/core/peer_registry.cpp:246-251 | after a resume that came too late no continuation ever resumes the id |
| `PausedRuns.UnsubscribedForGood` | src/core/peer_registry.cpp:185-227 | an id unsubscribed without a pause is never active, paused or resumable again |
| `PausedRuns.TermsKept` | src/core/peer_registry.cpp:147-280 | in every run an active or paused subscription has the client, topics and buffer size its subscribe call asked for |
| `PausedRuns.CreatedWhenActive` | src/core/peer_registry.cpp:147-280 | in every run the creation time of an active subscription is that of the subscribe or resume since which it has been active |
| `PausedRuns.IdShape` | src/services/sidecar_service.cpp:245-249 | a generated id reads sub-, the counter in decimal, a dash and the random part |
| `PausedRuns.NotedSaves` | src/core/peer_registry.cpp:317-326 | a list of noted sequences changes an active subscription only by the last note for it |
| `PeerRegistry.PeerRegistry.constructor` | src/core/peer_registry.cpp:17-21 | an empty registry whose hash is still to be computed |
| `PeerRegistry.PeerRegistry.UpsertPeer` | src/core/peer_registry.cpp:27-60 | inserts or updates a record; a sync is wanted for a new peer or a changed hash, which unsyncs the record |
| `PeerRegistry.PeerRegistry.RemovePeer` | src/core/peer_registry.cpp:62-74 | drops the record and rebuilds |
| `PeerRegistry.PeerRegistry.UpdatePeerState` | src/core/peer_registry.cpp:95-112 | records topics and hash of a known peer as synced and rebuilds |
| `PeerRegistry.PeerRegistry.ReapDeadPeers` | src/core/peer_registry.cpp:114-141 | drops exactly the peers not seen for longer than the timeout, and rebuilds if there were any |
| `PeerRegistry.PeerRegistry.RebuildRoutingTable` | src/core/peer_registry.cpp:405-421 | the nested loops compute the routing table that the peer table calls for |
| `PeerRegistry.EnterAll` | src/core/peer_registry.cpp:171-174 | the loop enters an id under each of its topics, repeats included |
| `PeerRegistry.StrikeAll` | src/core/peer_registry.cpp:211-220 | the loop strikes an id from its topics and drops topics left without ids |
| `PeerRegistry.PeerRegistry.AddLocalSubscription` | src/core/peer_registry.cpp:147-183 | refuses an active id, else enters it and dirties the hash |
| `PeerRegistry.PeerRegistry.RemoveLocalSubscription` | src/core/peer_registry.cpp:185-227 | removes an active id, saving it first if it is paused |
| `PeerRegistry.PeerRegistry.ResumeSubscription` | src/core/peer_registry.cpp:233-280 | revives an unexpired paused id, forgets an expired one, refuses others |
| `PeerRegistry.PeerRegistry.ClearExpiredPausedSubscriptions` | src/core/peer_registry.cpp:294-315 | keeps exactly the unexpired paused ids and counts the rest |
| `PeerRegistry.PeerRegistry.UpdateSubscriptionSequence` | src/core/peer_registry.cpp:317-326 | notes the last sequence of an active id |
| `PeerRegistry.PeerRegistry.GetLocalTopics` | src/core/peer_registry.cpp:347-358 | every indexed topic once |
| `PeerRegistry.PeerRegistry.ComputeLocalTopicHash` | src/core/peer_registry.cpp:435-448 | the hash of the indexed topics |
| `PeerRegistry.PeerRegistry.GetLocalTopicHash` | src/core/peer_registry.cpp:427-433 | taken as one step, every call returns the hash of the present topic set |
| `Routing.RebuildRoutes` | src/core/peer_registry.cpp:405-421 | the rebuilt table routes exactly the topics of synced peers, with no empty entry |
| `Routing.SameRoutes` | src/core/peer_registry.cpp:405-421 | a table without empty entries is determined by the pairs it routes |
| `Routing.RunCoherent` | src/core/peer_registry.cpp:27-141 | in every interleaving, for every peer no thread is between mutating and rebuilding, the routes name all its topics if it is synced and only recorded ones; right after a rebuild they are exactly the synced peers' topics |
| `Routing.RecordIsLatestBeacon` | src/core/peer_registry.cpp:27-60 | in every interleaving a known peer's endpoint and last-seen time are those of its latest beacon |
| `Routing.ReapsTheSilent` | src/core/peer_registry.cpp:114-141 | reaping forgets a peer if and only if its latest beacon is older than the timeout |
| `Routing.RemovedUntilHeard` | src/core/peer_registry.cpp:62-74 | in every interleaving a removed peer stays unknown until its next beacon |
| `Routing.TopicsAreLatestUpdate` | src/core/peer_registry.cpp:95-112 | in every interleaving the topics of a peer known ever since are those of the latest update it got |
| `GossipSafety.NoInventedRoutes` | src/core/peer_registry.cpp:405-421 | in every run with lost, repeated, reordered and stale traffic, a routed peer is another node of the same cluster that had the topic at some earlier moment |
| `GossipSafety.SyncConsistent` | src/core/peer_registry.cpp:95-112 | in every reachable state a record is of another node of the same cluster, and a synced record holds topics its peer had all at once, under their hash |
| `GossipSafety.PublishReaches` | src/services/sidecar_service.cpp:305-324 | a publication's targets are, each once, the peers routed at its publishing step; later steps look them up, each once and in order, and push if and only if the target is known at that step; all are of the publisher's cluster and had the topic; a push is received only where one was made |
| `GossipSafety.SingleHop` | src/services/mesh_service.cpp:88-107 | deleting all receipts of pushes from a run leaves publications, beacons, requests, replies and every node's peers, routes, subscriptions and topics equal: a received push causes no further push, and only the sequences it notes for local subscribers differ |
| `GossipEndpoints.BeaconFromSender` | src/core/discovery_agent.cpp:162-198 | in every run the endpoint in a beacon is one its sender had at some moment of the run |
| `GossipEndpoints.RecordOfPeer` | src/core/peer_registry.cpp:27-60 | in every run the endpoint recorded for a peer is one that peer had at some moment, and the recorded cluster is the peer's own |
| `GossipEndpoints.PushToTarget` | src/services/sidecar_service.cpp:305-324 | in every run a push goes to an endpoint its target had at some moment |
| `GossipEndpoints.BeaconIsPresent` | src/core/discovery_agent.cpp:162-198 | a beacon carries its sender's present endpoint and cluster, also right after a move |
| `GossipEndpoints.ForgottenUnrouted` | src/core/peer_registry.cpp:114-141 | a forgotten peer is neither known nor, after the rebuild, routed to; others stay known |
| `GossipEndpoints.ReceivedIff` | src/services/mesh_service.cpp:88-107 | in every run exactly the pushes that some step delivered to their target are received |
| `GossipEndpoints.ReceiptNotes` | src/services/sidecar_service.cpp:848-862 | a receipt saves for each active subscription of the target the last sequence noted for it, and changes no more of it |
| `MeshConvergence.BeaconAsksIff` | src/core/discovery_agent.cpp:200-246 | a beacon unsyncs the record and is asked about if and only if the recorded hash is not the sender's |
| `MeshConvergence.SyncRoutesIff` | src/core/discovery_agent.cpp:234-245 | after a sync of one pair the routes to that peer are exactly its topics, if and only if no stale record hid behind a matching hash |
| `MeshConvergence.MeshConvergesIff` | src/core/peer_registry.cpp:27-112 | the same for every pair of a round over any pairs in any order; later syncs do not undo earlier ones |
| `MeshConvergence.ConvergesInAnyRun` | src/core/peer_registry.cpp:27-112 | in any run, once p's topics have settled and n hears nothing from before that does not show them, after a beacon of p a rebuild makes n's routes to p exactly p's topics if and only if a reply of p reached n in between or n's record showed them already |
| `MeshConvergence.FrozenRecord` | src/core/peer_registry.cpp:44-59 | while beacons repeat the recorded hash and no reply comes, the record and the routes any rebuild makes from it never change, and no request is made |
| `SplitReads.SplitRefinesAtomic` | src/services/mesh_service.cpp:37-64 | with the two reads of an answer as separate steps, a run in which topics read are still true when their hash is read is a run with atomic answers |
| `SplitReads.SplitAnswerHidesIff` | src/services/mesh_service.cpp:37-64 | the record an answer leaves hides behind a matching hash if and only if the sender's local steps between the two reads changed its topic set |
| `SplitReads.OvertakenAnswerHides` | src/services/mesh_service.cpp:37-64 | a run that does so: one subscription to a new topic between the reads |
| `MeshConvergence.BlockedReason` | src/core/peer_registry.cpp:44-59 | in reachable states a hidden record either waits for a reply or shows a colliding topic set |
| `MeshNode.ProcessIsHearing` | src/core/discovery_agent.cpp:200-246 | receiving a beacon in the mesh is what the node's code does with it |
| `MeshNode.LookIsOutcome` | src/services/sidecar_service.cpp:305-319 | looking up a target in the mesh is what the publisher's code does with it, and counts as a push if and only if it is found |
| `MeshNode.PushesKnown` | src/services/sidecar_service.cpp:305-319 | the number of pushes is the number of routed peers that are known |
| `MeshNode.DiscoveryAgent.constructor` | src/core/discovery_agent.cpp:20-29 | an agent for one registry, cluster and endpoint |
| `MeshNode.DiscoveryAgent.SendBeacon` | src/core/discovery_agent.cpp:162-198 | a beacon carries id, cluster, endpoint and the hash of the present topics |
| `MeshNode.DiscoveryAgent.ProcessBeacon` | src/core/discovery_agent.cpp:200-246 | own and foreign beacons change nothing; others update the record and ask for a sync as the registry says, of an unsynced peer |
| `MeshNode.GetNodeState` | src/services/mesh_service.cpp:37-64 | the answer lists every local topic once, with the hash of just those topics |
| `MeshNode.GetRemoteSubscribers` | src/core/peer_registry.cpp:364-377 | every routed peer once |
| `MeshNode.ForwardToPeers` | src/services/sidecar_service.cpp:305-319 | one look-up per routed peer, a push for each one found, and as their number that of routed peers that are known |
| `SubscriberQueue.Stamp` | include/nexusd/core/subscriber_queue.hpp:121-132 | a message expires when the publisher TTL, else the default TTL, has passed, and never if neither is positive |
| `SubscriberQueue.ExpiredPrefix` | include/nexusd/core/subscriber_queue.hpp:222-240 | the longest prefix of expired messages |
| `SubscriberQueue.DequeueOldestLive` | include/nexusd/core/subscriber_queue.hpp:186-216 | dequeue gives out the oldest live message and drops the expired ones before it |
| `SubscriberQueue.Queue.constructor` | include/nexusd/core/subscriber_queue.hpp:90-100 | an empty open queue |
| `SubscriberQueue.Queue.Admit` | include/nexusd/core/subscriber_queue.hpp:116-132 | a closed queue refuses; an open one stamps the message |
| `SubscriberQueue.Queue.TryEnqueue` | include/nexusd/core/subscriber_queue.hpp:134-174 | the locked part of enqueue under the three policies, up to a wait |
| `SubscriberQueue.Queue.FinishEnqueue` | include/nexusd/core/subscriber_queue.hpp:149-174 | after a wait: timeout or close falls back to dropping the oldest |
| `SubscriberQueue.Queue.ReapExpired` | include/nexusd/core/subscriber_queue.hpp:222-240 | the loop drops and counts exactly the expired prefix |
| `SubscriberQueue.Queue.Take` | include/nexusd/core/subscriber_queue.hpp:186-216 | dequeue with its loop over expired messages |
| `QueueRuns.ClosedAdmitsNobody` | include/nexusd/core/subscriber_queue.hpp:272-275 | after a close the queue stays closed and completes only the calls that were inside when it was closed, each at most once |
| `QueueRuns.RunRefinesLog` | include/nexusd/core/subscriber_queue.hpp:116-240 | in every run the accepted messages are a removed prefix, then the present contents; each removed one is delivered by a dequeue before its time, expired by a dequeue or reap at or after it, or overwritten as the oldest by a producer on a full drop-oldest queue or after a failed wait; deliveries are in order without duplicates and the counters count the fates |
| `QueueRuns.AcceptedAsCalled` | include/nexusd/core/subscriber_queue.hpp:116-180 | in every run whatever the queue accepted is the message of a call on the open queue, with the expiry that the publisher's TTL, else the default TTL, gives it |
| `QueueRuns.Conservation` | include/nexusd/core/subscriber_queue.hpp:116-240 | total_enqueued = depth + delivered + dropped_oldest + dropped_ttl |
| `QueueRuns.CompletedCalls` | include/nexusd/core/subscriber_queue.hpp:116-180 | in every run completed calls are total_enqueued plus dropped_newest |
| `QueueRuns.OverwritingRun` | include/nexusd/core/subscriber_queue.hpp:137-167 | for every limited drop-oldest or blocking queue, a run that overwrites a message |
| `QueueRuns.TestedSumIff` | tests/unit/test_subscriber_queue.cpp:452-456 | total_enqueued + dropped_oldest + dropped_newest is the number of calls in every run if and only if the queue is unlimited or drops the newest |
| `QueueRuns.DepthBounded` | include/nexusd/core/subscriber_queue.hpp:137-174 | depth <= high watermark <= limit for every policy and every interleaving of producers, waits, consumers, reaping and close |
| `QueueRuns.WatermarkIsPeak` | include/nexusd/core/subscriber_queue.hpp:168-174 | in every run the high watermark is the largest depth the queue had after any prefix of the run |
| `QueueRuns.DropsExactly` | include/nexusd/core/subscriber_queue.hpp:137-174 | each drop counter moves, by one, on exactly the steps named: a full drop-newest queue, a full drop-oldest queue or a failed wait with something to drop, a failed wait |
| `QueueRuns.RunLags` | include/nexusd/core/subscriber_queue.hpp:116-240 | for unlimited or drop-oldest queues, a run without its reaper steps gives the same dequeue results and lags only by expired messages |
| `QueueRuns.ReaperMatters` | include/nexusd/core/subscriber_queue.hpp:137-167 | for every other queue, a run in which the reaper changes a result |
| `QueueRuns.ReaperInvisibleIff` | include/nexusd/core/subscriber_queue.hpp:116-240 | the reaper is invisible to consumers in all runs if and only if the queue is unlimited or drops the oldest |
| `WritePump.AtMostOneWriteIff` | src/services/sidecar_service.cpp:88-158 | no run ever has two writes outstanding if and only if the stream starts idle or with a write the flag stands for |
| `WritePump.EnteringOutcome` | src/services/sidecar_service.cpp:131-141 | a call on a full drop-newest queue is over with the contents unchanged, one on a full blocking queue waits, any other has its message in, for the oldest if full, and goes on to start the writing |
| `WritePump.PumpFromIdle` | src/services/sidecar_service.cpp:93-158 | from idle, in every interleaving: one write at most; stuck exactly when a kick dequeued nothing; otherwise waiting messages have their write in flight |
| `WritePump.StuckRun` | src/services/sidecar_service.cpp:143-156 | for every configuration and lifetime, a run of one call that leaves the stream stuck |
| `WritePump.NeverStuckIff` | src/services/sidecar_service.cpp:93-158 | streams whose publishers set no TTL never get stuck if and only if there is no default TTL |
| `WritePump.StuckStays` | src/services/sidecar_service.cpp:143-156 | a stuck stream stays stuck |
| `WritePump.NothingStranded` | src/services/sidecar_service.cpp:93-158 | with non-expiring messages, a non-empty queue with no thread mid-call has a write in flight |
| `WritePump.BlockedNeverGetsSpace` | src/services/sidecar_service.cpp:136-141 | with non-expiring messages, a blocked producer's wait always ends in the fallback |
| `WritePump.BlockedKeepsConsumersOut` | src/services/sidecar_service.cpp:136-141 | while it waits only the reaper or its own step touches the queue |
| `PumpQueue.PumpIsQueueRun` | src/services/sidecar_service.cpp:93-158 | a stream's own steps amount to a run of its queue: same contents and counters, blocked threads as waiting producers, the entries its calls put in as what is accepted, and its writes as what is given out |
| `PumpQueue.WritesInOrder` | src/services/sidecar_service.cpp:93-158 | in every interleaving the messages written are exactly those the stream's own calls put into the queue and that were neither overwritten nor expired nor are still queued, in the order they were put in, each once, one at a time |
| `Cancellation.CallEntersIff` | src/services/sidecar_service.cpp:131-134 | in every run a call enters the stream if and only if no cancel came before; otherwise it changes nothing |
| `Cancellation.CompletionGoesOnIff` | src/services/sidecar_service.cpp:93-116 | in every run the completion of a write goes on to the queue if and only if it succeeded and no cancel came before; otherwise it finishes the stream |
| `Cancellation.NoThreadAfterCancel` | src/services/sidecar_service.cpp:93-116 | after a cancel no call and no completion starts anything |
| `Cancellation.CancelledWritesNothing` | src/services/sidecar_service.cpp:93-116 | if no thread was mid-call at the cancel, the run never writes another message |
| `Cancellation.CancelledFinishes` | src/services/sidecar_service.cpp:93-116 | after a cancel the first completion finishes the stream |
| `SubscribeStream.SpinIsRun` | src/services/sidecar_service.cpp:93-158 | a call running alone is one of the interleavings |
| `SubscribeStream.Stream.EnqueueMessage` | src/services/sidecar_service.cpp:131-158 | a closed queue or an ended stream refuses; else the method's effect is that of its pump steps without interruption, and it reports whether the message was enqueued |
| `SubscribeStream.Stream.OnWriteDone` | src/services/sidecar_service.cpp:93-110 | likewise for the completion callback |
| `TopicBuffer.PushAppends` | include/nexusd/core/topic_message_buffer.hpp:51-68 | pushing onto the ring of a log gives the ring of the longer log: the last min(capacity, n) messages, contiguous sequences, exact byte total |
| `TopicBuffer.AboveRetained` | include/nexusd/core/topic_message_buffer.hpp:75-83 | the messages above a sequence are the retained suffix of the log beyond it |
| `TopicBuffer.Observers` | include/nexusd/core/topic_message_buffer.hpp:89-123 | oldest and current sequence and the latest message of a ring in terms of its log; hasSequence is membership |
| `TopicBuffer.TopicBuffer.constructor` | include/nexusd/core/topic_message_buffer.hpp:42-43 | an empty ring numbered from 1 |
| `TopicBuffer.TopicBuffer.Push` | include/nexusd/core/topic_message_buffer.hpp:51-68 | evicts the oldest if full, appends, counts bytes, returns the sequence |
| `TopicBuffer.TopicBuffer.GetMessagesAfter` | include/nexusd/core/topic_message_buffer.hpp:75-83 | the loop collects exactly the messages above a sequence |
| `ReplayStore.RunValid` | src/core/topic_message_buffer.cpp:24-229 | over every run the byte counter is the sum of buffered sizes, never underflows, and stays within a non-zero budget |
| `ReplayStore.EvictValid` | src/core/topic_message_buffer.cpp:189-229 | eviction keeps the counter exact, never raises it and only erases whole topics |
| `ReplayStore.EvictReaches` | src/core/topic_message_buffer.cpp:189-229 | unless a topic is named "", eviction reaches its target |
| `ReplayStore.OversizedRefused` | src/core/topic_message_buffer.cpp:189-229 | a payload larger than the budget returns 0 with nothing evicted, although the target wraps |
| `ReplayStore.AlwaysAcceptedIff` | src/core/topic_message_buffer.cpp:24-64 | a payload is accepted under every iteration order if and only if there is no budget, or it fits and needs no eviction or no topic is named "" |
| `Eviction.MinimalEviction` | src/core/topic_message_buffer.cpp:189-229 | making room erases the topics of a list in iteration order; before each erasure the buffered bytes and the payload exceeded the budget, after the last they do not, unless it gave up at a topic named "" or the payload alone is too large and nothing went |
| `Eviction.StepLogExact` | src/core/topic_message_buffer.cpp:24-229 | in every run and for every topic, a step restarts the topic's log if and only if it clears it, or its space is still needed with all topics before it gone and none named "" in the way; it appends a message if and only if there is or will be room; and the number returned is the message's place in the log |
| `ReplayStore.ReplayExact` | src/core/topic_message_buffer.cpp:66-114 | a client that saw s >= 1 messages of an epoch is sent exactly the last min(k, capacity) of the k after them; missed plus replayed is k; gap if and only if k >= capacity |
| `ReplayStore.ReplayAccounts` | src/core/topic_message_buffer.cpp:66-114 | a replay accounts, as sent or missed, for exactly the messages numbered beyond the client's sequence, and is empty if and only if the client is at or ahead of the present numbering |
| `TopicMessageBuffer.TopicMessageBuffer.constructor` | src/core/topic_message_buffer.cpp:13-22 | an empty table, whatever the limits; valid if rings can hold a message |
| `TopicMessageBuffer.TopicMessageBuffer.BufferMessage` | src/core/topic_message_buffer.cpp:24-64 | makes room, gets or creates the ring, pushes, carries the byte total over |
| `TopicMessageBuffer.TopicMessageBuffer.MakeSpace` | src/core/topic_message_buffer.cpp:189-229 | the eviction loop, which terminates by the number of topics |
| `TopicMessageBuffer.TopicMessageBuffer.PickTopic` | src/core/topic_message_buffer.cpp:206-213 | the first non-empty topic in iteration order |
| `TopicMessageBuffer.TopicMessageBuffer.ClearTopic` | src/core/topic_message_buffer.cpp:178-187 | erases the topic's ring and its bytes |
| `TopicMessageBuffer.TopicMessageBuffer.Clear` | src/core/topic_message_buffer.cpp:169-176 | erases everything |
| `TopicMessageBuffer.TopicMessageBuffer.GetMessagesForReplay` | src/core/topic_message_buffer.cpp:66-114 | the replay of the topic's log |
| `TopicMessageBuffer.TopicMessageBuffer.GetRetainedMessage` | src/core/topic_message_buffer.cpp:116-127 | the latest message, which is also the replay from sequence 0 |
| `TopicMessageBuffer.PushRing` | src/core/topic_message_buffer.cpp:50-57 | pushing onto a ring gives the ring of the longer log, and its sequence |
| `TopicMessageBuffer.ReplayRing` | src/core/topic_message_buffer.cpp:84-114 | replay from a ring is replay from the log it stands for |
| `Recovery.RecoverGaps` | src/services/sidecar_service.cpp:563-620 | the loop over a resumed subscription's topics collects messages, gap and missed count in each recovery mode, from the requested sequence if it is at least 1 and else from the saved one |
| `Recovery.RecoverTopic` | src/services/sidecar_service.cpp:580-614 | the same for one topic |
| `Recovery.TopicsInTurn` | src/services/sidecar_service.cpp:566-614 | what some topics get comes before what later ones get, and gap and missed count join |
| `Recovery.TopicsAccounted` | src/services/sidecar_service.cpp:566-620 | for any topics, messages sent and missed are together exactly those numbered beyond the sequence in each, with a gap if and only if one topic has a capacity of them or more |
| `Recovery.OtherModes` | src/services/sidecar_service.cpp:566-594 | the other modes send nothing, or just the latest message of each topic that has one, without gap or missed count |
| `Recovery.GapFlagged` | src/services/sidecar_service.cpp:616-619 | a missed count never comes without the gap flag |
| `Recovery.LogGrows` | src/core/topic_message_buffer.cpp:24-64 | a topic that is never erased has the log it had followed by what was buffered |
| `Recovery.LogAfterErasure` | src/core/topic_message_buffer.cpp:178-229 | after an erasure the log is the last part of what arrived |
| `Recovery.ErasureLoses` | src/core/topic_message_buffer.cpp:66-114 | if the topic was erased, the client is sent or told of only what the new numbering has beyond its old sequence, and loses at least one message silently unless there was none |
| `Recovery.ZeroExactIff` | src/core/topic_message_buffer.cpp:84-91 | a client that has seen nothing is served exactly if and only if there was nothing, or one message that was not erased and a capacity above one |
| `Recovery.AheadLoses` | src/core/topic_message_buffer.cpp:66-114 | a client ahead of its topic's log is sent or told of only what the numbering reaches beyond its sequence, which is all there was only if there was nothing |
| `Recovery.ExactRecovery` | src/services/sidecar_service.cpp:546-625 | a is the sequence the client requests if at least 1, else the one last noted for it. After that note any steps, a pause, any steps with no sweep past its expiry, and a resume no later than that: the subscription is restored, and it is sent, in order, exactly the last min(k, capacity) of the k messages after the a-th, with missed plus replayed equal to k and a gap exactly when k >= capacity, if and only if k is 0, or a is not ahead of the log, the topic was not erased since, and either a >= 1, or k is 1 and below the capacity |
| `Recovery.ZeroForgets` | src/services/sidecar_service.cpp:568-578 | if the saved sequence is 0, whatever happens in the pause, a resume that names no sequence is sent at most one message and told of no gap |
| `Recovery.FreshSubscriberLoses` | src/core/topic_message_buffer.cpp:84-91 | a run that shows it: a client paused before its first delivery, k messages, none erased, and at most one replayed without a gap |
| `Recovery.UnlimitedNeverErases` | src/core/topic_message_buffer.cpp:24-64 | without a byte budget only clearing erases a topic |
| `Recovery.DeliveryNoted` | src/services/sidecar_service.cpp:798-862 | with buffering and noting as separate steps, the saved sequence is the noted one, and it is the end of an unerased topic's log if and only if no other message of the topic was buffered in between |
| `Recovery.SavedIsLastNote` | src/core/peer_registry.cpp:317-326 | however deliveries interleave, the saved sequence is the last one noted, and nothing else of an active subscription changes |
| `Recovery.CrossedNotesRegress` | src/services/sidecar_service.cpp:798-862 | two deliveries that buffer in one order and note in the other leave the saved sequence one short, and a replay sends a delivered message again |
| `Recovery.SavedPositiveIff` | src/services/sidecar_service.cpp:798-862 | a delivery saves a positive sequence under every iteration order if and only if there is no budget, or the payload fits and needs no eviction or no topic is named "" |
| `Recovery.OversizedForgets` | src/services/sidecar_service.cpp:798-862 | after an oversized message is delivered, whatever happens in a pause that follows, the replay sends at most one message and reports no gap |
| `Recovery.OversizedLosesAny` | src/services/sidecar_service.cpp:798-862 | and any number of messages can be missed in such a pause |

## Left out

- Sockets, multicast, gRPC reactor lifetimes, protobuf encoding and the mesh client: sends and completions are steps.
- Retained messages of the registry, delivery callbacks, peer health status, logging, UUID generation, configuration, the command-line tools and the clients: easy members, input/output or randomness.
- Matching a message to the streams of its topic: a loop with one comparison. A delivery names its subscription directly.
- Live delivery onto a resumed stream: the source casts every reactor to the subscribe reactor there, so the pump covers subscribe streams only.
- Multi-topic resume: one saved sequence is applied to every topic. `Recovery.RecoverGaps` models the loop for any number of topics, and `Recovery.TopicsAccounted` says what it sends and counts; that this is what was missed is claimed for one topic, as per-topic sequences are never saved.
- `TopicBuffer::clear` and the unused observers of the buffers.
- Wake-ups of the queue's condition variable: a waiting producer may go on at any time, which includes every real wake-up and timeout.
- Wrap-around of 64-bit counters, sequence numbers, clocks and byte sums: they are unbounded. The one subtraction that does wrap, budget minus needed size, is modelled modulo 2^64.
- A closed queue in `WritePump`: no code closes the queue of a live stream, and there it stays open.
- ReplayStore.RunValid: rings hold at least one message; with capacity 0 the source's push pops from an empty deque. The same goes for the methods of `TopicMessageBuffer`.
- SubscribeStream.Stream.EnqueueMessage: the object runs one call at a time; interleaved calls are on values in `WritePump`.
- PeerRegistry.PeerRegistry.RemovePeer: mutation and rebuild run together; apart they are steps of `Routing`.
- PeerRegistry.PeerRegistry.UpdatePeerState: mutation and rebuild run together; apart they are steps of `Routing`.
- PeerRegistry.PeerRegistry.ReapDeadPeers: mutation and rebuild run together; apart they are steps of `Routing`.
- MeshNode.DiscoveryAgent.SendBeacon: omits the timestamp and the protocol version, which no receiver reads.
- MeshNode.GetNodeState: omits the retained messages of the answer.
- MeshConvergence.MeshConvergesIff: each sync runs alone; `MeshConvergence.ConvergesInAnyRun` is the interleaved form.
- Recovery.ExactRecovery: measures from the saved sequence, which the source advances when a message is enqueued for the subscriber, so messages still queued at the pause count as seen.
- GossipSafety.PublishReaches: a push goes to the endpoint recorded for its target, which the target had (`GossipEndpoints.PushToTarget`) but may have left; who listens there is not modelled.
