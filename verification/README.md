# Warp in Dafny

A Dafny 4.11 model of the parts of go-warp that are hard to get right, with proofs about every input,
every run or every reachable state. `dafny verify dfyconfig.toml` checks the whole project.

## What is modelled

**StreamBus.** `FrameQueues`, `ReplayBuffers`, `Tries`, `Routing`, `Subscriptions` and `StreamBus` are the
data structures as they are updated in place: four modular rings per subscription, the replay ring per
topic, the byte trie of prefix subscriptions, and the bus over them. Each is proved against a plain
definition: one list in arrival order (`QueueModel`, `QueueLog`), the tail of a history, a scan of the
registry. `SubscriptionSteps` is the protocol of publishers, consumer and one-slot channels as a step
system, and `Handoff` adds publishes and a resuming subscribe around it; both speak about all interleavings.

**Wire formats.** `Varints`, `WireFormat` and `WireStreams` are the StreamBus message codec (base-128
varints and zigzag as in Go's encoding/binary), its length framing and the writers and readers that move
bytes. `MeshPackets` is the mesh packet with its hand-computed offsets and 16-bit lengths.

**Caches.** `RecencyLists` is the reference for the LRU cache, with runs of operations; `LruCaches` is the map,
key list and running byte count that refine it. `ReadPaths` puts `Get` and `Set` of the core on top of that cache.

**WatchBus.** `WatchBus` is the rune trie whose nodes carry materialised watcher sets.

**Locks, merging, transactions.** `TokenLocks` is an abstract token lock; `NatsLocks` and `RedisLocks` are the two
distributed lockers as step systems that refine it. `Merging` holds vector clocks, last-write-wins and the
merge engine. `Commits` lists the effects of a commit over a cache with limits, each read seeing the cache as the
effects before it have left it. `CommitLaws` proves what a commit does to the store, `CommitOrder` when the order
of its keys matters, `CommitCaches` and `CommitRetention` what it leaves in the cache, `CommitWaits` what precedes
the acknowledgements, `CommitFailures` what a failure leaves behind and `CommitSwaps` what is compared, written and
announced, told from the cache lookups alone. `Transactions` is the builder, the batch and the commit loops.

`Sequences`, `Options`, `Frames` and `Rings` are shared vocabulary.

## Where the code and its documentation differ

The model follows the code; each difference is pinned by a lemma that says exactly when the claim holds.

- A journal can be out of sequence order, because `Publish` draws its number before it takes the bus lock
  (streambus/inmemory.go:115-120). Then a resume can skip a frame in silence: `OutOfOrderJournalHidesAGap`,
  `ResumeCompleteExactly`.
- `LatestOnly` is described as collapsing the queue to the most recent state (docs/streambus.md:48); it does so
  only on overflow: `LatestOnlyCollapsesExactly`.
- A negative `ReplayCapacity` keeps no journal yet grants every resume: `NegativeCapacityResume`.
- The documentation promises that a commit waits for a quorum for all keys before applying any (docs/core.md:128).
  Mixed modes can overtake: `WaitsExactly` gives the exact condition.
- It also promises that a commit is atomic (core/core.go:1286, docs/core.md:128). A failing call can leave the cache
  or the store changed unless the whole transaction is at most one call: `AtomicExactly`. What holds beyond that is
  `FailureKeepsBatchingStore`, `StrongRefusalChangesNothing` and `MissedQuorumChangesNothing`.
- A commit visits its keys in Go's map order. Over a bounded cache a weak set can evict a key that is still to be
  compared or merged, so the same commit can succeed or fail: `EvictionMakesOrderMatter`. `OrderNeverMattersExactly`
  says when that cannot happen.
- A transactional delete never reaches a store without batches: `DeletedKeySurvives`.
- `Release` is described as freeing the lock if this instance still holds it (lock/nats.go:130). A late local
  registration breaks that, with both lockers: `LateRegistrationBlocksRelease`, `ReleasableInEveryRun`.
- `Publish` on the WatchBus never visits the root and `PublishPrefix("")` finds no watchers: `PublishIsScan`,
  `PublishPrefixIsScan`.
- Last-write-wins is described as going by timestamp and falling back to the vector clock on a tie (merge/merge.go:90-91);
  the code looks at the clocks first: `MergeLastWrite`, `DominatingWriteWins`.
- Last-write-wins converges only when one write beats all others: `ConvergesExactly`, `ThreeWritesInACircle`.
- Without a grace period staleness is not looked at, so a value past its own time to live is served while it is
  cached, although the store would answer: `ReadPaths.Warp.Get`, `StaleWindowExactly`.
- A size below zero, which a `Sizer` may report, lets an invalidation push the cache over its byte limit:
  `ByteLimitExactly`.
- A full replay ring reports a gap on some resumes that miss nothing: `FalseAlarmInterval`.
- A frame in flight when a subscription closes is neither delivered nor counted as dropped: `FrameAbandoned`,
  `CountersBalanceExactly`.

## Model

| member | source | states |
|---|---|---|
| QueueModel.NextIndex | streambus/queue.go:66-74 | among queued frames in arrival order, the next one is the earliest arrival of the highest class |
| QueueModel.NextTakesLaneHead | streambus/queue.go:66-74 | taking the next frame removes the head of its class and leaves every other class as it was |
| QueueModel.OldestIndex | streambus/queue.go:78-97 | the oldest frame is the least-numbered of the class heads, the lower class winning a tie |
| QueueModel.OldestUnique | streambus/queue.go:78-97 | that description fits one queued frame only |
| QueueModel.OldestTakesLaneHead | streambus/queue.go:78-97 | evicting the oldest removes the head of one class and leaves the others alone |
| QueueModel.OldestIsGlobalMinimum | streambus/queue.go:76-97 | when every class is sorted by sequence the evicted frame has the least sequence of all |
| FrameQueues.RingQueue.Push | streambus/queue.go:13-17 | a push into a ring with room appends to its contents and overwrites no live slot |
| FrameQueues.RingQueue.Peek | streambus/queue.go:19-24 | the head of the contents, without changing them |
| FrameQueues.RingQueue.Pop | streambus/queue.go:26-35 | removes the head of the contents, across the wrap-around |
| FrameQueues.FrameQueue.constructor | streambus/queue.go:43-49 | four distinct empty rings of the full capacity |
| FrameQueues.FrameQueue.Push | streambus/queue.go:51-62 | accepts exactly below capacity, appends in arrival order, unknown priorities count as normal |
| FrameQueues.FrameQueue.Pop | streambus/queue.go:66-74 | returns and removes the reference queue's next frame |
| FrameQueues.FrameQueue.PopOldest | streambus/queue.go:78-97 | returns and removes the reference queue's oldest frame |
| FrameQueues.FrameQueue.OldestRing | streambus/queue.go:79-90 | the scan over ring heads selects the least sequence, the lower class on a tie |
| FrameQueues.FrameQueue.Clear | streambus/queue.go:99-108 | empties the queue and reports how many frames it held |
| QueueLog.OfferFacts | streambus/subscription.go:103-132 | an offer waits exactly on a full queue whose policy drops nothing, and otherwise accepts or refuses its frame |
| QueueLog.OfferExactly | streambus/subscription.go:103-132 | queue, evictions and refusals afterwards, policy by policy: appended below capacity; full, DropNewest refuses, DropOldest gives up the one oldest frame, LatestOnly gives up all, anything else waits |
| QueueLog.AdmitAllCounts | streambus/subscription.go:80-94 | a preload gives up exactly as many frames as do not fit |
| QueueLog.OfferGood | streambus/subscription.go:103-132 | an offer keeps capacity, conservation, per-class order and the age of evictions |
| QueueLog.AdmitAllGood | streambus/subscription.go:80-94 | so does a preload |
| QueueLog.AdmitAllFits | streambus/subscription.go:80-94 | a preload that fits evicts nothing |
| QueueLog.PopGood | streambus/subscription.go:152-154 | and so does taking a frame |
| QueueLog.NothingEvictedMeansExactFifo | streambus/subscription.go:80-168 | without evictions, popped then queued frames of a class are exactly the accepted ones |
| QueueLog.LatestOnlyCollapsesExactly | streambus/subscription.go:103-130 | LatestOnly leaves only the new frame if and only if the queue was empty or full |
| Subscriptions.Subscription.constructor | streambus/subscription.go:28-41 | a fresh open subscription with an empty queue of the requested size |
| Subscriptions.Subscription.Preload | streambus/subscription.go:80-94 | loads the replay, keeps a full buffer when it does not fit, counts what was given up, and signals when anything is queued |
| Subscriptions.Subscription.TryEnqueue | streambus/subscription.go:96-142 | one pass of enqueue, told from queue and counters: pushed below capacity; full, policy 1 drops the new frame, 2 replaces the one oldest and stays full, 3 leaves only the new one, others wait; a closed one takes nothing |
| Subscriptions.Subscription.TakeFrame | streambus/subscription.go:152-154 | the locked pop takes the earliest frame of the highest class and leaves the others in order |
| SubscriptionSteps.StepProtocol | streambus/subscription.go:96-175 | every step of every goroutine keeps the wake-up protocol |
| SubscriptionSteps.StepGood | streambus/subscription.go:80-168 | every step keeps the queue bookkeeping |
| SubscriptionSteps.NoLostWakeup | streambus/subscription.go:96-175 | in every interleaving a queued frame has a token, a busy consumer or a publisher about to signal, and a waiting publisher has a token, a queued frame, a consumer about to signal or a retrying publisher |
| SubscriptionSteps.Conservation | streambus/subscription.go:80-168 | offered frames are exactly the delivered, in flight, abandoned at exit, queued, evicted and refused ones |
| SubscriptionSteps.CountersBalanceExactly | streambus/subscription.go:144-168 | delivered, in-flight, queued and dropped frames add up to the offered ones if and only if the consumer did not exit while sending |
| SubscriptionSteps.FrameAbandoned | streambus/subscription.go:155-165 | for every frame, a run that ends with it neither delivered nor counted as dropped |
| SubscriptionSteps.PerClassFifo | streambus/subscription.go:80-168 | popped then queued frames of a class are a subsequence of the accepted ones, all of them without evictions |
| SubscriptionSteps.BlockIsExactFifo | streambus/subscription.go:96-168 | under Block and DropNewest, with preloads that fit, they are exactly the accepted ones in order |
| SubscriptionSteps.DropPolicy | streambus/subscription.go:110-130 | evicted frames are older than queued ones, and the newest offer survives under DropOldest and LatestOnly |
| SubscriptionSteps.QueueHoldsLatest | streambus/subscription.go:80-132 | in every run under any policy but LatestOnly, with increasing sequences and nothing taken, the queue is the last frames accepted, as many as it can hold |
| SubscriptionSteps.DropOldestEvictsOne | streambus/subscription.go:115-122 | a DropOldest attempt that evicts gives up exactly one frame and leaves the queue full |
| SubscriptionSteps.LatestOnlyCountsRound | streambus/subscription.go:123-130 | in every run of LatestOnly without a replay and with nothing taken the queue counts up to its capacity and starts over at one, and is the last frames accepted |
| SubscriptionSteps.ClosedTakesNothing | streambus/subscription.go:97-102 | an attempt on a closed subscription ends and leaves queue and counters alone |
| SubscriptionSteps.InternalStepWorks | streambus/subscription.go:96-175 | every protocol step uses up a measure of work |
| SubscriptionSteps.OnlyDrainedIsStuck | streambus/subscription.go:96-175 | an open subscription whose receiver keeps receiving is stuck only when drained |
| SubscriptionSteps.EveryRunDrains | streambus/subscription.go:96-175 | from any reachable open state all goroutines finish within a bound and everything accepted and not evicted is delivered in class order |
| ReplayBuffers.ReplayBuffer.Add | streambus/inmemory.go:32-41 | the ring holds the last frames of the history, however often it wrapped |
| ReplayBuffers.ReplayBuffer.LastFrames | streambus/inmemory.go:43-53 | the last frames of the history, in order, at most as many as retained |
| ReplayBuffers.ReplayBuffer.FramesAfter | streambus/inmemory.go:55-72 | the retained frames newer than the given sequence, with the gap flag |
| ReplayBuffers.LastIsTail | streambus/inmemory.go:43-53 | what `last` returns is the end of the history, as long as asked for, retained and published |
| ReplayBuffers.GapExactly | streambus/inmemory.go:55-63 | a gap is reported if and only if the ring is full and the resume point precedes all it holds |
| ReplayBuffers.ResumeComplete | streambus/inmemory.go:55-72 | in sequence order, a resume without a gap returns every newer frame ever journaled, in order |
| ReplayBuffers.ResumeCompleteExactly | streambus/inmemory.go:55-72 | in any order, every gap-free resume is complete if and only if no evicted frame outnumbers the oldest retained one |
| ReplayBuffers.OutOfOrderJournalHidesAGap | streambus/inmemory.go:115-147 | a journal out of order for which a resume silently misses a frame |
| ReplayBuffers.LossIsReported | streambus/inmemory.go:55-72 | in sequence order every real loss sets the gap flag |
| ReplayBuffers.FalseAlarmInterval | streambus/inmemory.go:55-72 | the flag is set without a loss if and only if the ring is full and the resume point lies between the newest evicted frame and the oldest retained one |
| Tries.Find | streambus/inmemory.go:247-253 | the walk finds the node of a path exactly when the trie has it |
| Tries.Ensure | streambus/inmemory.go:214-222 | the walk that creates missing nodes changes nothing the trie stores |
| Tries.Write | streambus/inmemory.go:223-223 | storing at one node changes that path only |
| Routing.Router.Targets | streambus/inmemory.go:125-139 | map lookup and trie walk select exactly the subscriptions a scan of the registry selects: those to the topic and those to a prefix of it |
| Routing.Router.Add | streambus/inmemory.go:213-229 | registering adds one subscription to the index and nothing else |
| Routing.Router.Remove | streambus/inmemory.go:242-262 | removing takes it out again; an unknown one changes nothing |
| Routing.Router.Close | streambus/inmemory.go:265-287 | closing gathers every registered subscription once and empties the index |
| Routing.Router.Collect | streambus/inmemory.go:289-296 | the recursive walk gathers everything stored at or below a node |
| StreamBus.Normalized | streambus/types.go:86-100 | missing values become 64, 4096 and 16 MiB, and the default buffer is cut to the maximum |
| StreamBus.FreshPreloadFits | streambus/subscription.go:80-94 | a replay no longer than the buffer is preloaded without a drop |
| StreamBus.GrantedResumeIsComplete | streambus/inmemory.go:192-212 | a granted resume preloads every newer frame of the topic with zero drops |
| StreamBus.GrantedAsAsked | streambus/inmemory.go:160-212 | what a granted subscription starts with, in terms of its input: nothing for a prefix or without a journal, every newer frame for a resume, the last frames for a replay, drops counted |
| StreamBus.RefusedExactly | streambus/inmemory.go:192-209 | a checked subscription is refused if and only if it resumes without a journal, from before all that is kept, or with more than fits its buffer |
| StreamBus.VerdictAsked | streambus/inmemory.go:159-209 | which error a subscription gets, in the order of the checks, in terms of its input |
| StreamBus.NegativeCapacityResume | streambus/inmemory.go:193-209 | with a negative capacity every resume is granted empty, complete only if nothing newer was published |
| StreamBus.Journals.Add | streambus/inmemory.go:140-147 | publishing appends to the topic's journal, created on first use, and to no other |
| StreamBus.Journals.Read | streambus/inmemory.go:192-209 | the replay read refuses a gap or an oversized resume and otherwise returns the retained frames |
| StreamBus.InMemory.constructor | streambus/inmemory.go:87-94 | an open bus with a normalised configuration and nothing registered |
| StreamBus.InMemory.Publish | streambus/inmemory.go:97-150 | which error, numbering, journaling and the exact target set; refused frames leave the journals alone |
| StreamBus.InMemory.Subscribe | streambus/inmemory.go:159-240 | which error; the options granted, the queue it starts with and its drops in terms of the input alone; registration under a fresh id; a refusal registers nothing |
| StreamBus.InMemory.Unsubscribe | streambus/inmemory.go:242-262 | closing a subscription removes it from the registry |
| StreamBus.InMemory.Close | streambus/inmemory.go:265-287 | the first close names every live subscription once and empties the registry, later ones do nothing |
| Handoff.EveryNewerFrameTakesOneRoute | streambus/inmemory.go:120-230 | in every interleaving of publishes with a resume, each newer frame takes exactly one of the replay and live routes |
| Handoff.EveryFrameAccountedFor | streambus/inmemory.go:120-230 | in every interleaving each frame of the two routes has entered, is held, is pending or was lost to a close or a cancelled publisher, counted exactly |
| Handoff.EveryNewerFrameEntersOnce | streambus/inmemory.go:120-230 | once an open subscription has settled, with no publisher cancelled, every newer frame was accepted or refused exactly once |
| Handoff.EveryNewerFrameIsDeliveredOnce | streambus/inmemory.go:120-230 | under a blocking policy, once no goroutine has a step left, every newer frame was delivered exactly once, the replay first in its class |
| Handoff.ReplayPrecedesLive | streambus/inmemory.go:120-230 | under every policy the replay is accepted first, the rest came over the live route, and each class keeps that order, whole unless something was evicted |
| Handoff.RunTells | streambus/inmemory.go:120-230 | in every run the journal is what was published before and after the subscribe, the live route what came after, and the subscription runs with the options it asked for |
| Handoff.ResumeDeliversOnce | streambus/inmemory.go:120-230 | so, told from the calls alone: of all frames published before and after a blocking resume, each one newer than its `since` is delivered exactly once when nobody gives up and all have come to rest |
| Varints.UvarintRoundTrip | streambus/wire.go:230-234 | every 64-bit value is read back with the rest of the input untouched |
| Varints.VarintRoundTrip | streambus/wire.go:236-240 | so is every signed value through zigzag |
| Varints.UvarintLocal | streambus/wire.go:103-118 | reading a varint looks at its own bytes only |
| Varints.UvarintLength | streambus/wire.go:230-234 | at most ten bytes |
| Varints.UvarintReadExactly | streambus/wire.go:103-118 | marked bytes, padded or not, are read as their number if and only if they are at most ten and it fits 64 bits |
| Varints.UnfinishedIsMalformed | streambus/wire.go:103-118 | bytes that never end a number are rejected |
| WireFormat.NormalIsIdempotent | streambus/wire.go:48-184 | the normal form of a message is stable and encodes to the same bytes |
| WireFormat.RoundTrip | streambus/wire.go:48-184 | whatever encodes decodes to its normal form if well formed and is rejected otherwise |
| WireFormat.LosslessExactly | streambus/wire.go:48-184 | a message comes back unchanged if and only if it is well formed, not stamped with the epoch, and its topics agree |
| WireFormat.Layout | streambus/wire.go:48-83 | the bytes of every message: version one, kind and fields in order, texts behind their length, the sign of the time stamp in its lowest bit |
| WireFormat.TooLargeExactly | streambus/wire.go:49-55 | encoding fails if and only if a text exceeds 1 MiB or the payload 64 MiB |
| WireFormat.PrefixByte | streambus/wire.go:146-153 | the prefix flag is a byte of one and no other |
| WireFormat.NoMessage | streambus/wire.go:86-101 | another version, another kind or less than two bytes is no message |
| WireFormat.DecodedIsFixedPoint | streambus/wire.go:86-184 | every message that decodes is well formed, normal and unchanged by another round trip |
| WireFormat.EncodeIsInjectiveUpToNormalForm | streambus/wire.go:48-184 | two messages share an encoding if and only if they share a normal form |
| WireFormat.EncodedSize | streambus/wire.go:48-83 | a bound on the length of every encoding |
| WireFormat.DecodableIsPrefixFree | streambus/wire.go:175-182 | no extension or strict prefix of a decodable message decodes |
| WireStreams.EncodeMessage | streambus/wire.go:48-83 | appending field by field produces exactly the specified bytes or error |
| WireStreams.DecodeMessage | streambus/wire.go:86-184 | the moving cursor decodes exactly what the specification decodes |
| WireStreams.WriteAll | streambus/wire.go:262-274 | everything is written if and only if every call takes something and none fails; otherwise a prefix, with the error of the last call |
| WireStreams.WriteMessage | streambus/wire.go:187-198 | appends the framed message if and only if it encodes and no call fails, otherwise a part of it |
| WireStreams.WriteMessages | streambus/wire.go:187-198 | a list of successful writes appends the framed messages in order |
| WireStreams.ReadMessage | streambus/wire.go:215-228 | reading consumes one frame and decodes it, or fails on length, truncation or content |
| WireStreams.FramedRoundTrip | streambus/wire.go:187-228 | one framed message is read back, the stream after it untouched |
| WireStreams.FramingIsLossless | streambus/wire.go:187-228 | any list of messages within the reader's maximum is read back in order |
| MeshPackets.Marshal | syncbus/mesh/packet.go:39-77 | succeeds exactly when the packet fits, writes exactly its bytes and touches nothing behind them |
| MeshPackets.MarshalKeys | syncbus/mesh/packet.go:58-73 | the key loop writes the batch or stops at the first key that does not fit |
| MeshPackets.UnmarshalPacket | syncbus/mesh/packet.go:79-128 | reading at fixed offsets agrees with the specified layout, errors included |
| MeshPackets.Layout | syncbus/mesh/packet.go:44-56 | the bytes of single-key packets: magic, kind and node, then big-endian numbers and the key |
| MeshPackets.BatchLayout | syncbus/mesh/packet.go:58-73 | the bytes of a batch: the number of keys, every key behind its length |
| MeshPackets.NoPacket | syncbus/mesh/packet.go:79-87 | less than 18 bytes is too short, and only another first byte is a wrong magic |
| MeshPackets.ScanKeys | syncbus/mesh/packet.go:107-124 | the loop over the keys of a batch agrees with the specification |
| MeshPackets.BatchRoundTrip | syncbus/mesh/packet.go:58-124 | a batch is read back, whatever follows it, if and only if no count or length exceeds 16 bits |
| MeshPackets.TruncatedBatchIsRejected | syncbus/mesh/packet.go:107-124 | every strict prefix of a batch is rejected as short |
| MeshPackets.SmallBufferMeansNoTruncation | syncbus/mesh/packet.go:58-73 | whatever fits 65557 bytes is not truncated |
| MeshPackets.LargerBufferTruncates | syncbus/mesh/packet.go:58-73 | one byte more and a key is read back as empty |
| MeshPackets.FlushIsAllOrNothing | syncbus/mesh/mesh.go:416-441 | a flushed batch reaches a peer whole if and only if its packet has at most 1500 bytes, and otherwise not at all |
| MeshPackets.SingleRoundTrip | syncbus/mesh/packet.go:49-56 | a single-key packet is read back in full if and only if its length field is the key's length |
| RecencyLists.TrimIsLongestFit | cache/cache.go:283-316 | what survives a Set is the longest prefix by recency that fits both limits |
| RecencyLists.PutKeepsLongestFit | cache/cache.go:283-316 | a Set puts its entry in front, keeps both limits, and gives up no more of the tail than they force it to |
| RecencyLists.RunDistinct | cache/cache.go:176-364 | keys stay distinct in every run |
| RecencyLists.HoldsLastSet | cache/cache.go:176-364 | in every run a cached item is the last uninvalidated Set of its key |
| RecencyLists.UnboundedKeepsLastSet | cache/cache.go:176-364 | without limits only expiry and invalidation lose a Set |
| RecencyLists.LimitsHold | cache/cache.go:283-316 | in every run without negative sizes both limits hold after every operation |
| RecencyLists.EntryLimitHolds | cache/cache.go:283-297 | the entry limit holds in every run |
| RecencyLists.NegativeSizeBreaksTheByteLimit | cache/cache.go:343-363 | for every negative size and every byte limit, a run that ends over the limit |
| RecencyLists.ByteLimitExactly | cache/cache.go:283-363 | with sizes of at least a given bound the byte limit holds in every run if and only if the bound is not negative or the cache holds one entry |
| RecencyLists.RunByLastUse | cache/cache.go:209-316 | the list is ordered by last use after every run |
| RecencyLists.EvictsLeastRecentlyUsed | cache/cache.go:283-316 | whatever a Set evicts was used less recently than everything it keeps |
| LruCaches.InMemoryCache.constructor | cache/cache.go:128-145 | an empty cache with its limits |
| LruCaches.InMemoryCache.Get | cache/cache.go:170-226 | a hit if and only if present, not past its expiry and not cancelled; moves it to the front, drops an expired item |
| LruCaches.InMemoryCache.Set | cache/cache.go:251-318 | inserts in front with its expiry and trims to the limits; a cancelled call changes nothing |
| LruCaches.InMemoryCache.EnforceEntries | cache/cache.go:283-297 | one eviction restores the entry limit |
| LruCaches.InMemoryCache.EnforceMemory | cache/cache.go:299-316 | the eviction loop ends with the longest prefix that fits |
| LruCaches.InMemoryCache.Invalidate | cache/cache.go:343-363 | removes one key and its bytes |
| LruCaches.InMemoryCache.SweepRound | cache/cache.go:384-411 | removes exactly the expired items of a sample of 20, or of all items if there are fewer, which leaves nothing expired |
| LruCaches.InMemoryCache.SweepTick | cache/cache.go:383-418 | a tick, with any operations of others between its rounds, is exactly the recorded sequence of sweeps and those operations, and ends within a bound |
| LruCaches.TickRemovesOnlyExpired | cache/cache.go:383-418 | whatever is gone after a tick had expired at one of its rounds or was open to removal by one of those operations |
| LruCaches.TickIsPartOfTheRun | cache/cache.go:370-424 | a tick in the course of a run is part of the run, so what holds of every run holds across ticks |
| LruCaches.CountsAgree | cache/cache.go:39-56 | the map has as many items as the list has keys |
| WatchBus.RemoveChannel | watchbus/inmemory_watchbus.go:197-205 | swap-removal removes exactly one channel and keeps the rest |
| WatchBus.InMemoryWatchBus.Publish | watchbus/inmemory_watchbus.go:48-65 | the targets are the watchers of the key and the subscribers to its non-empty prefixes |
| WatchBus.InMemoryWatchBus.PublishPrefix | watchbus/inmemory_watchbus.go:86-106 | the node's collected set is exactly the watchers below a non-empty prefix and its own subscribers |
| WatchBus.InMemoryWatchBus.Watch | watchbus/inmemory_watchbus.go:132-157 | a fresh channel watches the key; every node's watcher set stays exact |
| WatchBus.InMemoryWatchBus.SubscribePrefix | watchbus/inmemory_watchbus.go:160-184 | a fresh channel subscribes to the prefix |
| WatchBus.InMemoryWatchBus.Unwatch | watchbus/inmemory_watchbus.go:187-245 | removes the channel from the key it watches, else from the prefix it subscribed to, else nothing |
| WatchBus.PrefixTree.Mark | watchbus/inmemory_watchbus.go:143-150 | adds the channel at every node on the way, creating missing ones |
| WatchBus.PrefixTree.Unmark | watchbus/inmemory_watchbus.go:210-218 | removes it from every node on the way |
| WatchBus.PublishIsScan | watchbus/inmemory_watchbus.go:54-64 | Publish equals a full scan for every key if and only if nobody subscribed to the empty prefix |
| WatchBus.PublishPrefixIsScan | watchbus/inmemory_watchbus.go:86-106 | PublishPrefix equals a full scan if and only if the prefix is not empty or nobody watches |
| TokenLocks.AcquisitionsSeparated | lock/nats.go:141-173 | two acquisitions of a key are separated by a removal that carries the first one's token |
| TokenLocks.TokensDistinct | lock/nats.go:67-68 | no token is granted twice |
| TokenLocks.RemovedOnce | lock/nats.go:141-173 | a removed token is never held or removed again |
| NatsLocks.StepInv | lock/nats.go:144-173 | in every step a remembered revision that is still current belongs to the token that was read |
| NatsLocks.StepRefines | lock/nats.go:62-184 | every step is a step of the abstract lock, deletions carrying the releasing token |
| NatsLocks.NatsRefinesTokenLock | lock/nats.go:62-184 | every interleaving is a run of the abstract lock with the same keys held |
| NatsLocks.GrantsSeparated | lock/nats.go:62-184 | two grants of a key are separated by a deletion whose release carried the first token |
| NatsLocks.ReleaseFreesExactly | lock/nats.go:131-173 | an undisturbed Release frees the key if and only if the remembered token is the stored one |
| NatsLocks.TokenReleasedExactly | lock/nats.go:144-184 | all that an undisturbed release by token changes: its own entry, and what is remembered of it; nothing if another token holds the key |
| NatsLocks.LockAloneExactly | lock/nats.go:62-88 | all that an undisturbed TryLock changes: nothing on a taken key; a free one is held under the new token, remembered, and timed if it has a time to live |
| NatsLocks.LockThenRelease | lock/nats.go:62-184 | locking and then releasing, or letting the timer fire, leaves everything as it was but a used token and two revisions |
| NatsLocks.DeleteWithoutAnswer | lock/nats.go:161-173 | a deletion that fails or finds another revision changes nothing; one whose answer is lost keeps the local entry |
| NatsLocks.LateRegistrationBlocksRelease | lock/nats.go:75-86 | a run after which the holder's Release frees nothing |
| NatsLocks.ReleasableExactly | lock/nats.go:62-184 | after a grant the holder can release in every continuation, once its registration has landed, if and only if no earlier registration of its instance and key was pending |
| NatsLocks.ReleasableInEveryRun | lock/nats.go:62-184 | the same at any grant of any run |
| RedisLocks.StepRefines | lock/redis.go:14-111 | every step, server expiry included, is a step of the abstract lock |
| RedisLocks.RedisRefinesTokenLock | lock/redis.go:14-111 | every interleaving is a run of the abstract lock with the same keys held |
| RedisLocks.GrantsSeparated | lock/redis.go:14-111 | two grants of a key are separated by a release of the first token or by its expiry |
| RedisLocks.ReleaseFreesExactly | lock/redis.go:76-111 | an undisturbed Release frees the key if and only if the remembered token is the stored one |
| RedisLocks.ReleaseAloneExactly | lock/redis.go:76-111 | all that an undisturbed Release changes: the entry if it is still its own, the remembered token and its timer |
| RedisLocks.TimerAloneExactly | lock/redis.go:61-111 | all that an undisturbed timer changes: the entry and the remembered token if they are still its own |
| RedisLocks.LockAloneExactly | lock/redis.go:51-74 | all that an undisturbed TryLock changes: nothing on a taken key; a free one is held under the new token, remembered, and timed if it has a time to live |
| RedisLocks.LockThenRelease | lock/redis.go:51-111 | locking and then releasing, or letting the timer fire, leaves everything as it was but the used token |
| RedisLocks.ScriptWithoutAnswer | lock/redis.go:92-101 | a script that fails changes nothing; one whose answer is lost keeps the local entry |
| RedisLocks.LateRegistrationBlocksRelease | lock/redis.go:51-74 | a run, through an expiry, after which the holder's Release frees nothing |
| RedisLocks.ReleasableExactly | lock/redis.go:51-111 | after a grant the holder can release in every continuation, once its registration has landed, if and only if no earlier registration of its instance and key was pending |
| RedisLocks.ReleasableInEveryRun | lock/redis.go:51-111 | the same at any grant of any run |
| Merging.VectorClock.Compare | merge/merge.go:44-72 | 1, -1, 0 or -2: the pointwise order with missing regions as zero |
| Merging.VectorClock.Merge | merge/merge.go:27-33 | leaves the pointwise maximum |
| Merging.JoinIsLeastUpperBound | merge/merge.go:26-33 | which is the least upper bound of the two clocks |
| Merging.VectorClock.Increment | merge/merge.go:22-24 | adds one to a region modulo 2^64, leaves all others, and moves forward if and only if it does not wrap |
| Merging.IncrementDominates | merge/merge.go:22-24 | an increment moves the clock forward if and only if the counter does not wrap |
| Merging.MergeLastWrite | merge/merge.go:95-113 | one of the two, dominated by neither; without dominance the later timestamp, the old value on a tie |
| Merging.PrevailsExactly | merge/merge.go:95-113 | that describes exactly one value, the one chosen |
| Merging.DominatingWriteWins | merge/merge.go:95-113 | a write whose clock dominates every other write's wins in every order of arrival, whatever the timestamps |
| Merging.ConvergesExactly | merge/merge.go:95-113 | every order of arrival of distinct writes ends alike if and only if one write beats each other one both ways |
| Merging.LatestWriteWins | merge/merge.go:90-113 | with distinct timestamps that respect dominance every order ends with the latest write |
| Merging.ThreeWritesInACircle | merge/merge.go:95-113 | three writes whose outcome depends on the order |
| Merging.Engine.Merge | merge/merge.go:143-168 | custom merges join the clocks and take the new stamp, errors pass through; otherwise one of the two, dominated by neither, the later one without dominance |
| Commits.BatchOrdersAgree | adapter/redis_store.go:188-197 | delete-then-set and set-then-delete agree if and only if no key is both set and deleted |
| Transactions.InMemoryBatch.Commit | adapter/adapter.go:98-108 | the loops apply the deletes, then the sets |
| Transactions.Txn.Set | core/core.go:1266-1270 | a set becomes the key's last operation |
| Transactions.Txn.Delete | core/core.go:1273-1277 | a delete becomes the key's last operation |
| Transactions.Txn.CompareAndSwap | core/core.go:1280-1284 | a swap becomes the key's last operation |
| Transactions.QueuedSetsAndDeletesDisjoint | core/core.go:1266-1284 | after any calls sets and deletes are disjoint, so both stores apply the batch alike |
| Transactions.Warp.Commit | core/core.go:1287-1471 | the commit loops, over the bounded cache, perform exactly the specified effects and return the specified error, for every visiting order; a success found every compared key cached with the expected data, and the store holds every set key merged after what was cached, if it still was at its turn |
| Transactions.Warp.PrepareKey | core/core.go:1326-1342 | ready if and only if the key is not compared or is cached with the expected data; then the queued value, merged after the cached one; marks the key as used |
| Transactions.Warp.SetKey | core/core.go:1312-1400 | one turn of the first loop, and which error it ends with: registration, read, comparison, bus, quorum, cache, store, announcement, in that order |
| Transactions.Warp.DeleteKey | core/core.go:1402-1451 | one turn of the second loop, and which error it ends with |
| CommitSwaps.CommitSucceedsExactly | core/core.go:1287-1471 | in any order a commit succeeds if and only if every key is registered, no call fails, and each compared key is found with the expected data at its turn |
| CommitSwaps.SuccessMeansCompared | core/core.go:1329-1342 | a success found each compared key cached with the expected data before the commit began |
| CommitSwaps.SomeOrderSucceedsExactly | core/core.go:1312-1400 | with no call failing some order succeeds if and only if each compared key is cached with the expected data |
| CommitSwaps.SwapExactly | core/core.go:1280-1342 | swapping one key, with no call failing, succeeds if and only if the cached data is the expected one, and otherwise leaves store and cached values as they were |
| CommitSwaps.OnlyMismatchFails | core/core.go:1332-1342 | with no call failing the only error is the failed comparison |
| CommitSwaps.WrittenExactly | core/core.go:1324-1365 | a success writes for each set key, and for no other, the queued value stamped with its time, merged after what its lookup found, for the registered time to live |
| CommitSwaps.StoredExactly | core/core.go:1355-1363 | and the store ends with its data, without what was deleted in a batch, and otherwise as it was |
| CommitSwaps.AnnouncedExactly | core/core.go:1376-1395 | it announces exactly its eventual keys, if there is a bus, and has a quorum for exactly its strong ones |
| CommitSwaps.TurnErrors | core/core.go:1312-1451 | the error of each key's turn, in the order of checks and calls |
| CommitLaws.SuccessMeansCallsPass | core/core.go:1287-1471 | a commit succeeds only if every key is registered and no call it makes fails |
| CommitLaws.StoreResult | core/core.go:1312-1471 | a successful commit leaves in the store, key by key, exactly what it prepared and deleted |
| CommitOrder.EvictionMakesOrderMatter | core/core.go:1312-1400 | a commit over a cache of one entry that succeeds in one order and fails its compare-and-swap in the other |
| CommitOrder.CachedFirstWorks | core/core.go:1312-1400 | the order that visits cached keys first always writes what was intended, whatever the limits |
| CommitOrder.OrderNeverMattersExactly | core/core.go:1312-1471 | all orders agree on success, on what is written and on the store if and only if each key whose cached value matters fits together with all that can get in front of it |
| CommitOrder.StrongCommitIgnoresOrder | core/core.go:1376-1463 | the order of a commit of strong sets never matters, whatever the limits |
| CommitOrder.UnlimitedCommitIgnoresOrder | core/core.go:1312-1471 | nor does any order over an unlimited cache |
| CommitOrder.StoreIgnoresOrder | core/core.go:1312-1471 | with that room every order leaves the same store: what each key would have written if its turn had come first |
| CommitCaches.NothingUnexpected | core/core.go:1312-1471 | after a successful commit every cached entry is a written value or one it was not concerned with |
| CommitCaches.CacheIgnoresOrder | core/core.go:1312-1471 | with room for everything cached or set, every order leaves exactly those entries |
| CommitRetention.PutAllTrims | cache/cache.go:251-318 | whatever was evicted on the way, after several writes a bounded cache holds the front of the list an unbounded one would hold |
| CommitRetention.Retained | core/core.go:1312-1471 | after a commit whose sets are all weak or all strong, the cache is that front: the written entries by turn, then the rest in its old order, less the deleted keys |
| CommitRetention.CacheNeverDiffersExactly | core/core.go:1312-1471 | all orders of such a commit leave the same entries in the cache if and only if it can hold all the set keys, or nothing at all |
| CommitCaches.DeletedKeySurvives | core/core.go:1412-1425 | a deleted key leaves the cache, and stays in the store if and only if it was there and nothing is batched |
| CommitCaches.CommitKeepsCacheOk | core/core.go:1287-1471 | however a commit ends, the cache keeps distinct keys, equal sizes and its limits |
| CommitWaits.CommitWaitsForAll | core/core.go:1376-1463 | unless modes are mixed in one of two ways, nothing is applied or batched before every strong key is acknowledged, and until then cache and store are as they were |
| CommitWaits.MixedModesOvertake | core/core.go:1376-1463 | with modes mixed that way some cache and visiting order change the cache before a quorum has answered |
| CommitWaits.WaitsExactly | core/core.go:1376-1463 | so cache and store stay as they were until all strong keys are acknowledged, whatever fails and in any order, if and only if modes are not mixed that way |
| CommitWaits.CannotCompareFails | core/core.go:1329-1342 | a commit that compares more keys than the cache can hold fails in every order |
| CommitWaits.MissedQuorumChangesNothing | core/core.go:1376-1463 | unless modes are mixed that way a missed quorum leaves store and batch as they were and the cache without some expired entries at most |
| CommitFailures.FailureKeepsBatchingStore | core/core.go:1298-1470 | over a batching store a failed commit leaves the store as it was, in any mode mix |
| CommitFailures.StrongRefusalChangesNothing | core/core.go:1312-1451 | a commit of strong keys that fails for any reason but a failing application leaves cache and store as they were |
| CommitFailures.SingleCallIsAtomic | core/core.go:1287-1471 | so does a failed commit of at most one key that is applied by one call, whatever call failed |
| CommitFailures.OthersFailHalfWay | core/core.go:1287-1471 | for every other transaction one failing call, some cache and some order make it fail and leave the cache or the store changed |
| CommitFailures.AtomicExactly | core/core.go:1286-1471 | so every failed commit of a transaction leaves cache and store as they were if and only if it is at most a single call |
| CommitFailures.HoldingNothingIsAtomic | core/core.go:1286-1471 | over a cache that can hold nothing, with no store written directly, every failed commit leaves them as they were |
| ReadPaths.Warp.Get | core/core.go:353-637 | a miss answers what the store answers, and NotFound without one; a hit is kept without a store, without a grace period or until it is past its own time to live; a stale one over a store gives way to a fetch in time; what was fetched is cached for ttl plus grace; a kept value was cached at most that long before it was read |
| ReadPaths.ReadThrough | core/core.go:353-637 | over two calls: what was fetched or written is found exactly until its lifetime ends while the key is cached and not set again, and a Get before it is stale keeps it whatever the store says |
| ReadPaths.Warp.Set | core/core.go:911-1050 | caches the merged value with its effective time to live once acknowledged |
| ReadPaths.Warp.Refresh | core/core.go:436-447 | a background refresh caches the fetched value |
| ReadPaths.AgeBoundedExactly | cache/cache.go:190-259 | the age of a served value is bounded by its time to live if and only if that is positive |
| ReadPaths.StaleWindowExactly | core/core.go:387-394 | a value can be cached past its own time to live if and only if it never expires or was cached, grace included, after it was stamped |

## Left out

- Redis, NATS and Kafka sync buses, Redis and NATS watch buses, Redis and GORM stores, other caches: network clients or wrappers; only the atomic key-value steps of the two lockers and the order of the Redis pipeline are modelled.
- HTTP, SSE, WebSocket and WebTransport handlers, the proxy, presets and the JavaScript store: I/O plumbing and assembly.
- lock/memory.go, leases, versioned caches, sliding windows and validators: easier members of the same kind.
- `Acquire` of both lockers: only the safety of its `TryLock` steps is covered, not that a waiter wakes up.
- Dynamic TTL strategies, sliding expiry and frequency adjustment: `ReadPaths` fixes the time to live; eager refresh appears only as a refresh that may land at any time.
- Transactions in the read path: a commit records the effective time to live as the logical one, so `ReadPaths` leaves it out.
- ReadPaths.Warp.Get: eager refresh and changing lifetimes are left out, and the bound is taken at the moment the cache is read; the call may return later.
- LruCaches.InMemoryCache.Set: byte counts are unbounded integers, so 64-bit overflow of `currentMemory` is not modelled.
- `InMemoryCache.Close`: it empties the items without resetting the byte count, and is not part of the model.
- StreamBus.InMemory.Publish: ends with the target set; handing the frame to each target's `enqueue` is part of the step systems `Handoff` and `SubscriptionSteps`. The map values that hold subscriptions are represented by their ids.
- StreamBus.InMemory.Subscribe: the goroutine that closes the subscription when its context ends is not part of it; what that does to the bus is `Unsubscribe`.
- StreamBus.InMemory.Close: names the subscriptions to close; closing one is part of the step systems.
- ReadPaths.Warp.Set: the merged value and the verdicts of the bus and the store are inputs; merging is `Merging.Engine.Merge`.
- Linked-list elements: the list of keys stands for container/list; moving an element to the front is a removal and an insertion, and an element is identified with its key.
- MeshPackets.UnmarshalPacket: reads into a zero packet, as the listener does; fields left over from an earlier use are not modelled.
- WatchBus.InMemoryWatchBus.Publish: stops at the target set; the non-blocking sends that follow may drop, and keys are sequences of runes, so invalid UTF-8 is not modelled.
- WatchBus.InMemoryWatchBus.PublishPrefix: stops at the target set, as `Publish` does.
- WatchBus.InMemoryWatchBus.Watch: the goroutine that unwatches when the context ends is not part of it; what it does is `Unwatch`.
- WatchBus.InMemoryWatchBus.SubscribePrefix: likewise.
- Transactions.Warp.Commit: the registration's bookkeeping fields are not kept, and a context that is done between the two checks of one cache call counts as done before it. The clock is read once per key and purpose; its readings are free inputs. Cached values count `unsafe.Sizeof` bytes each, since `merge.Value` has no size of its own (cache/cache.go:462-486).
- CommitCaches.CacheIgnoresOrder: a sufficient condition for any mix of modes; the exact one, `CacheNeverDiffersExactly`, is for sets that are all weak or all strong, since deletes and evictions fall between the two kinds of writes in a mix.
- CommitFailures.AtomicExactly: asks for registered keys, a bus if one is strong, and a cache with room for the compared values and one entry more; a commit with an unregistered key always fails, and `HoldingNothingIsAtomic` shows what a lack of room can hide.
- CommitWaits.WaitsExactly: asks for the same.
- LruCaches.InMemoryCache.SweepTick: what others do during one tick is a finite list; with no end to their insertions of expired items the source's tick need not end either.
- CommitFailures.FailureKeepsBatchingStore: covers a commit whose batch reports failure without having been applied.
- Varints: the loops of encoding/binary are library code and are specified, not transcribed.
- WireFormat: a nil payload and an empty one are not told apart.
- Handoff.EveryNewerFrameTakesOneRoute: asks for a journal in sequence order up to the subscribe, because of the difference noted above; what holds without it is `ResumeCompleteExactly`.
- Metrics, tracing, logging and context plumbing: cancellation is an input or an early exit, time is a parameter.
