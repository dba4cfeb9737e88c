# Proofs about go-experiments

A Dafny model of the stateful cores of the go-experiments repository, with proofs over all their inputs and runs.
`dafny verify dfyconfig.toml` checks everything.

| files | models |
|---|---|
| `RaftTypes`, `RaftPublish`, `RaftNode`, `KvStore`, `RaftPipeline`, `RaftSafety`, `RaftReady`, `RaftMap`, `RaftQuiet`, `RaftRestart`, `RaftRecovery`, `RaftLimits` | the replicated key-value store of `goraft-explore` |
| `Upstreams`, `ProbeRounds`, `HashPartition`, `ResolverRing`, `DnsCache` | the caching DNS proxy `jojo` |
| `LeaseTable` | the lease table of `opendhcpd` |
| `Journal`, `FileStore`, `VanishRun` | the expiring file store `vanishling` |
| `Intersection` | the in-place list intersection of `list-intersect/fast` |
| `LeakyBucket` | the rate limiter of `leakybucket` |
| `Words`, `Texts`, `Options` | 64-bit wrap-around arithmetic; splitting strings; optional values |

Code that updates state is a class (or works on arrays) whose methods are proved against functions on values; the
theorems are about those functions. Code that runs concurrently is also a state machine with one action for each step
that another goroutine, or a crash, can observe; the theorems hold for every run of the machine. Time, randomness,
map iteration order, the choices of `select`, and the answers of the network are parameters or nondeterministic.

## What is not as one might expect

For each of these there is a run or an input that shows it, and the exact condition under which the expected property
does hold.

- `goraft-explore`: the map does not always follow the applied index. In every process it grows from nothing behind the
  start until a nil finds a snapshot file, and after that from the file that was the newest when the last such nil was
  consumed, behind the index at which this nil was handed over (`MapOfProcess`). Hence:
  - Before the first load the map is right exactly when every key from before the start has been written again
    (`MapBeforeLoad`).
  - If the file is the fold through an index that is not ahead of the nil, the map is right exactly when every key
    written between the two had that value before or has been written again (`RightAfterLoad`). So a restart with a
    snapshot on disk forgets what it has replayed (`RestartForgetsExample`) and does not get out of newKVStore
    (`NeverReturns`), and so does a restart that files its own snapshot before the replay ends
    (`OwnFileForgetsExample`).
  - A right file ahead of the nil does no harm, unless it is a received snapshot that has been written but not signalled:
    then the map is ahead of the applied index (`EarlyLoadExample`), which shows exactly when the entries in between
    are not redundant (`AheadAfterLoad`).
- `goraft-explore`: a node's own snapshot is not always the fold through the applied index. With no nil about to load a
  file it is exactly if the map is right and the consumer is settled: idle, or holding a put that the map already has
  (`SnapshotRightIff`, with the map's condition in `SnapshotBeforeLoad` and `SnapshotAfterLoad`). So it can miss a put
  that is held (`SnapshotCanMissHeldPut`), and with an idle consumer all keys of the file that the process started
  with (`SnapshotBeforeNilExample`). With a nil about to load a file it is the map from before that nil
  (`SnapshotWithNilHeld`), and can then be loaded in place of a received snapshot (`HeldNilSpoilsMap`).
- `goraft-explore`: the entries of a Ready are saved before its snapshot. A crash in between can leave a WAL that
  cannot be read (`GapExample`), exactly if the snapshot is ahead of what could be read (`SavedBeforeSnapshot`).
- `goraft-explore`: a snapshot count below the number of catch-up entries lets compaction panic
  (`SmallSnapCountPanics`); from that number on it never does (`CompactionSound`).
- `goraft-explore`: keys and values that are not valid UTF-8 do not survive a snapshot (`StrayByteExample`,
  `SnapshotFaithful`).
- `jojo`: with one server, or with `maxFailures` zero, an offline mark and the failure count part ways (`Miscounted`,
  `CountedIff`).
- `jojo`: a probe round holds the lock only at its ends. A server that fails behind the round's back ends up in the
  live list although it is offline, and the next failure can then empty the list (`RaceExample`, `EndIff`,
  `FailureEmptiesIff`). The failure counts stay right in every interleaving (`EveryRunCounts`).
- `jojo`: a submitter that saw a full ring waits for the oldest request; if the ring drains meanwhile, its own
  request stays unanswered until somebody else submits (`StuckExample`, `AnswerableIffNotStuck`).
- `opendhcpd`: an offer of an expired slot is refused when it is requested, because Request does not look at expiry
  (`ExpiredOfferExample`, `OfferHonoured`).
- `vanishling`: uploads share one TTL field, so an upload can journal the TTL of another (`MixUpExample`,
  `LastSetWins`).
- `vanishling`: a file whose line is lost when the journal is emptied (`LostExample`) stays for ever (`NeverRemoved`);
  otherwise the first error-free pass after its expiry removes it for good (`GoneAfterPass`).
- `list-intersect`: the early stop can miss common values (`EarlyStopExample`, `CompleteIff`).

## Model

| member | source | states |
|---|---|---|
| `RaftPublish.SliceExact` | goraft-explore/raft.go:127-139 | for every batch that joins up with the applied prefix, the slice computed with wrapping subtraction is the entries beyond the applied index, if and only if that index is below the 64-bit maximum |
| `RaftPublish.PublishExact` | goraft-explore/raft.go:143-189 | one publish loop hands over the stream of its entries up to a stop or the node's own removal, and succeeds exactly if neither cuts it |
| `RaftPublish.StreamPlaces` | goraft-explore/raft.go:145-186 | the stream place by place: the data of every normal entry that has any comes right behind the messages of all entries before it, the nil of the last replayed entry right behind its data, and there is nothing else |
| `RaftPublish.PublishHalts` | goraft-explore/raft.go:143-189 | where a publish loop ends: at the end of the batch, at the node's own removal, before data or a nil that a stop kept back; the applied index is that of the last entry whose data went out |
| `RaftPublish.PublishInTwo` | goraft-explore/raft.go:143-189 | publishing two batches in a row equals publishing their concatenation |
| `RaftPublish.BatchingIsInvisible` | goraft-explore/raft.go:428-442 | however the log is cut into overlapping batches, the loop of slicing and publishing does what one publish over everything reached would do |
| `RaftPublish.StreamWhateverTheBatching` | goraft-explore/raft.go:127-189 | the commit stream holds every non-empty normal entry once and in log order for every batching; stop or removal gives a prefix; no batch is fatal |
| `RaftPublish.NilRightAfterLast` | goraft-explore/raft.go:176-186 | nil occurs in the stream once, right behind the last replayed entry, and not at all if that entry is not reached |
| `KvStore.SnapshotFaithful` | goraft-explore/kvstore.go:98-113 | a map survives encoding to and decoding from a snapshot if and only if its keys and values are valid UTF-8 |
| `KvStore.StrayByteExample` | goraft-explore/kvstore.go:98-113 | a map with a stray byte in a key that comes back as another map |
| `KvStore.ConsumerStops` | goraft-explore/kvstore.go:65-96 | reading stops exactly at the first message that is neither a put nor a nil with a snapshot on disk; it ends as caught up exactly at a nil with none |
| `KvStore.ConsumerExact` | goraft-explore/kvstore.go:65-96 | for every stream the map is the puts since the last snapshot load, folded onto that snapshot or onto the initial map |
| `KvStore.SnapshotThenTail` | goraft-explore/kvstore.go:65-113 | a snapshot at index s followed by the entries behind s gives the fold of the whole log |
| `KvStore.RedundantIff` | goraft-explore/kvstore.go:65-96 | a map that misses a stretch of the log is right if and only if every key written there has had that value before or is written again behind |
| `KvStore.RewrittenIff` | goraft-explore/kvstore.go:65-96 | a map that starts from nothing in the middle of the log is right if and only if every key from before has been written again |
| `KvStore.Kv.Lookup` | goraft-explore/kvstore.go:49-54 | finds a key exactly if it is in the map, with its value |
| `KvStore.Kv.GetSnapshot` | goraft-explore/kvstore.go:98-102 | returns an image of the map, equal to it if the contents are valid UTF-8 |
| `KvStore.Kv.ReadCommits` | goraft-explore/kvstore.go:65-96 | the loop refines the consumer function, and its map is what the messages it used denote |
| `RaftNode.Raft.constructor` | goraft-explore/raft.go:191-250 | starts at the newest snapshot file, whose index the WAL has recorded, with the last index that reading the WAL from there yields, and nil at once if there is none |
| `RaftNode.Raft.SaveSnap` | goraft-explore/raft.go:109-125 | whichever write fails, no snapshot file is without its WAL record |
| `RaftNode.Raft.PublishEntry` | goraft-explore/raft.go:144-187 | one round of the loop: what is sent, the new applied index, and whether the loop goes on |
| `RaftNode.Raft.PublishEntries` | goraft-explore/raft.go:143-189 | the loop in place refines the recursive publish function, node state included |
| `RaftNode.Raft.PublishSnapshot` | goraft-explore/raft.go:329-345 | fatal exactly on a snapshot that is not newer; otherwise one nil and all indexes at the snapshot |
| `RaftNode.Raft.MaybeTriggerSnapshot` | goraft-explore/raft.go:347-377 | takes a snapshot exactly if more than snapCount entries behind, then lags by no more; panics on a failing write; with snapCount at least the catch-up length and no failing write it never panics, moves past the old snapshot and keeps the catch-up entries |
| `RaftNode.Raft.PublishCommitted` | goraft-explore/raft.go:437-441 | a batch that leaves a gap, or comes at the 64-bit maximum, is fatal; otherwise exactly the stream of its new entries goes out; applied never falls |
| `RaftNode.Raft.Accept` | goraft-explore/raft.go:428-434 | saving the entries and installing a received snapshot, with failing writes ignored as in the source; fatal exactly on a stale snapshot; indexes stay ordered and every snapshot file recorded |
| `RaftNode.Raft.HandleReady` | goraft-explore/raft.go:428-442 | the whole new state of the node after one Ready, with any of its writes failing; indexes stay ordered, every snapshot file stays recorded, the lag is at most snapCount, no panic from the catch-up length on unless a write of its own snapshot fails |
| `RaftNode.ReadyStream` | goraft-explore/raft.go:428-442 | what one Ready puts on the channel: nothing for a stale snapshot, otherwise the signal and then the stream of the new entries, whatever becomes of the writes |
| `RaftNode.ReadyDisk` | goraft-explore/raft.go:428-442 | what one Ready leaves on disk, however it ends and whichever writes fail: the saved entries behind the WAL, a record for the received and for a due own snapshot, and under each index the right file |
| `RaftNode.ReadyApplied` | goraft-explore/raft.go:428-442 | the applied index after one Ready: never behind its snapshot, and the last new committed entry if publishing came to its end |
| `RaftNode.ReadyIndexes` | goraft-explore/raft.go:347-377 | a Ready panics if and only if a due snapshot cannot be written or the log begins at or behind the place to compact at; otherwise snapshot index and beginning of the log are where the snapshots and the compaction put them |
| `RaftReady.PublishRefines` | goraft-explore/raft.go:143-189 | a publish step of the machine, with the nil that may follow, is one round of the node's loop |
| `RaftReady.OwnSnapshotRefines` | goraft-explore/raft.go:349-377 | deciding, taking, recording and filing a snapshot as separate steps adds up to maybeTriggerSnapshot, panic included |
| `RaftReady.ConsumeRefines` | goraft-explore/kvstore.go:65-96 | a consumer step of the machine is one round of readCommits, its ends included |
| `RaftReady.ReadyRefines` | goraft-explore/raft.go:428-442 | over every run, from the arrival of a Ready until the loop waits again, with any consumer steps in between, the steps of the machine add up to the Ready branch: disk, indexes and stream |
| `RaftPipeline.StepInv` | goraft-explore/raft.go:379-453 | every step of loop, consumer, crash and restart keeps the invariant on disk, indexes, compaction, replay and the validity of what is stored |
| `RaftSafety.RunInv` | goraft-explore/raft.go:379-453 | the invariant holds in every reachable state |
| `RaftQuiet.MapFollowsLog` | goraft-explore/raft.go:428-441 | in every interleaving, from the start of a process without snapshots or from the signal for a received snapshot on, as long as own snapshots are taken with a settled consumer and the nil that ends a replay finds no snapshot file: the map plus the held message is the fold of the log through the applied index, but for the window in which a received snapshot is loaded early, and then it is the fold through that snapshot |
| `RaftQuiet.MapRightIff` | goraft-explore/raft.go:428-441 | under the same premises it is the fold through the applied index if and only if no snapshot is loaded early or the entries it is ahead by are redundant |
| `RaftQuiet.NodesAgree` | goraft-explore/kvstore.go:65-92 | under the same premises two nodes idle at the same applied index hold the same map |
| `RaftSafety.CrashSafe` | goraft-explore/raft.go:109-125 | at every crash point, over any number of restarts, the newest snapshot file has its WAL record and every published entry is in the WAL or under a snapshot file |
| `RaftSafety.CompactionSound` | goraft-explore/raft.go:347-377 | with snapCount at least the catch-up length, over every run: no panic, lag at most snapCount after each Ready, compaction indexes above the previous snapshot and strictly growing, the last entries kept |
| `RaftRestart.ReplayEnds` | goraft-explore/raft.go:176-186 | without snapshots on disk nil is sent exactly once, right behind the last replayed entry or at once; whenever newKVStore returns it holds exactly the fold through that entry |
| `RaftQuiet.QuietSnapshotRightIff` | goraft-explore/raft.go:349-361 | under the same premises an own snapshot is the fold through the applied index if and only if the consumer is settled: idle, or holding a put that the map has, or holding a nil with no snapshot file or with the newest one equal to the map |
| `RaftMap.MapOfProcess` | goraft-explore/kvstore.go:65-92 | in every state of every process: the map plus the held put is what the entries behind the start make of nothing, or, after a load, what the entries behind the nil make of the newest file of the last load; with a nil about to load a file, that file is what comes next |
| `RaftMap.MapBeforeLoad` | goraft-explore/kvstore.go:65-92 | before the first load the map is right if and only if every key from before the start has been written again |
| `RaftMap.MapAfterLoad` | goraft-explore/kvstore.go:65-82 | after a load the map is what the entries behind the nil make of the file that was the newest at the load; the nil that ends a replay is behind the last replayed entry |
| `RaftMap.RightAfterLoad` | goraft-explore/kvstore.go:65-82 | if that file is the fold through an index not ahead of the nil, the map is right if and only if every key written between the two had that value before or has been written again |
| `RaftMap.AheadAfterLoad` | goraft-explore/kvstore.go:65-82 | if it is right and ahead of the nil, the map is right, unless the file is a received snapshot that is not signalled, and then if and only if the entries it is ahead by are redundant |
| `RaftMap.ReturnsRight` | goraft-explore/kvstore.go:40-47 | whenever newKVStore has returned, it did so with exactly the fold through the last replayed entry |
| `RaftMap.NeverReturns` | goraft-explore/kvstore.go:40-47 | a process that starts with a snapshot file never gets out of newKVStore |
| `RaftMap.SnapshotRightIff` | goraft-explore/raft.go:349-361 | in every process, with no nil about to load a file, an own snapshot is the fold through the applied index if and only if the consumer is settled and the map is right |
| `RaftMap.SnapshotBeforeLoad` | goraft-explore/raft.go:349-361 | before the first load: if and only if the consumer is settled and every key from before the start has been written again |
| `RaftMap.SnapshotAfterLoad` | goraft-explore/raft.go:349-361 | after a load: if and only if the consumer is settled and the entries between the file and the nil are redundant |
| `RaftMap.SnapshotWithNilHeld` | goraft-explore/raft.go:349-361 | with a nil on its way an own snapshot is the map from before the nil; if that was right, the snapshot is right if and only if the entries since are redundant |
| `RaftRestart.ReplayStream` | goraft-explore/raft.go:227-250 | in a process, until it signals a received snapshot, every entry behind its start goes out once and in order, with one nil right behind the last replayed one, or first of all |
| `RaftRestart.ConsumerGetsStream` | goraft-explore/kvstore.go:65-96 | in every state of every process the messages that the consumer has worked off, and the one it holds, are exactly those sent over commitC, in order, and its map is what they denote |
| `RaftQuiet.QuietLeavesRightFile` | goraft-explore/raft.go:349-366 | under the premises of MapFollowsLog a process leaves a right newest snapshot file to the next |
| `RaftRecovery.ReadIndexes` | goraft-explore/raft.go:227-250 | reading the WAL yields consecutive indexes, and the last of them is the last index of the node |
| `RaftRecovery.SurvivorIsRead` | goraft-explore/raft.go:227-250 | an entry that nothing written later replaces is read, at its place |
| `RaftRecovery.PublishedIsRead` | goraft-explore/raft.go:428-437 | at every crash point, over any number of restarts, reading the WAL from the newest snapshot file yields every published entry behind it, at its place |
| `RaftRecovery.SaveReadsIff` | goraft-explore/raft.go:428-429 | after a save of consecutive entries the WAL can be read if and only if they join up with what could be read before |
| `RaftRecovery.AlwaysReadable` | goraft-explore/raft.go:428-432 | if all saves join up, the WAL can be read from the newest snapshot file at every crash point |
| `RaftRecovery.SavedBeforeSnapshot` | goraft-explore/raft.go:428-432 | saving the entries of a Ready before its snapshot leaves a readable WAL if and only if there are none or the snapshot is not ahead of what could be read |
| `RaftRecovery.ReadyIsRead` | goraft-explore/raft.go:428-442 | after a Ready whose entries were saved and join up, however it ends, reading the WAL from the newest snapshot file yields them at their places, and a received snapshot that was written is the file at its index |
| `RaftLimits.SnapshotCanMissHeldPut` | goraft-explore/raft.go:349-361 | a run in which a snapshot misses a put that counts as applied |
| `RaftLimits.HeldNilSpoilsMap` | goraft-explore/raft.go:329-361 | a run without a crash that ends idle with a wrong map, after a snapshot taken with a nil on its way |
| `RaftLimits.EarlyLoadExample` | goraft-explore/raft.go:428-434 | a run in which the map is ahead of the applied index before the snapshot is signalled |
| `RaftLimits.RestartForgetsExample` | goraft-explore/raft.go:227-250 | a run through a restart that ends idle with a wrong map |
| `RaftLimits.OwnFileForgetsExample` | goraft-explore/raft.go:227-250 | a run through a restart without a snapshot that ends idle with a wrong map and a right snapshot file of its own |
| `RaftLimits.SnapshotBeforeNilExample` | goraft-explore/raft.go:349-361 | a run in which an idle consumer yields a wrong snapshot before the replay has ended |
| `RaftLimits.GapExample` | goraft-explore/raft.go:428-432 | a run that crashes with a WAL that cannot be read |
| `RaftLimits.SmallSnapCountPanics` | goraft-explore/raft.go:347-377 | for every snapCount below the catch-up length there is a run in which compaction panics |
| `Upstreams.ResetKeeps` | jojo/jojo.go:330-344 | a reset keeps the invariant and never empties a non-empty live list |
| `Upstreams.MarkFailedKeeps` | jojo/jojo.go:290-321 | so does a failure, with at least two servers and a limit of at least one |
| `Upstreams.ProbeKeeps` | jojo/jojo.go:352-389 | a probe round keeps the invariant |
| `Upstreams.ProbeExact` | jojo/jojo.go:352-389 | a round lists a server that is online with failures unasked and leaves its count alone; it lists any other one if and only if that one answers, and then clears it |
| `Upstreams.RunKeeps` | jojo/jojo.go:290-389 | over every sequence of failures, resets and probe rounds a server is offline exactly when its failure count is at the limit, and the live list is an order-keeping sublist of the online servers |
| `Upstreams.OnlyProbesEmpty` | jojo/jojo.go:290-389 | only a probe round turns a non-empty live list empty |
| `Upstreams.Miscounted` | jojo/jojo.go:290-321 | with one server or a limit of zero some sequence breaks the counting |
| `Upstreams.CountedIff` | jojo/jojo.go:290-389 | the counting holds over all sequences if and only if there are two servers and a limit of at least one |
| `Upstreams.UpstreamServers.constructor` | jojo/jojo.go:123-134 | all addresses of the comma-separated list, in order, live and without failures |
| `Upstreams.UpstreamServers.ResetNoLock` | jojo/jojo.go:330-344 | the loop refines Reset and keeps the invariant |
| `Upstreams.UpstreamServers.MarkFailed` | jojo/jojo.go:290-321 | the search and the two branches refine Failed and keep the invariant |
| `Upstreams.UpstreamServers.Exclude` | jojo/jojo.go:306-320 | the failing server is marked offline and the live list becomes the other online ones in order |
| `Upstreams.UpstreamServers.ProbeAll` | jojo/jojo.go:352-389 | the loop refines Probe, which ProbeExact describes server by server, and keeps the invariant |
| `ProbeRounds.EveryRunCounts` | jojo/jojo.go:290-389 | in every interleaving of the steps of probe rounds with failures and resets, a server is offline exactly when its failure count is at the limit, and the live list keeps the order of the servers |
| `ProbeRounds.CountIsHistory` | jojo/jojo.go:290-389 | in every interleaving a failure count is the number of failures of that server since it last answered a probe or everybody was brought back; it is offline if and only if that is the limit |
| `ProbeRounds.LiveAfter` | jojo/jojo.go:290-389 | which servers are live after each step: all when everybody is brought back, the other online ones after a failure at the limit, those listed at the end of a round, and otherwise the same as before |
| `ProbeRounds.LookAsks` | jojo/jojo.go:359-371 | a round asks exactly the servers that are offline or have no failures |
| `ProbeRounds.EndIff` | jojo/jojo.go:352-389 | in every interleaving, a round leaves a live list of online servers if and only if no failure has taken a server offline since the step that listed it, without everybody being brought back after that |
| `ProbeRounds.OfflineSince` | jojo/jojo.go:290-389 | a server that a round has listed is offline later in the round if and only if a failure took it offline since, and nothing brought it back |
| `ProbeRounds.ListedIff` | jojo/jojo.go:352-389 | the list of a round holds exactly the servers that one of its steps found online with failures, or that answered |
| `ProbeRounds.FailureEmptiesIff` | jojo/jojo.go:290-321 | a failure empties a live list if and only if it takes the last online server offline while the list still holds two |
| `ProbeRounds.RaceExample` | jojo/jojo.go:352-389 | for any two servers, a run in which a round brings an offline server back into the live list and a failure then empties the list |
| `ProbeRounds.RoundRefines` | jojo/jojo.go:352-389 | a round that nothing interrupts, step by step, is the one-step probe round |
| `HashPartition.PickInterval` | jojo/jojo.go:273-288 | server k is picked exactly for the hashes of one interval |
| `HashPartition.UpstreamByInterval` | jojo/jojo.go:273-288 | an error exactly if no server is live; otherwise the address whose interval holds the hash |
| `HashPartition.Monotone` | jojo/jojo.go:273-288 | a larger hash never gives an earlier server |
| `HashPartition.Shares` | jojo/jojo.go:273-288 | the exact number of 64-bit hashes that each server gets |
| `HashPartition.Balanced` | jojo/jojo.go:273-288 | the shares of two servers differ by at most the number of servers |
| `ResolverRing.StepKeeps` | jojo/jojo.go:415-450 | every step keeps each request in exactly one place, answered at most once, and the ring within its capacity |
| `ResolverRing.EveryRunKeeps` | jojo/jojo.go:415-450 | so does every run, hence no request is lost |
| `ResolverRing.OldestFirst` | jojo/jojo.go:432-450 | an eviction, and a resolver thread, always takes the oldest request in the ring, and leaves the younger ones in order |
| `ResolverRing.AnsweredBy` | jojo/jojo.go:415-450 | every answer of a run goes back to a request taken from the head of the ring: as evicted by a submitter that had found the ring full, or by a resolver thread |
| `ResolverRing.CanBeAnswered` | jojo/jojo.go:415-450 | from every reachable state each request that is not stuck has a continuation without new arrivals that answers it |
| `ResolverRing.StuckForever` | jojo/jojo.go:432-450 | a stuck request is answered by no continuation without new arrivals |
| `ResolverRing.AnswerableIffNotStuck` | jojo/jojo.go:415-450 | a request can be answered without new arrivals if and only if it is not stuck |
| `ResolverRing.StuckExample` | jojo/jojo.go:432-450 | a run of two requests that leaves the second one stuck |
| `DnsCache.GetKey` | jojo/jojo.go:238-259 | accepts exactly the requests with one question, of class INET and with enough labels, and yields their key |
| `DnsCache.KeysMatchQueries` | jojo/jojo.go:238-259 | two requests have the same key if and only if their names agree up to the case of ASCII letters and they have the same type and the same flag in the last OPT record |
| `DnsCache.MinTTL` | jojo/jojo.go:469-483 | the smallest lifetime of the records, or the bound it is below or above; the negative lifetime without records |
| `DnsCache.GetMinTTL` | jojo/jojo.go:469-483 | the loop finds that lifetime |
| `DnsCache.RunKeeps` | jojo/jojo.go:545-601 | whatever is evicted or purged, every cache entry and every reply sent stays backed by a resolution in the history |
| `DnsCache.CachedRepliesAreHonest` | jojo/jojo.go:545-601 | every reply from the cache carries the caller's id and question and the answers of an earlier resolution of the same query, and is served expired only if the resolution just attempted failed |
| `DnsCache.CacheIsHonest` | jojo/jojo.go:545-601 | every cached entry was resolved for the same query and lives between 60 and 604800 seconds |
| `DnsCache.CacheHit` | jojo/jojo.go:556-596 | a resolved reply serves every later request for the same query, with that caller's id and question and without another resolution, until it expires or is evicted, purged or resolved anew |
| `DnsCache.CachedSince` | jojo/jojo.go:545-601 | what is cached under a key is the reply of the last resolution for it, valid for its lifetime from then on, not evicted or purged since |
| `DnsCache.BeginExact` | jojo/jojo.go:556-585 | a request is answered at once, with its own id and question, if and only if an unexpired reply is cached; otherwise it is resolved if and only if the rate limiter lets it pass |
| `DnsCache.FinishExact` | jojo/jojo.go:586-609 | over runs, the end of a resolution sends exactly its reply; a failed one sends what was cached when the request came in, expired or not, under the caller's id and question, and nothing if nothing was |
| `LeaseTable.Scan` | opendhcpd/dhcpv4/dhcp_internal.go:116-123 | a segment scan returns its first free slot, and -1 exactly if it has none |
| `LeaseTable.FreeSlotExact` | opendhcpd/dhcpv4/dhcp_internal.go:114-125 | for every random start the two segments find the first absent or expired slot in cyclic order; -1 if and only if there is none |
| `LeaseTable.SlotsInRange` | opendhcpd/dhcpv4/dhcp_internal.go:79-110 | over every run all slots stay in range |
| `LeaseTable.BoundUntilFreed` | opendhcpd/dhcpv4/dhcp_internal.go:79-110 | an acknowledged slot stays with its client until that client frees it, expiry notwithstanding |
| `LeaseTable.AcksAreSeparated` | opendhcpd/dhcpv4/dhcp_internal.go:79-110 | between two acknowledgements of one address to different clients the first client released or declined it (sections 4.3.2 to 4.3.4 of RFC 2131) |
| `LeaseTable.TableIsHistory` | opendhcpd/dhcpv4/dhcp_internal.go:79-110 | the table is what messages and events say: a slot is in it, for whom and until when, exactly as its last acknowledgement or release says, the lease duration counted from the request |
| `LeaseTable.FreeIff` | opendhcpd/dhcpv4/dhcp_internal.go:79-123 | a slot is free at a time if and only if it was never acknowledged, or freed since, or that time is after the acknowledged request plus the lease duration |
| `LeaseTable.OfferExact` | opendhcpd/dhcpv4/dhcp_internal.go:63-77 | over runs, a client that holds a slot is offered one of its own, any other one the first free slot from the random start on, and there is no answer if and only if none is free |
| `LeaseTable.LeaseIsRespected` | opendhcpd/dhcpv4/dhcp_internal.go:63-99 | until the lease duration after its acknowledged request is over, a slot is offered to nobody else |
| `LeaseTable.AckExact` | opendhcpd/dhcpv4/dhcp_internal.go:79-99 | over runs, a request is ignored exactly if it is for another server, acknowledged exactly if it names a slot in range that no other client holds, and refused otherwise |
| `LeaseTable.ReleaseExact` | opendhcpd/dhcpv4/dhcp_internal.go:101-110 | over runs, a release frees a slot that its client holds, and does nothing if there is none |
| `LeaseTable.OfferHonoured` | opendhcpd/dhcpv4/dhcp_internal.go:63-99 | an offer requested next is acknowledged at the same address if and only if its slot is absent or the client's own and the address does not overflow (section 4.3.1 of RFC 2131) |
| `LeaseTable.ExpiredOfferExample` | opendhcpd/dhcpv4/dhcp_internal.go:63-99 | for any two clients, a run in which an expired lease is offered to the second and then refused |
| `LeaseTable.Handler.FreeLease` | opendhcpd/dhcpv4/dhcp_internal.go:114-125 | the nested loop refines the two-segment scan; -1 if and only if nothing is free |
| `LeaseTable.Handler.SlotOf` | opendhcpd/dhcpv4/dhcp_internal.go:65-69 | finds a slot of the client if there is one, in any iteration order |
| `LeaseTable.Handler.ServeDiscover` | opendhcpd/dhcpv4/dhcp_internal.go:63-77 | a Discover step: the client's own slot or a free one is offered, nothing changes |
| `LeaseTable.Handler.ServeRequest` | opendhcpd/dhcpv4/dhcp_internal.go:79-99 | a Request step: ignored, acknowledged and bound, or refused |
| `LeaseTable.Handler.ServeRelease` | opendhcpd/dhcpv4/dhcp_internal.go:101-110 | a Release or Decline step: one slot of that client is freed, if any |
| `Journal.TextGrows` | vanishling/ttl/journal.go:46-65 | appending a line to the text is appending an entry to the journal |
| `Journal.LineIff` | vanishling/ttl/cleaner.go:63-69 | a line parses back to its entry if and only if no field holds a comma |
| `Journal.ParseIff` | vanishling/ttl/cleaner.go:63-69 | a line is read as an entry if and only if it is that entry's line and no field holds a comma |
| `Journal.RoundTrip` | vanishling/ttl/cleaner.go:59-69 | parsing the journal text gives back exactly the entries, in order |
| `FileStore.TtlFor` | vanishling/core/file_service.go:128-148 | the TTL is at most an hour; a readable header of at most an hour is honoured, anything else gives the default |
| `FileStore.EntryReadsBack` | vanishling/ttl/journal.go:46-65 | the cleaner reads in a journaled line the path, the TTL, and the commit time plus the TTL in whole seconds |
| `FileStore.PassExact` | vanishling/ttl/cleaner.go:59-90 | a cleaner pass ends at the first line that cannot be read, or whose expired file cannot be removed, while the file is there; a file goes if and only if a line before that says it has expired, and the pass succeeds if and only if there is no such line |
| `FileStore.PassOverJournal` | vanishling/ttl/cleaner.go:59-90 | an error-free pass over the text of a journal removes exactly the files with an entry whose expiry is before now |
| `FileStore.Store.CreateFile` | vanishling/core/file_service.go:188-205 | creates exclusively: fails exactly if the path exists |
| `FileStore.Store.Commit` | vanishling/ttl/journal.go:46-73 | the journal gains exactly the entry with the field's TTL, at most an hour |
| `FileStore.Store.DeleteFunc` | vanishling/ttl/cleaner.go:53-111 | the loop refines the pass function; the journal is truncated exactly after an error-free pass over one that is too long |
| `VanishRun.RunKeeps` | vanishling/ttl/cleaner.go:53-111 | the invariant over uploads, journal, files and cleaner holds in every reachable state |
| `VanishRun.JournaledTtlBounded` | vanishling/core/file_service.go:128-148 | in every interleaving every journaled TTL is at most an hour |
| `VanishRun.LastSetWins` | vanishling/ttl/journal.go:67-73 | an upload journals the TTL set last by anyone; it is its own if and only if the two agree |
| `VanishRun.JournalsLastSet` | vanishling/core/file_service.go:128-148 | over runs, the line of an upload has its own path and, counted from its commit, the TTL that was set last before it read the shared field |
| `VanishRun.MixUpExample` | vanishling/core/file_service.go:128-148 | for any two headers with different TTLs, a run in which the file of the first upload is journaled with the TTL of the second |
| `VanishRun.NeverTooEarly` | vanishling/ttl/cleaner.go:76-90 | no file is removed at or before its commit time plus journaled TTL minus one second |
| `VanishRun.GoneAfterPass` | vanishling/ttl/cleaner.go:53-111 | a file whose line was committed before a pass read the journal, after its expiry and with the journal not emptied in between, is gone for good once that pass ends without error |
| `VanishRun.NeverRemoved` | vanishling/ttl/cleaner.go:92-108 | a file that is still there when the journal is emptied with its line in it is never removed |
| `VanishRun.LostExample` | vanishling/ttl/cleaner.go:92-108 | a run in which a pass empties the journal while the file of its only line is still there |
| `Intersection.GreedyExact` | list-intersect/fast/fast.go:10-43 | the result is the multiset intersection of the part of the shorter list that was looked at with the longer list, and result plus remainder is the longer list |
| `Intersection.GreedyOrdered` | list-intersect/fast/fast.go:10-43 | the result is a subsequence of the shorter list |
| `Intersection.StopsAtDivergence` | list-intersect/fast/fast.go:24-33 | the part of the shorter list that is looked at ends with the first position at which the lists diverge, and is the whole list if there is none |
| `Intersection.LeavesTheRest` | list-intersect/fast/fast.go:33-34 | what is left of the longer list is what taking out the first occurrence of each value looked at leaves, in order |
| `Intersection.CompleteIff` | list-intersect/fast/fast.go:10-43 | the result is the whole multiset intersection if and only if every value behind the first divergence occurs at least as often up to there as in the longer list |
| `Intersection.EarlyStopExample` | list-intersect/fast/fast.go:24-33 | an input on which a common value is missed |
| `Intersection.Find` | list-intersect/fast/fast.go:20-24 | the inner loop finds the first occurrence |
| `Intersection.Remove` | list-intersect/fast/fast.go:33-34 | shifting the array in place removes one position and keeps the order |
| `Intersection.TakeOne` | list-intersect/fast/fast.go:19-41 | one round of the outer loop: a hit removes the first partner, and the stop is decided on the list before the removal |
| `Intersection.Intersect` | list-intersect/fast/fast.go:18-42 | the nested loops in place refine the greedy function, result and remaining array |
| `Intersection.IntersectLists` | list-intersect/fast/fast.go:10-43 | the shorter list is searched in the longer one, ties in argument order, and the shorter list is left as it was |
| `LeakyBucket.ClosedForm` | leakybucket/main.go:74-84 | the capacity after any number of ticks in closed form |
| `LeakyBucket.CapacityBounds` | leakybucket/main.go:74-84 | it is always above minus the leak and at most the maximum |
| `LeakyBucket.RefillsEachCycle` | leakybucket/main.go:74-84 | a tick refills exactly once every ceil(capacity / leak) ticks |
| `LeakyBucket.ReleasedPerCycle` | leakybucket/main.go:74-84 | a cycle releases at least the capacity and less than capacity plus leak |
| `LeakyBucket.RequestsBounded` | leakybucket/main.go:104-113 | over every run with any number of clients the counter is at most leak times ticks, with equality exactly when no slot is pending or held |
| `LeakyBucket.Bucket.OnTick` | leakybucket/main.go:74-84 | one tick of the ticker loop follows the closed form and releases the leak |
| `LeakyBucket.NewLeakyBucket` | leakybucket/main.go:43-62 | fails exactly if the leak exceeds the capacity |

## Left out

- The etcd raft library, its WAL, snapshotter and transport: the model relies on their contracts only (committed batches are contiguous and handed over for saving before they are committed, appends are durable and in order, compaction at or before the beginning of the log is an error).
- Configuration changes beyond a node's own removal: peers, the transport and `confState` are not part of the model.
- RaftLimits.SmallSnapCountPanics: leaves out the two largest 64-bit values of snapCount, for which no log is long enough.
- RaftSafety.RunInv: in the machine a write succeeds or the process crashes before it, at the latest in the middle of a save; writes that fail unnoticed are in `RaftNode.Raft.HandleReady` only.
- RaftQuiet.MapFollowsLog: keeps to processes in which nothing can go wrong; `RaftMap.MapOfProcess` is about all of them.
- RaftReady.ReadyRefines: is about a Ready that is worked off to its end; for one that is cut short there are the single steps, `PublishRefines` and `OwnSnapshotRefines`.
- RaftPipeline.StepInv: finding the newest snapshot file and replacing the map are one step of the machine, and two in the source.
- RaftRecovery.PublishedIsRead: relies on raft not to overwrite what it has handed over as committed, and takes a gap in the WAL as a read error; the machine lets a process start on such a WAL all the same.
- Gob and JSON bytes: a payload is a put or undecodable, and a snapshot is the image of the map under the replacement of invalid UTF-8.
- HTTP servers, listeners, sockets, command lines and logging of all programs.
- jojo: averaging of round-trip times, local records, special names, truncation of replies, DNS packing and the hash itself; the slip counter and the replacement policy of the cache are nondeterministic choices.
- ProbeRounds.EveryRunCounts: there is one probe round at a time, as one thread makes them all, and reading or writing one server entry is one step.
- Upstreams.RunKeeps: configured addresses are distinct, since servers are found by address.
- opendhcpd: DHCP options and IP parsing; an address is its 32-bit number, and Release and Decline are one message as in the source.
- vanishling: multipart parsing, the running hash, the disk-full check and time zones; printing and reading a date is taken as truncation to seconds.
- VanishRun.NeverTooEarly: file paths are clean and do not repeat, as the hash of a file is taken not to.
- Intersection.Intersect: the two lists do not share memory; with shared memory the removal would change the list being iterated over.
- LeakyBucket.ClosedForm: the leak is at least one; a leak of zero or less lets no request through and never empties the bucket.
- The other programs of the repository: clients of Kafka, LDAP, Vault and the like, wrappers around libraries, one-off probes, and the retired variants of list-intersect over library sets.
