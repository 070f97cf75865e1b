# A verified model of the mesh store

This project models the parts of the toll-mesh store whose correctness is not obvious from reading one
function, and proves what they are for. Every method that updates state in place is written as such and tied
to a function on values; the main results are lemmas about those functions, over every run or every input.

- **Sorted sets** (`Towers`, `SkipListWrites`, `SkipListEdits`, `SkipListReads`, `SkipList`, `RankedSeq`,
  `Members`, `SortedSet`, `Replicas`). The skip list is a class over linked nodes with forward pointers, spans
  and backward pointers; whatever height a node gets, the list's value is one sorted sequence. On top of it the
  sorted set keeps list and member map in agreement, and the copies of many nodes converge. A write is not
  certain to win, since scores are compared before times: `Replicas.RemovalReaches` and `Replicas.AddReaches` say
  exactly when a removal and an addition do.
- **Rate limits, nonces and the cache** (`Crdt`, `MeshNode`, `MeshStore`, `Persistence`, `Recovery`, `Mesh`,
  `RateLimit`, `FullViews`, `Overruns`, `StaleCopies`, `CacheVersions`, `CacheCases`, `MeshConvergence`,
  `Convergence`). Nodes consume, write, exchange stale states, take checkpoints, crash and recover, in any
  interleaving. A node that has heard of every admission keeps to the limit as a single counter would (`FullViews`);
  nodes that have not admit up to the limit each, and no more (`RateLimit`). The comment in the
  store that rotating the log is purely a cleanup step holds only without writes in between; `Recovery` says for
  counts, nonces and cache entries exactly when it does, with runs in which each is lost, `StaleCopies` says the same
  of a snapshot that is older than its stamp, and `Overruns` says by how much a limit can then be passed, also when a
  snapshot is restored on a live node. Deleting an expired entry forgets its version, so that an overwritten value can
  come back; `MeshConvergence.CleanedComesBackIff` says exactly when, and `CacheCases` has a run.
- **Streams** (`Numerals`, `StreamLog`, `Retention`, `Stream`, `StreamReplicas`, `ConsumerGroup`,
  `Consumption`). The log and its index, retention, merging as a bounded ordered union, and how a consumer
  resumes. The byte limit does not commute with merging, and group keys of different streams can meet;
  `StreamReplicas.MergeKeepsIff`, `StreamReplicas.OrderIsIrrelevantIff` and `ConsumerGroups.GroupKeysMeet` say
  exactly when.
- **The hash ring** (`RingOrder`, `FullRings`, `Ring`), for any hash function, so with every possible collision;
  `FullRings` says what holds without any.
- **The job queue** (`Jobs`, `Claims`, `ClaimLaws`, `JobUpkeep`, `JobMerge`, `JobRelay`, `JobQueue`, `JobRuns`,
  `FreeRuns`, `JobCases`). `GetNextJob` deletes from the slice it is ranging over; the model keeps the shared backing
  array, and `ClaimLaws` says exactly when a claim takes the best job, another one, or runs out of range. `JobCases`
  has runs in which that happens; claims are exclusive all the same (`FreeRuns`). A merge updates the index and not
  the log: `JobMerge.PassesOnIff` says exactly when a node then sends on what it holds, and
  `JobRelay.OldVersionSent` that otherwise it goes on sending the old version whatever becomes of the job. The
  comment on retries speaks of exponential backoff; the delay is computed linearly and nothing reads it, so it is a
  parameter here.
- **The search index** (`SearchIndex`, `SearchRuns`), for any tokenizer. A deletion leaves no trace; `SearchRuns.HeldIff`
  says exactly which documents are held after any run.

Clocks, random heights, hash functions, tokenizers and the order in which maps are visited are parameters or
arbitrary choices. Scores and averages are real numbers. `dafny verify dfyconfig.toml` verifies the project.

Two names recur. A *run* is a sequence of operations; an operation that is not enabled does nothing. A
*registry* is the set of everything ever written, by version or identifier; it exists in proofs only.

## Model

| member | source | states |
|---|---|---|
| `Order.LessTotal` | sortedset/skiplist.go:53-60 | (score, member) is a strict total order: of two entries exactly one comes first or they are the same. |
| `Order.LessTransitive` | sortedset/skiplist.go:53-60 | The order is transitive. |
| `Order.VersionTotal` | store/mesh_store.go:1273-1282 | The (timestamp, node) version order, shared by cache entries, jobs and documents, is total and strict: it never leaves two different versions undecided. |
| `Order.VersionTransitive` | store/mesh_store.go:1273-1282 | The version order is transitive. |
| `Order.LexLessIff` | sortedset/skiplist.go:53-60 | One string is before another if and only if they agree up to a place at which the first ends or has the smaller character. |
| `RankedSeq.InsertedMeaning` | sortedset/skiplist.go:63-143 | Insertion into a sorted sequence adds exactly the one entry, keeps the order, and changes nothing when the entry is there. |
| `RankedSeq.RemovedMeaning` | sortedset/skiplist.go:162-204 | Removal takes out exactly the one entry and keeps the order. |
| `RankedSeq.SortedUnique` | sortedset/skiplist.go:53-60 | A sorted sequence is determined by its elements, so the list has one possible abstract value for each set of entries, whatever the heights. |
| `RankedSeq.AscendingAndDescending` | sortedset/skiplist.go:207-253 | With a limit that is large enough, the descending read is the ascending one reversed; with a smaller one it is the highest entries, highest first. |
| `RankedSeq.RankAndRevRank` | sortedset/sorted_set.go:133-161 | Rank + RevRank + 1 is the cardinality, for every live member. |
| `RankedSeq.InScoresListed` | sortedset/skiplist.go:207-232 | The score filter holds exactly the list's entries with a score in the range. |
| `RankedSeq.InScoresSorted` | sortedset/skiplist.go:207-232 | What the filter leaves of a sorted sequence is sorted. |
| `RankedSeq.SortedAscends` | sortedset/skiplist.go:53-60 | In a sorted sequence scores do not fall, and at equal scores members rise. |
| `RankedSeq.ReverseDescends` | sortedset/skiplist.go:236-253 | In a descending read with a limit scores do not rise. |
| `RankedSeq.RanksMeaning` | sortedset/skiplist.go:256-275 | The entries between two ranks, by index: those at start..stop, clipped to the list. |
| `Towers.GoodSpliced` | sortedset/skiplist.go:95-134 | Splicing a node of any height in keeps the whole invariant: every active level is a chain through exactly the nodes that reach it, every span is the exact distance (or the distance to the end), every backward pointer is the level-0 predecessor. |
| `Towers.GoodUnspliced` | sortedset/skiplist.go:181-195 | Taking a node out keeps the whole invariant, spans and backward pointers included. |
| `Towers.GoodOpened` | sortedset/skiplist.go:95-103 | Opening a new level with the header's span set to the length keeps the invariant. |
| `Towers.GoodClosed` | sortedset/skiplist.go:197-200 | Closing an empty top level keeps the invariant. |
| `SkipListEdits.RandomLevel` | sortedset/skiplist.go:92-93 | The height is some level in 1..MAX_LEVEL; nothing else is assumed of the coin. |
| `SkipListEdits.Descend` | sortedset/skiplist.go:67-84 | The descent finds, on every level, the last node before the key and its exact rank. |
| `SkipListWrites.LinkLevel` | sortedset/skiplist.go:121-128 | The pointer and span assignments of one level turn that level's chain into the chain with the new node. |
| `SkipListWrites.UnlinkLevel` | sortedset/skiplist.go:181-189 | The assignments of one level turn its chain into the chain without the node, on levels the node does not reach too. |
| `SkipListEdits.InsertNode` | sortedset/skiplist.go:63-143 | Insert as a whole, in place: the invariant again, for one more node in its sorted place, or nothing changed. |
| `SkipListEdits.DeleteNode` | sortedset/skiplist.go:162-204 | Delete as a whole, in place: the invariant again without the node, or nothing changed. |
| `SkipLists.SkipList.constructor` | sortedset/skiplist.go:37-51 | A new list is valid and empty. |
| `SkipLists.SkipList.Insert` | sortedset/skiplist.go:63-143 | For every choice of height: the contents are the sorted insertion, every pointer, span, the tail, level and length are exact again, and the result says whether the entry was new. |
| `SkipLists.SkipList.Delete` | sortedset/skiplist.go:162-204 | The contents are the sorted removal, the whole structure is exact again, and the result says whether the entry was there. |
| `SkipListReads.RankOf` | sortedset/skiplist.go:283-302 | Summing spans down the levels gives exactly the entry's index, and finds the entry exactly when it is there. |
| `SkipLists.SkipList.Rank` | sortedset/skiplist.go:283-302 | Rank is the index in the sorted contents; absent exactly when absent. |
| `SkipLists.SkipList.Range` | sortedset/skiplist.go:207-232 | The lowest `limit` entries in the score range, or all of them if there are fewer, with scores that do not fall. |
| `SkipLists.SkipList.RangeDesc` | sortedset/skiplist.go:236-253 | The highest `limit` entries in the score range, or all of them if there are fewer, with scores that do not rise, by way of the backward pointers. |
| `SkipLists.SkipList.RangeByRank` | sortedset/skiplist.go:256-275 | Exactly the slice of the sorted contents between two ranks. |
| `SkipLists.SkipList.Count` | sortedset/skiplist.go:315-337 | The number of entries in the score range. |
| `SkipLists.SkipList.Length` | sortedset/skiplist.go:340-344 | The number of entries. |
| `Members.CompareOrder` | sortedset/sorted_set.go:338-366 | The (score, timestamp, node) comparison is antisymmetric and ties exactly on equal triples. |
| `Members.CompareTransitive` | sortedset/sorted_set.go:338-366 | The comparison is transitive. |
| `Members.MergedCommutes` | sortedset/sorted_set.go:270-308 | Merging member maps in which a (timestamp, node) names one record is commutative, tombstones included. |
| `Members.MergedAssociates` | sortedset/sorted_set.go:270-308 | Merging member maps is associative. |
| `Members.MergedIdempotent` | sortedset/sorted_set.go:270-308 | Merging the same peer again changes nothing. |
| `Members.MergedKeepsGreatest` | sortedset/sorted_set.go:270-308 | Of two records of a member the merge keeps one that neither outranks: the higher score, at equal scores the later time, at equal times the greater node; a member known to one side only is taken as it is. |
| `Members.AddMeaning` | sortedset/sorted_set.go:53-89 | After an addition the member is live with the new score, also if it was removed before; no other record changes; the live pairs are those of the other members and this one. |
| `Members.RemoveMeaning` | sortedset/sorted_set.go:92-117 | After a removal the member is not live; no other record changes; the live pairs are those of the other members. |
| `Members.FromSnapshotAt` | sortedset/sorted_set.go:261-267 | Of several records of one member in a snapshot the last one counts. |
| `Members.LiveCard` | sortedset/sorted_set.go:228-239 | There are as many live (score, member) pairs as live members. |
| `SortedSets.SortedSet.constructor` | sortedset/sorted_set.go:31-40 | A new set is empty at time 0, list and map in agreement. |
| `SortedSets.SortedSet.Add` | sortedset/sorted_set.go:53-89 | The member is live with the new score, whether it was unknown, live or removed, under the next Lamport time; no other record changes, and the list has the other members' entries and this one. |
| `SortedSets.SortedSet.Remove` | sortedset/sorted_set.go:92-117 | The member has a tombstone under this node's next Lamport time, and the list has the other members' entries; no other record changes, and an unknown member is an error and changes nothing. |
| `SortedSets.SortedSet.MergeSnapshot` | sortedset/sorted_set.go:261-308 | The map is the merge with the snapshot (a later record of a member replacing an earlier one), the clock counts one event, and the list again holds exactly the live pairs. |
| `SortedSets.SortedSet.MergeAll` | sortedset/sorted_set.go:277-301 | The merge loop gives the same result in whatever order the members are visited. |
| `SortedSets.SortedSet.Get` | sortedset/sorted_set.go:120-130 | Get finds a member exactly when the list has an entry of it, with that score. |
| `SortedSets.SortedSet.Rank` | sortedset/sorted_set.go:133-143 | The member's index in score order; found exactly for a live member. |
| `SortedSets.SortedSet.RevRank` | sortedset/sorted_set.go:146-161 | The index counted from the highest score; found exactly for a live member. |
| `SortedSets.SortedSet.Card` | sortedset/sorted_set.go:228-239 | The count over the map is the list's length. |
| `SortedSets.SortedSet.Range` | sortedset/sorted_set.go:164-179 | The records of the lowest `limit` live members in the range, each the live record of its entry in the list, with that score. |
| `SortedSets.SortedSet.RevRange` | sortedset/sorted_set.go:202-217 | The records of the highest `limit` live members, highest first, each the live record of its entry. |
| `SortedSets.SortedSet.RangeByRank` | sortedset/sorted_set.go:182-197 | The records at the ranks between two bounds, each the live record of its entry. |
| `SortedSets.SortedSet.Snapshot` | sortedset/sorted_set.go:245-254 | A snapshot in any order carries the whole map: reading it back gives the map. |
| `Convergence.GossipExact` | coordination/gossip.go:178-231 | For any lawful join and any schedule of stale, repeated and reordered deliveries, each node's state is the least upper bound of the states of exactly the sources whose news reached it. |
| `Convergence.GossipConverges` | coordination/gossip.go:178-231 | Two nodes, in whichever two schedules, that heard from the same sources hold the same state. |
| `Replicas.AlwaysTracked` | sortedset/sorted_set.go:53-117 | In every reachable multi-node state every record anywhere is the one that was written under its (timestamp, node), and no clock is behind its own writes. |
| `Replicas.SameVersionSameRecord` | sortedset/sorted_set.go:53-117 | Two records with the same (timestamp, node), in any replica or in-flight snapshot, are identical. |
| `Replicas.ReachableMergeIsJoin` | sortedset/sorted_set.go:245-308 | On reachable member maps MergeSnapshot is commutative, associative and idempotent. |
| `Replicas.SetsHoldTheJoin` | sortedset/sorted_set.go:261-308 | After any run, once writes stop, each replica holds the join of exactly the sources it has heard from, in any schedule of stale, repeated and reordered snapshots. |
| `Replicas.SortedSetsConverge` | sortedset/sorted_set.go:261-308 | Once writes stop, replicas that heard from the same sources hold equal member maps, for any two merge schedules. |
| `Replicas.RemovalReaches` | sortedset/sorted_set.go:92-117 | A removal reaches a peer that holds the member live if and only if the tombstone outranks that record: by score, or on equal scores by the remover's own next time and name. |
| `Replicas.RemovalCanBeLost` | sortedset/sorted_set.go:303-307 | A concrete run in which a member that was removed comes back everywhere, because a merge does not carry the peer's clock over. |
| `Replicas.AddReaches` | sortedset/sorted_set.go:53-89 | Adding a member that a peer knows of takes effect there if and only if the new score is higher than the peer's, or equal with a newer version, or the peer has that record already; a score lowered below the peer's is lost on both sides. |
| `Crdt.TotalTakes` | core/crdt.go:27-35 | A counter's value does not depend on the order in which its counts are summed. |
| `Crdt.IncrementAddsOne` | core/crdt.go:21-25 | An increment adds exactly one to the value. |
| `Crdt.MergedCountsLaws` | core/crdt.go:57-68 | The counter's merge is idempotent, commutative and associative. |
| `Crdt.GCounter.Value` | core/crdt.go:27-35 | The loop, in any order, computes the sum. |
| `Crdt.GCounter.Increment` | core/crdt.go:21-25 | Only the node's own count grows, by one. |
| `Crdt.GCounter.Merge` | core/crdt.go:57-68 | The loop, in any order, gives slot by slot the larger count. |
| `Crdt.GCounter.Restore` | core/crdt.go:49-55 | A counter has the counts of the snapshot it is restored from. |
| `Crdt.GSet.Add` | core/crdt.go:82-86 | Adds exactly the one item. |
| `Crdt.GSet.Contains` | core/crdt.go:88-93 | Exact membership. |
| `Crdt.GSet.Merge` | core/crdt.go:115-124 | The loop gives the union. |
| `Persistence.PersistenceEngine.LogOperation` | persistence/persistence.go:178-217 | Appends the entry stamped with the time; a cache entry keeps its version, or gets the time if that is 0. |
| `Persistence.PersistenceEngine.CreateSnapshot` | persistence/persistence.go:220-244 | The latest snapshot is the given state, stamped with the time. |
| `Persistence.PersistenceEngine.ReplayWAL` | persistence/persistence.go:318-348 | Exactly the entries newer than the given time, in order. |
| `Persistence.PersistenceEngine.RotateWAL` | persistence/persistence.go:351-380 | The log starts again empty. |
| `Persistence.ReplayIsFilterThenApply` | store/mesh_store.go:172-184 | Filtering by time and then applying in order is the replay that recovery is reasoned about with. |
| `Persistence.NewerThanConcat` | persistence/persistence.go:318-348 | The entries of two logs after a time are those of the first and then those of the second, so an entry counts by its own time alone and the order stays. |
| `Persistence.NewerThanOne` | persistence/persistence.go:318-348 | An entry counts if and only if its time is later. |
| `MeshNode.ApplyMeaning` | store/mesh_store.go:190-217 | A replayed admission is one more of this node's own on that key, a nonce is added, and a cache entry replaces the one under its name with the version it was logged under; nothing else changes. |
| `MeshStores.MeshStore.constructor` | store/mesh_store.go:91-149 | A store starts with exactly the state that recovery gives for its disk. |
| `MeshStores.MeshStore.RecoverFromDisk` | store/mesh_store.go:158-186 | The snapshot, then every log entry after it in order. |
| `MeshStores.MeshStore.ApplySnapshot` | store/mesh_store.go:927-943 | The live state becomes the snapshot's, with fresh counters. |
| `MeshStores.MeshStore.ApplyEntry` | store/mesh_store.go:190-217 | One log entry: an own increment, a nonce, or a cache entry with its logged version. |
| `MeshStores.MeshStore.Consume` | store/mesh_store.go:532-563 | Admits if and only if the total of all nodes' counts in this node's view is below the limit; then this node's own count on the key is one higher and the log has one entry more, and otherwise no count and no log entry changes; `remaining` is exact and never negative, and the reset time is a window from now. |
| `MeshNode.ConsumeMeaning` | store/mesh_store.go:532-563 | Slot by slot: a request changes one count, its own node's on its own key, by one, and only if the total was below the limit. |
| `MeshStores.MeshStore.Seen` | store/mesh_store.go:566-582 | Reports a known nonce; records and logs a new one. |
| `MeshStores.MeshStore.Get` | store/mesh_store.go:585-609 | The value if there is one that has not expired. |
| `MeshStores.MeshStore.Set` | store/mesh_store.go:612-646 | The value can be read until its ttl is over, and for good without one, and no other name changes; the live entry is stamped with one reading of the clock, its expiry with a later one and its log entry with a third. |
| `MeshNode.SetMeaning` | store/mesh_store.go:612-646 | Under that name the value, the first reading and this node; expired if and only if there is a ttl and the second reading plus the ttl has passed. |
| `MeshNode.SetLogs` | store/mesh_store.go:629-645 | One log entry under the third reading, which is also its version, with the expiry rounded down to whole milliseconds. |
| `MeshStores.MeshStore.CommitWrite` | store/mesh_store.go:726-748 | A committed write has no expiry and is logged under its live version. |
| `MeshNode.CommitMeaning` | store/mesh_store.go:726-748 | Under that name the value without expiry, in the log under the same version; no other name changes. |
| `MeshStores.MeshStore.Cleanup` | store/mesh_store.go:1609-1618 | Deletes exactly the expired cache entries, in any order. |
| `MeshNode.CleanupMeaning` | store/mesh_store.go:1609-1618 | An entry stays if and only if it has no expiry or one that has not passed, and stays as it is. |
| `MeshStores.MeshStore.GetState` | store/mesh_store.go:1063-1140 | The state for a peer: all counters and nonces, and every cache entry with its value, version and writer and its expiry rounded down to whole milliseconds, or without one if it is in the first millisecond. |
| `MeshStores.MeshStore.CreateSnapshot` | store/mesh_store.go:812-900 | With no write in between: the snapshot of the state, and then an empty log. |
| `MeshStores.MeshStore.MergeLimiters` | store/mesh_store.go:1161-1172 | In any order of keys: key by key the merged counts, and no counter for a key on which the peer counts nothing. |
| `MeshStores.MeshStore.MergeCache` | store/mesh_store.go:1184-1226 | In any order of entries: each that is strictly newer than the local one is adopted and logged under its own version; every one that is newer is tried. |
| `MeshStores.MeshStore.MergeState` | store/mesh_store.go:1153-1226 | The nonces are those of both, every count the larger one, and every cache entry one side's, than which neither side's is newer; it is the node step Deliver, with rising log times. |
| `MeshNode.MergeMeaning` | store/mesh_store.go:1184-1226 | Whatever the order of the entries: under every name one side's entry is left, and neither side's has a later timestamp, nor at that timestamp a greater node. |
| `Recovery.ConsumeDurable` | store/mesh_store.go:546-551 | An admission leaves what recovery would give in agreement with the live state. |
| `Recovery.SeeDurable` | store/mesh_store.go:579-581 | So does a new nonce. |
| `Recovery.SetDurable` | store/mesh_store.go:629-645 | So does a Set: value, writer and expiry agree, and the recovered version is not lower. |
| `Recovery.CommitDurable` | store/mesh_store.go:736-747 | So does a committed write, with its exact version. |
| `Recovery.CleanupDurable` | store/mesh_store.go:1609-1618 | Deleting expired entries leaves recovery with nothing but expired entries more. |
| `Recovery.MergeDurable` | store/mesh_store.go:1153-1226 | So does a merge of any state that is not ahead of this node on its own counts, whatever the order of the entries. |
| `Recovery.SnapshotDurable` | store/mesh_store.go:858-883 | So does a snapshot with no write between copy and stamp, before the log is rotated. |
| `Recovery.RotateDurable` | store/mesh_store.go:885-899 | So does the rotation that follows it. |
| `Recovery.CrashDurable` | store/mesh_store.go:158-186 | And so does a crash with recovery, also between snapshot and rotation. |
| `Recovery.RecoveredGet` | store/mesh_store.go:585-609 | After a restart Get answers as before, for every key and time, except exactly in the part of a millisecond by which the disk rounds an expiry down. |
| `Recovery.RotateLoses` | store/mesh_store.go:885-899 | Rotating the log loses exactly what was logged since the snapshot: the admissions, the nonces the snapshot does not have, and under each name the last entry written. |
| `Recovery.RotateKeepsCountIff` | store/mesh_store.go:885-899 | A key's own count survives a rotation if and only if the key was not charged since the snapshot. |
| `Recovery.RotateKeepsNonceIff` | store/mesh_store.go:885-899 | A recovered nonce survives a rotation if and only if the snapshot has it. |
| `Recovery.RotateKeepsEntryIff` | store/mesh_store.go:885-899 | What recovery gives under a cache name survives a rotation if and only if nothing was logged under it since the snapshot, or the last that was is what the snapshot has already. |
| `Recovery.NonceLostInCheckpoint` | store/mesh_store.go:885-899 | A nonce recorded between snapshot and rotation is unknown after a crash, so its request is accepted again. |
| `Recovery.WriteLostInCheckpoint` | store/mesh_store.go:885-899 | A value set between snapshot and rotation is gone for Get after a crash, for any name, value and time of asking. |
| `Recovery.RestoreKeepsCountIff` | store/mesh_store.go:910-924 | Restoring the latest snapshot on a live node keeps its own count of a key if and only if the log has no charge of the key since that snapshot. |
| `Recovery.RestoreKeepsNoncesIff` | store/mesh_store.go:910-924 | Such a restore keeps every nonce recorded here if and only if the snapshot has those of them that were logged after it. |
| `Recovery.RestoreKeepsEntryIff` | store/mesh_store.go:910-924 | And it keeps a live cache entry if and only if nothing was logged under its name after the snapshot, or the snapshot has that entry. |
| `Recovery.CrashKeepsNonceIff` | store/mesh_store.go:158-186 | Of all a node has seen, heard from peers or recorded, a crash keeps a nonce if and only if the snapshot or the log after it has it. |
| `Recovery.HeardNonceNeedsSnapshot` | store/mesh_store.go:1174-1182 | A nonce first heard of in a merge is not logged: a crash forgets it, and a snapshot in between keeps it. |
| `MeshStores.MeshStore.RestoreFromLatestSnapshot` | store/mesh_store.go:910-924 | The live counters, nonces and cache become the snapshot's, and the log is not replayed; without a snapshot it is an error and changes nothing. |
| `Recovery.AdmissionLostInCheckpoint` | store/mesh_store.go:885-899 | A concrete admission between snapshot and rotation that a crash forgets. |
| `Mesh.AlwaysSound` | store/mesh_store.go:158-217 | In every run with checkpoints not interleaved with writes: recovery would give each node its own counter slots exactly, every nonce it recorded and its cache; and no view of a slot, live, on disk or in flight, is ahead of the slot's owner. |
| `Mesh.SoundStep` | store/mesh_store.go:1153-1226 | Each of the ten kinds of step keeps this. |
| `RateLimit.AdmittedIsCounted` | store/mesh_store.go:546-551 | Through all merges and crashes, the requests admitted for a key are exactly what the nodes count for themselves. |
| `RateLimit.AdmissionsBounded` | store/mesh_store.go:532-563 | N nodes with limit L admit at most N * L requests for a key, under any interleaving with stale, duplicated or reordered merges, undisturbed checkpoints, crashes and recoveries. |
| `RateLimit.AdmissionsReachBound` | store/mesh_store.go:532-563 | For every N and L there is a run that admits N * L. |
| `FullViews.FullViewCountsAll` | store/mesh_store.go:532-563 | In every run, the total at a node whose view has each node's own count is the number of requests for the key admitted so far, at all nodes together. |
| `FullViews.FullViewDecides` | store/mesh_store.go:532-563 | So such a node admits a request if and only if fewer than its limit have been admitted at all nodes together: it decides as one counter for all would. |
| `FullViews.LimitKept` | store/mesh_store.go:532-563 | If in a run every admission for a key is made on such a view, all nodes together admit no more than the limit itself. |
| `RateLimit.StaleCopyLoses` | store/mesh_store.go:892-898 | In every run, a snapshot stamped some steps after its copy was taken is short of the node's own count by exactly the admissions of those steps. |
| `RateLimit.SnapshotKeepsCountIff` | store/mesh_store.go:892-898 | So the count survives such a snapshot if and only if the node admitted nothing for the key between copy and stamp. |
| `StaleCopies.StaleCopyKeepsNonceIff` | store/mesh_store.go:892-898 | In every run, a nonce the node knows survives such a snapshot if and only if the node neither recorded it nor heard it from a peer between copy and stamp. |
| `StaleCopies.StaleCopyKeepsEntryIff` | store/mesh_store.go:892-898 | A live cache entry survives it - value, writer and expiry - if and only if the copy has that; and it does when no step between copy and stamp touched the name. |
| `StaleCopies.StaleCopySameVersion` | store/mesh_store.go:892-898 | In every run it survives with its version if and only if the copy has the name in that version. |
| `StaleCopies.StaleCopyKeepsVersionIff` | store/mesh_store.go:892-898 | Where nothing is cleaned up in between and each local write is stamped later than what it overwrites, that is the case if and only if no step between copy and stamp wrote the name or adopted a peer's entry for it. |
| `Overruns.OverrunBounded` | store/mesh_store.go:812-924 | In every run whatever - writes between copy, stamp and rotation, rotations at any point, restores on live nodes, crashes - N nodes with limit L admit at most N * L requests for a key and as many more as rotations, stale copies and restores have lost. |
| `Overruns.NodeOverrun` | store/mesh_store.go:532-563 | The same for each node: at most the limit and what that node has lost. |
| `Overruns.OverrunReached` | store/mesh_store.go:885-899 | For any nodes, any limit of at least 1 and every r there is a run that loses r admissions and admits N * L + r, so the bound is attained. |
| `CacheVersions.AlwaysTracked` | store/mesh_store.go:612-646 | In every run every cache entry anywhere is one that was written under its key, timestamp and node, under its live or its logged version. |
| `CacheVersions.SameVersionSameEntry` | store/mesh_store.go:24-36 | Two entries of a key with the same (timestamp, node), wherever they are, carry the same value and the same expiry in milliseconds. |
| `MeshConvergence.MergeIsJoin` | store/mesh_store.go:1153-1226 | A merge turns what is replicated into the join of both states: larger counts, union of nonces, later cache entries. |
| `MeshConvergence.JoinLawful` | store/mesh_store.go:1142-1152 | That join is commutative, associative and idempotent on the states that occur. |
| `MeshConvergence.MeshHoldsTheJoin` | store/mesh_store.go:1142-1226 | Once writing stops, each node's state is the join of the states of exactly the sources it has heard from since, in-flight messages included. |
| `MeshConvergence.MeshConverges` | store/mesh_store.go:1142-1226 | Nodes that heard from the same sources agree on every counter, nonce and cache entry, for any two schedules. |
| `MeshConvergence.StaleStaysOut` | store/mesh_store.go:1195-1205 | While an entry is there, expired or not, a merge replaces it if and only if the peer's is newer. |
| `MeshConvergence.CleanedComesBackIff` | store/mesh_store.go:1609-1618 | Once a cleanup has taken it away, a merge brings the name back if and only if the peer has it, and then as the peer's entry, however old. |
| `CacheCases.OverwrittenReturns` | store/mesh_store.go:1609-1618 | A run of two nodes, for any name, values and ttl, in which Get gives an overwritten value again: the newer one expires and is cleaned up, and then the older one comes back from the peer that had heard of it; without the cleanup the same message changes nothing. |
| `Numerals.DecimalRead` | stream/entry.go:78-78 | A printed number followed by a dash can be read back, negative or not, and so can what follows it. |
| `StreamLog.EntryIdInjective` | stream/entry.go:63-78 | An entry identifier determines its timestamp, sequence number and node, whatever characters the node has. |
| `StreamLog.EntryIdPrinted` | stream/entry.go:63-77 | It is the timestamp, the sequence number and the node with dashes between them. |
| `StreamLog.AscendingMeaning` | stream/entry.go:204-213 | In the order of a merged log timestamps do not fall, at equal ones sequence numbers do not, and at equal ones of these nodes do not. |
| `StreamLog.KeptUnion` | stream/entry.go:275-282 | The n last of A and the n last of B are the n last of A and B: what one side dropped earlier does not matter. |
| `StreamLog.KeptCard` | stream/entry.go:275-282 | No more than n entries are kept. |
| `StreamLog.LastIsKept` | stream/entry.go:275-282 | On a log in order, cutting it to its n last positions keeps the n last entries. |
| `StreamLog.OrderedUnique` | stream/entry.go:204-213 | A log in (timestamp, sequence, node) order is determined by its entries. |
| `Retention.RetainedSuffix` | stream/entry.go:259-305 | On a log with nondecreasing timestamps, age, count and byte limits together only ever remove a prefix. |
| `Retention.RetainedMeets` | stream/entry.go:259-305 | What retention keeps is no older than the age, no more than the count and, unless empty, no heavier than the size. |
| `Retention.RetainedLongest` | stream/entry.go:259-305 | And it keeps as many of the last entries as it can: one more would be too old, too many or too heavy. |
| `Retention.SortAscends` | stream/entry.go:204-213 | Whatever is sorted comes out in that order, ties included. |
| `Retention.StartMeaning` | stream/entry.go:124-135 | A range starts right after the entry that is named, and at the first one for the marks and for an identifier that is not there. |
| `Retention.EndMeaning` | stream/entry.go:137-148 | It ends with the entry that is named, and with the last one for the marks and for an identifier that is not there. |
| `Retention.SortOrdered` | stream/entry.go:204-213 | The sort gives a log in order when no two entries tie. |
| `Streams.Stream.constructor` | stream/entry.go:40-53 | A new stream is empty, with the default retention policy. |
| `Streams.Stream.Add` | stream/entry.go:56-97 | Appends the entry at the end, with the given fields, the time, this node and the next sequence number, and applies retention; the index stays exact unless the identifier was taken. |
| `Streams.Stream.Range` | stream/entry.go:115-158 | Exactly the entries after the start identifier up to the end identifier, as many of the first as the limit allows and as there are, and none for a limit of 0 or less; an identifier that is not in the log counts as the beginning, respectively the end. |
| `Streams.Stream.MergeSnapshot` | stream/entry.go:184-216 | For any peer entries: those with new identifiers are taken over, and the log is sorted and cut exactly when there are any, with timestamps, and at equal ones sequence numbers, that do not fall; the index maps exactly the identifiers of the log, without duplicates. |
| `Streams.Stream.ApplyRetention` | stream/entry.go:259-305 | The three passes over log and index in place: too old, then over the count, then over the bytes; what is left is none of these, and the index is exact again. |
| `Streams.Stream.DropHeavy` | stream/entry.go:284-304 | The running size is exact, and the longest suffix that is not over the limit remains. |
| `StreamReplicas.AlwaysTracked` | stream/entry.go:56-97 | In every reachable multi-node state, with any clocks and any retention: every entry anywhere is the one appended under its identifier, no log has an identifier twice, none is longer than the bound. |
| `StreamReplicas.SameIdSameEntry` | stream/entry.go:63-77 | Two entries under one identifier, in any logs or messages, are the same entry. |
| `StreamReplicas.AppendedIdsDiffer` | stream/entry.go:60-78 | No two appends of a run, on whatever nodes and at whatever times, make the same identifier. |
| `StreamReplicas.MergeKeepsIff` | stream/entry.go:184-216 | A merge of two reachable logs keeps the n last entries of both if and only if it brings nothing new, or those n last are within their age and together within the byte limit; a log that has taken something over is in order. |
| `StreamReplicas.JoinLawful` | stream/entry.go:172-183 | Keeping the n last of a union is commutative, associative and idempotent on the logs that occur. |
| `StreamReplicas.StreamsHoldTheJoin` | stream/entry.go:184-216 | After any run, as long as the merges meet the condition of MergeKeepsIff, each node keeps exactly the n last entries of the union of the sources it has heard from. |
| `StreamReplicas.StreamsConverge` | stream/entry.go:184-216 | As long as the merges meet the condition of MergeKeepsIff, every delivery order gives the same entries, and the same log where both are in order. |
| `StreamReplicas.OrderIsIrrelevantIff` | stream/entry.go:284-304 | Three fresh entries that arrive one by one leave the same log in two orders if and only if the last fits the byte limit and it is not so that it fits with the first but not with the second, or none of the three fits alone. |
| `StreamReplicas.MergedEntryMissedIff` | stream/entry.go:115-158 | After a merge that brings something new, a consumer whose offset is at an entry misses an entry of the log if and only if it was put at or before that entry and that entry is still there. |
| `ConsumerGroups.ConsumerGroup.AddConsumer` | stream/consumer_group.go:60-87 | Registers a consumer with its offset at the beginning and changes no other; a consumer that is there already is an error. |
| `ConsumerGroups.ConsumerGroup.RemoveConsumer` | stream/consumer_group.go:90-106 | Removes a consumer and its offset and changes no other; an unknown one is an error. |
| `ConsumerGroups.ConsumerGroup.UpdateOffset` | stream/consumer_group.go:109-135 | Moves the consumer's offset and clears the pending records of exactly that entry and consumer; no other offset changes. |
| `ConsumerGroups.ConsumerGroup.GetOffset` | stream/consumer_group.go:151-161 | The offset, or the error for an unknown consumer. |
| `ConsumerGroups.ConsumerGroup.AddPending` | stream/consumer_group.go:303-314 | One more pending record. |
| `ConsumerGroups.StaysConsistent` | stream/consumer_group.go:59-135 | Members and offsets stay in step: the same consumers, with agreeing offsets. |
| `ConsumerGroups.ClearedHas` | stream/consumer_group.go:122-129 | Clearing removes exactly the records of one entry for one consumer. |
| `ConsumerGroups.ClearedConcat` | stream/consumer_group.go:122-129 | The records that stay keep their order. |
| `ConsumerGroups.ReadGroup` | store/mesh_store.go:502-518 | Once stream and group are found: a read joins a new consumer, gives the slice of the log right after its offset, as long as the limit and the log allow, and makes each of these entries pending. |
| `ConsumerGroups.XReadGroup` | store/mesh_store.go:491-519 | The read by name: the error for an unknown stream, then the one for an unknown group, and otherwise the read, with that slice. |
| `ConsumerGroups.XAck` | store/mesh_store.go:523-529 | The acknowledgement by name, which fails for an unknown group and for an unknown consumer. |
| `ConsumerGroups.GroupKeysMeet` | store/mesh_store.go:314-316 | Groups of two different streams can be filed under one key if and only if one stream's name is the other's, a colon and something more. |
| `Consumption.AlwaysInStep` | stream/entry.go:56-97 | On one node with a clock that does not go back, what is kept is always a suffix of everything appended, in order and numbered without gaps. |
| `Consumption.ReadResumes` | store/mesh_store.go:491-519 | Whatever was acknowledged and whatever retention has removed, a read gives exactly the slice after that position in everything ever appended, but for those removed, of the smaller of the limit and what there is. |
| `Consumption.StartInKept` | stream/entry.go:121-135 | Looking an evicted identifier up as index 0 is the right position. |
| `Consumption.NextReadContinues` | store/mesh_store.go:491-529 | A consumer who acknowledges the last entry it was given goes on with the next one: nothing comes twice, and nothing is missing but what retention has removed unread. |
| `Consumption.PendingIsOutstanding` | stream/consumer_group.go:109-135 | In every run the pending records are exactly the deliveries not acknowledged since. |
| `RingOrder.ProperKept` | core/sharding.go:36-79 | Adding and removing keep: every point belongs to a node whose point it is, and a node is the same at all its points, through collisions and repeated adds. |
| `RingOrder.AddMovesOnlyToNew` | core/sharding.go:36-51 | Adding a node moves a hash if and only if one of the node's points is at least as near as the owner so far, and then to that node. |
| `RingOrder.RemoveMovesOnlyOwned` | core/sharding.go:54-79 | Removing a node moves exactly the hashes it owned. |
| `RingOrder.AddThenRemove` | core/sharding.go:36-79 | Adding a node and removing it again restores the ring if and only if none of its points was taken before. |
| `RingOrder.WalkUnique` | core/sharding.go:111-123 | The first k distinct nodes in clockwise order are determined by k. |
| `RingOrder.OwnerIsFirst` | core/sharding.go:82-93 | The owner of a key is the first node of its walk. |
| `RingOrder.WalkWithout` | core/sharding.go:54-79 | Removing one node of a walk leaves the others, in their order. |
| `RingOrder.SecondTakesOver` | core/sharding.go:96-124 | When the first node of a walk is removed, GetNode gives what was the second. |
| `RingOrder.EnoughNodes` | core/sharding.go:104-106 | No node owns more than virtualNodes points, so there are at least entries / virtualNodes nodes. |
| `Rings.FirstMetIsWalk` | core/sharding.go:114-121 | Collecting distinct nodes going round from the found index meets them in order of clockwise distance. |
| `Rings.AllMet` | core/sharding.go:114-121 | Going all the way round meets every node once. |
| `Rings.Ring.constructor` | core/sharding.go:26-33 | A new ring is empty. |
| `Rings.Ring.AddNode` | core/sharding.go:36-51 | For every i below virtualNodes the hash of the node's name and i is a point of the node; no other point is added or changed, and the key list, duplicates included, is sorted and holds exactly the points. |
| `Rings.Ring.RemoveNode` | core/sharding.go:54-79 | Exactly the node's points are gone, and the key list is rebuilt from the rest. |
| `Rings.Ring.GetNode` | core/sharding.go:82-93 | The node at the first point that is not below the key's hash, or past the last one at the first of all, or the error for an empty ring. |
| `Rings.Ring.GetNodes` | core/sharding.go:96-124 | Exactly min(count, entries / virtualNodes) distinct nodes, in clockwise order and nearer than all others, which without collisions is min(count, number of nodes); the walk never falls short. |
| `Rings.Ring.Search` | core/sharding.go:153-163 | The first key not below the hash, or the first key of all. |
| `RingOrder.WithMeaning` | core/sharding.go:40-44 | Adding a node gives it the hashes of its numbered names, whoever had them, and changes no other point. |
| `FullRings.AlwaysFull` | core/sharding.go:36-79 | When no two numbered names of the nodes that ever join have the same hash, the ring has in every run exactly the points of the nodes that are present, each node all of its own. |
| `FullRings.PointsOfPresent` | core/sharding.go:104-106 | So with m nodes present it has m * virtualNodes points, virtualNodes of each, and entries / virtualNodes is m. |
| `Jobs.JobIdInjective` | queue/job.go:117-123 | A job identifier determines its time and its nanoseconds. |
| `Jobs.JobIdPrinted` | queue/job.go:117-123 | It is the word job, the time and the nanoseconds with dashes between them. |
| `Jobs.NextIdIsNew` | queue/job.go:117-123 | In a queue whose jobs were all made there, the next identifier is new. |
| `Jobs.SortIdsSorts` | queue/job.go:392-401 | After the sort priorities do not rise and at one priority times do not fall; no duplicates are added. |
| `Jobs.EnqueueSound` | queue/job.go:113-146 | Enqueueing keeps lists, log and identifiers right, the new identifier's freshness included. |
| `Jobs.CompleteListed` | queue/job.go:200-224 | Completing keeps the lists right. |
| `Jobs.FailListedIff` | queue/job.go:227-265 | Failing a known job keeps the lists right if and only if the job is not in the pending list. |
| `Claims.BackingNext` | queue/job.go:160-168 | While the scan deletes entries of the slice it is ranging over, it reads every other entry of the original. |
| `Claims.BackingPast` | queue/job.go:160-168 | Past the shortened end it reads the last entry once more, from the stale part of the backing array. |
| `Claims.DeleteAt` | queue/job.go:166-166 | Appending the two parts of a slice moves the later entries up in place and leaves what is beyond the end. |
| `JobQueues.JobQueue.GetNextJob` | queue/job.go:150-197 | For any lists, right or wrong, the loop over the shared backing array does what the scan says, and a claimed job was listed, pending and unexpired and is now in processing for that worker, started now. When the lists are right: the first unexpired job at an even position, else an error for a single entry, else an index out of range after the last entry was touched - with the exact queue in each case; with no expired job none has a higher priority, nor the same and an earlier time. |
| `JobQueues.ScanIsClaim` | queue/job.go:158-196 | When the lists are right, the scan of a slice that is deleted from on the way comes to the positions of the original list. |
| `ClaimLaws.ClaimsBestIff` | queue/job.go:158-193 | A claim takes the best unexpired job if and only if that job stands at an even position of the pending list. |
| `ClaimLaws.FirstLiveIsBest` | queue/job.go:392-401 | No unexpired job in the list has a higher priority than the first one, nor the same priority and an earlier time. |
| `ClaimLaws.ClaimWithoutExpired` | queue/job.go:150-197 | With no expired job, a claim takes the one of the highest priority, and of these the oldest, and leaves the rest of the list as it is. |
| `ClaimLaws.ClaimsAtIff` | queue/job.go:158-193 | A claim takes the job at a position if and only if that position is even, its job is not expired, and every job at an even position before it is. |
| `ClaimLaws.ClaimPanicsIff` | queue/job.go:160-168 | The scan runs out of range if and only if there are two or more entries and every one at an even position is expired; it finds nothing if and only if there is at most one and that is expired. |
| `ClaimLaws.ClaimListedIff` | queue/job.go:150-197 | A claim keeps the lists right unless there are two or more entries, every one at an even position is expired and the last is not; that one is then marked as claimed but stays pending. |
| `ClaimLaws.ClaimListed` | queue/job.go:170-192 | A claimed job was pending, is in processing, and is no longer pending. |
| `ClaimLaws.ClaimDrops` | queue/job.go:158-168 | The entries at even positions before the claimed one are no longer pending and are marked as expired; all others are still pending. |
| `ClaimLaws.ClaimDeads` | queue/job.go:158-168 | And the dead letters are the 10,000 latest of the old ones and these, in order. |
| `ClaimLaws.AllDroppedMeaning` | queue/job.go:158-168 | When every entry at an even position is expired these are gone and marked as such, and those at odd positions are left in their order. |
| `ClaimLaws.PanicLeaves` | queue/job.go:158-193 | What a claim that runs out of range has done: that, and the last entry, if it is not expired, is marked as this worker's and started now, but is still listed as pending and not as in processing. |
| `Claims.ScanClaimed` | queue/job.go:170-192 | Whatever the lists hold, a claim stamps a listed, pending, unexpired job with worker, time and node, and puts it at the end of the processing list. |
| `JobQueues.JobQueue.Enqueue` | queue/job.go:113-146 | The job as given, pending, not tried yet and with the next Lamport time, is logged, indexed and added to the pending list, which is in order of priority and age. |
| `JobQueues.JobQueue.MarkComplete` | queue/job.go:200-224 | Completes a job in processing, with its result and the time, and takes it out of the processing list; any other is an error and changes nothing. |
| `JobQueues.JobQueue.MarkFailed` | queue/job.go:227-265 | Counts one more failure of any known job, whatever its status: back to pending, in order, while that is below the job's maximum, and otherwise failed and the latest of at most 10,000 dead letters. |
| `JobQueues.JobQueue.MergeSnapshot` | queue/job.go:336-367 | The queue after the merge is the specified one, also when its lists were wrong: no offered version of a job is later than the one held, and the pending list is in order; lists that were right are right again for any peer jobs. |
| `JobQueues.JobQueue.Snapshot` | queue/job.go:308-317 | The records of the log, which are not always those of the index. |
| `JobQueues.JobQueue.CleanUp` | queue/job_manager.go:291-361 | The three passes in place: expired pending jobs, stuck jobs, finished jobs past their age; the pending list is in order of priority and age. |
| `JobUpkeep.CleanedLists` | queue/job_manager.go:304-340 | A job is pending afterwards if and only if it was and its deadline has not passed, or it was in processing and was started more than five minutes ago; the others stay in processing. |
| `JobUpkeep.CleanedRecord` | queue/job_manager.go:304-361 | The former are marked as expired and the latter are pending and no worker's; a job leaves log and index if and only if its record in the log is completed, failed or cancelled and was updated longer ago than the age allows. |
| `JobUpkeep.SweptDead` | queue/job_manager.go:304-314 | The dead letters after a cleanup are the 10,000 latest of the old ones and the late jobs. |
| `JobUpkeep.LateConcat` | queue/job_manager.go:306-314 | The late jobs of two lists are those of the first and then those of the second, so each counts by itself and the order stays. |
| `JobUpkeep.LateOne` | queue/job_manager.go:308-310 | A job is late if and only if it has a deadline and that has passed. |
| `JobUpkeep.FreeConcat` | queue/job_manager.go:319-330 | The jobs that stay in processing keep their order too. |
| `JobUpkeep.FreeOne` | queue/job_manager.go:321-329 | A job stays in processing unless it was started more than five minutes ago. |
| `JobUpkeep.KeptConcat` | queue/job_manager.go:345-357 | The log that eviction leaves keeps its order. |
| `JobUpkeep.KeptOne` | queue/job_manager.go:350-354 | A record goes from the log if and only if it is completed, failed or cancelled and was updated before the cutoff. |
| `JobQueues.JobQueue.RemoveFromPending` | queue/job.go:403-410 | Removes the first occurrence. |
| `JobQueues.JobQueue.MoveToDeadLetter` | queue/job.go:421-432 | Records the reason and keeps the latest dead letters up to the bound; the job's status stays. |
| `JobUpkeep.SweptListed` | queue/job_manager.go:304-332 | Expiry and timeout keep the lists right; a job that timed out is pending again, in order. |
| `JobUpkeep.EvictedListedIff` | queue/job_manager.go:345-357 | Eviction keeps the lists right if and only if the log's record of no active job is finished and old. |
| `JobUpkeep.CleanupSound` | queue/job_manager.go:291-361 | Without merges, cleanup keeps lists, log and identifiers right. |
| `JobRuns.After` | queue/job.go:113-265 | In every run of enqueue, claim, complete, fail of a job that is not pending, and cleanup: pending and processing are free of duplicates and indexed, processing is exactly the jobs with that status, pending jobs have status pending and are in order, and the log is exactly the index. |
| `FreeRuns.After` | queue/job.go:113-265 | In every run in which claims may also strand jobs and pending jobs may be failed: listed jobs are known, the processing list holds jobs in processing once each, and the log is exactly the index. |
| `FreeRuns.ScanTakes` | queue/job.go:158-193 | Whatever the lists hold, a claim only takes a job that is listed, pending and not expired, and leaves it in processing. |
| `FreeRuns.ClaimsAreExclusive` | queue/job.go:148-193 | In every such run, a job that was claimed is not claimed again, by anyone, before it was failed or found stuck. |
| `JobCases.ClaimCanPanic` | queue/job.go:158-168 | Two jobs of one priority, claimed between their deadlines: the claim panics, and the second is marked as claimed but stays pending. |
| `JobCases.ClaimCanPassOver` | queue/job.go:158-193 | With a third job behind them the claim takes that one, although the second is unexpired and sooner. |
| `JobCases.PendingCanFail` | queue/job.go:227-265 | Failing a job that nobody has claimed leaves it in the pending list twice. |
| `JobCases.StrandedCanDangle` | queue/job_manager.go:345-357 | A stranded job that is completed and grows old is evicted while the pending list still names it. |
| `JobCases.EvictionCanDropActive` | queue/job_manager.go:345-357 | A node that hears of a completed job and then of its late failure has it pending, and its cleanup drops the record because the log still says completed. |
| `JobMerge.MergeListed` | queue/job.go:336-367 | A merge keeps the lists right, whatever the peer sent. |
| `JobMerge.MergeAdoptsNewest` | queue/job.go:319-323 | Per identifier the record after a merge is one of the local and the peer's records, and none of them is newer by (updatedAt, node). |
| `JobMerge.NewestMeaning` | queue/job.go:319-357 | Of all the records of a job, offered and local, the one held has the latest time of update, and at that time the greatest node. |
| `JobMerge.MergedFiles` | queue/job.go:351-366 | An adopted job is in exactly the list its status demands; every other job stays where it was. |
| `JobMerge.MergedLogs` | queue/job.go:344-357 | A merge logs exactly the jobs that are new here, after those that are logged, and touches neither the dead letters nor the clock. |
| `JobMerge.MergeTwice` | queue/job.go:336-367 | Merging the same snapshot again changes nothing. |
| `JobMerge.LogCurrentIff` | queue/job.go:344-357 | After the merge of a whole snapshot the log, where it was current for a known job, still is if and only if the peer had no newer version of it. |
| `JobMerge.PassesOnIff` | queue/job.go:308-357 | A node goes on sending, for each job it knew, the record it sent before the merge; for a job no earlier merge has superseded in the log, that is the version it holds if and only if the peer had no newer one. |
| `JobRelay.SentAsItWas` | queue/job.go:308-357 | Once a merge has superseded the log's record of a job, that record is what the node sends as long as no cleanup evicts the job: through claims, completions, failures, sweeps, later merges and whatever is done to other jobs. |
| `JobRelay.OldVersionSent` | queue/job.go:308-357 | So a node that adopts a newer version of a job it had logged goes on sending the version from before that merge, in every run from there. |
| `SearchIndexes.PurgedAll` | search/hybrid.go:125-130 | Purging a document from every posting list, and dropping the lists that become empty, gives the index of the other documents. |
| `SearchIndexes.OneMoreWord` | search/hybrid.go:147-152 | Counting one more word of a document gives the index of the document with that word. |
| `SearchIndexes.NoEmptyPostings` | search/hybrid.go:125-130 | The index has a posting list for exactly the words that occur, and none is empty. |
| `SearchIndexes.CountIsMultiplicity` | search/hybrid.go:147-152 | A word's count in a document is the number of its occurrences. |
| `SearchIndexes.BM25Index.ValidMeaning` | search/hybrid.go:81-111 | Word by word and document by document: the posting list has how often the word occurs, the lengths are the numbers of words, and the average is the total by the number of documents. |
| `SearchIndexes.BM25Index.constructor` | search/hybrid.go:56-62 | A new index is that of no documents. |
| `SearchIndexes.BM25Index.Deindex` | search/hybrid.go:120-140 | Afterwards postings, lengths, count, total and average are those of the documents without this one. |
| `SearchIndexes.BM25Index.IndexDocument` | search/hybrid.go:81-111 | Indexing, or indexing again, leaves postings, lengths, count, total and average equal to those rebuilt from the documents. |
| `SearchIndexes.BM25Index.DeleteDocument` | search/hybrid.go:299-306 | So does deleting. |
| `SearchIndexes.BM25Index.MergeSnapshot` | search/hybrid.go:340-355 | So does merging, and no offered version of a document is later than the one held. |
| `SearchIndexes.MergedKeepsNewest` | search/hybrid.go:340-355 | After a merge exactly the documents known here or sent by the peer are held, and each is one of the local and the sent ones that none of them is newer than. |
| `SearchIndexes.NewestMeaning` | search/hybrid.go:340-355 | Of all the versions of a document, offered and local, the one held has the latest timestamp, and at that timestamp the greatest node. |
| `SearchIndexes.DeletedComesBack` | search/hybrid.go:336-355 | After a deletion, the merge of any snapshot brings the document back if and only if the snapshot has it, and then in one of the snapshot's versions, whatever version was deleted. |
| `SearchRuns.HeldIff` | search/hybrid.go:299-355 | After any run of indexings, deletions and merges a document is held if and only if an indexing or a peer's snapshot brought it after its last deletion, or it was there at first and was never deleted. |
| `SearchRuns.HeldVersion` | search/hybrid.go:340-355 | It is held in a version that was indexed, offered or there since that deletion, and no snapshot merged since it was last indexed or deleted here had a later one. |
| `SearchIndexes.BM25Index.ScorerIsSafe` | search/hybrid.go:173-183 | The scorer never meets a posting of a missing document, an empty posting list, a zero count or a zero average length. |

## Left out

- Infinite and not-a-number scores, the range of 64-bit integers, memory limits: scores are reals and counts unbounded; the skip list's header never takes part in a comparison, so its score of minus infinity is not needed.
- Locks and goroutines: each operation is one step; a checkpoint is the exception, its snapshot and its log rotation are two steps.
- HTTP, JSON, authentication, TLS, peer selection and timing: the transport supplies the step of merging some state that was sent before, at any later time and any number of times.
- Torn log lines, fsync, directory order and snapshot format versions: the disk is a log and a latest snapshot.
- The cache's nesting by namespace: it is one map with namespace and key as its key.
- CommitTransaction's bookkeeping, and that its writes share one critical section: each write of a committed transaction is a step.
- Pipelines, WASM scripts, ranking configurations, transactions as replicated objects, pub/sub, cluster metrics and agents: the same last-writer-wins or maximum rules on easier state, or no determined order.
- `SortedSet.Merge` on a live set, which shares record pointers with it, and the replica lists used for testing: only snapshots are merged. Restarts of sorted sets, streams, job queues and the search index, which come back by a merge into an empty object.
- Stream.Get, Len, GetFirst and GetLast, SortedSet.Count, ConsumerGroup.RebalanceAssignment and heartbeats: single lookups, or not used by the store.
- Scoring, vector search and rank fusion: floating point; what the scorer divides by is covered.
- Vector entries of documents, which survive a re-indexing without a vector.
- ReplayDeadLetter, the worker table and the retry delay of the job queue: nothing else reads them.
- Convergence of job queues: two updates of a job on one node in one millisecond share a version, so a version does not name one record.
- Convergence while entries age, entries expire or the byte limit bites: these depend on each node's clock or on the order of arrival.
- JobQueues.JobQueue.GetNextJob: asks that every listed job has a record; without one the source stops on a nil pointer, and `JobCases.StrandedCanDangle` shows how that comes about. The expiry test and the start of processing share one reading of the clock.
- JobQueues.JobQueue.CleanUp: asks that every listed job has a record, for the same reason, and for a log and a processing list without duplicates, as they are in every run of `FreeRuns`.
- JobQueues.JobQueue.Enqueue: asks for an identifier that is not in use, which `Jobs.NextIdIsNew` shows for queues without merges; a collision with a job merged from another node is not modelled, and the clock readings of one call are one.
- JobQueues.JobQueue.MarkFailed: asks that every pending job has a record, as `GetNextJob` does.
- JobQueues.JobQueue.MergeSnapshot: asks that every pending job has a record, as `GetNextJob` does; the pending list is sorted by a stable sort, and the library's sort may order jobs of equal priority and time differently.
- JobMerge.MergeTwice: says so for a stable sort; with the library's sort it holds up to the order of such ties.
- JobRuns.After: a claim that would strand an entry and a failure of a pending job do nothing in a run; `ClaimLaws.ClaimListedIff` and `Jobs.FailListedIff` say why they are excluded, and `FreeRuns` has what holds with them.
- FreeRuns.ClaimsAreExclusive: a cleanup that would take the record of a listed job away does nothing in a run, since the source stops on a nil pointer after it; runs have no merges, which the source documents as giving up exclusive claims.
- JobMerge.PassesOnIff: for a job whose log record an earlier merge has superseded it only says that the record sent stays the same; `JobRelay.SentAsItWas` says so of everything that may happen afterwards.
- JobRelay.SentAsItWas: a step that would meet a missing record, enqueue under an identifier in use or evict the job does nothing in a run.
- Rings.Ring.GetNodes: asks for a count that is not negative; the source panics on a negative one.
- Streams.Stream.MergeSnapshot: the sort is a stable one; on entries that tie, which do not occur in reachable logs, the library's sort may differ.
- MeshStores.MeshStore.CreateSnapshot: no write falls between copy, stamp and rotation; the steps of `Mesh` and `Overruns` treat them apart.
- MeshStores.MeshStore.GetState: counters, nonces and cache only; the other feature groups have their own merges.
- MeshStores.MeshStore.ApplySnapshot: counters, nonces and cache only; the other feature groups come back by a merge into an empty object.
- MeshStores.MeshStore.RestoreFromLatestSnapshot: counters, nonces and cache only; the source also merges the other feature groups from the snapshot.
- MeshStores.MeshStore.MergeState: counters, nonces and cache only.
- Mesh.AlwaysSound: clocks rise strictly at every reading, a node writes nothing between its snapshot and its rotation, and no snapshot is restored on a live node; `Recovery` has the exact condition for each of these, and `Overruns` the runs with them.
- Mesh.SoundStep: the steps of `Mesh.AlwaysSound`, so without the live restore, which keeps a count only under `Recovery.RestoreKeepsCountIff`.
- MeshConvergence.MeshHoldsTheJoin: while the nodes exchange states, none crashes and none cleans its cache up: a crash forgets what was heard and not logged, and a cleanup forgets a version. Both may happen before, so after one the statement starts again, with a longer run `ops` in front.
- MeshConvergence.MeshConverges: the same.
- StaleCopies.StaleCopyKeepsVersionIff: asks that no step in between cleans the name up and that local writes are stamped later than what they overwrite, since a clock behind a peer's can put an earlier version over a later one; `StaleCopies.StaleCopySameVersion` has no such condition.
- RateLimit.AdmissionsBounded: the runs of `Mesh.AlwaysSound`; `Overruns.OverrunBounded` has the bound for all others.
- FullViews.LimitKept: the runs of `Mesh.AlwaysSound`, since a rotation or a restore can take a count back; when the nodes hear of each other is up to the transport.
- Recovery.RotateLoses: what is recovered right after the rotation; later writes are logged as usual.
- StreamReplicas.StreamsConverge: equal entries, and equal logs where both are in order; a log that was appended to under a clock that goes back, and has taken nothing over since, is not.
- StreamReplicas.OrderIsIrrelevantIff: three entries, each a log of its own; for logs of any length `StreamReplicas.MergeKeepsIff` says exactly when a merge keeps what counting alone would.
- Consumption.ReadResumes: one node, and a clock that does not go back; what a consumer misses after a merge is `StreamReplicas.MergedEntryMissedIff`.
- Consumption.NextReadContinues: one node, and a clock that does not go back.
