# A verified model of a distributed in-memory key-value store

The store replicates commands with Raft (written in Go) over a storage engine (written in C++) that
evicts by recency or frequency, writes a write-ahead log and takes snapshots. This project models
those parts in Dafny and proves what they guarantee, over every run, every interleaving and every
crash point. `dafny verify dfyconfig.toml` checks all of it.

## What is modelled

**Raft.** `RaftNode` gives the handlers of a node as functions, `RaftHandlers` says exactly what they do
to every state and message, and `RaftServer` is the node as an object that updates its fields with
loops and is proved to compute those functions. `RaftCluster` is a
cluster of any number of nodes: any sequence of steps is a run, and a step is an election timeout,
the delivery of any message ever sent (so messages are lost, delayed, reordered and delivered
again), a client's proposal or the sending of an append request. `RaftHistory` records what
happened beside a run, `RaftLogs` and `RaftSteps` prove the invariant, `RaftSafety` states the
guarantees in terms of runs alone. `RaftApplied` says of every run which committed commands reach the
state machine, and `RaftProgress` that after every run the cluster can go on to commit and apply a new
command everywhere, if it has more than one node. Whether a node that steps down within its own term keeps its
vote is a parameter; the node as written erases it. `RaftErasedVote` shows that this decides safety:
clusters as written are safe if and only if they have at most three nodes.

**Persistence.** `Crc64` is the checksum with its table and `Crc64Reach` the values it can be led to,
`Codec` the little-endian integers, `Wal` and `Snapshot` the two file formats with their writers and
readers, `SnapshotCount` what a damaged entry count does, and `Recovery` the store as a machine that writes, flushes, takes snapshots, truncates and crashes with any part of the unflushed
bytes on disk. It says what recovery gives after every run and exactly when that is what was
promised; `RecoveryFailures` has two runs after which it is not.

**Storage engine.** `Lru` and `Lfu` are the eviction policies, `Buckets` says which map an array of
hash chains stands for, `HashTable` is the table itself with its policy and its log, and `TableLog`
says what replaying the log of a table that evicts gives. `BoundedReplay` says which records a table
with a memory limit can replay without evicting and exactly which keys it loses otherwise,
`TableRecovery` recovers into such a table, and `RecoveryUnderLimit` shows a table that never evicted
losing a key when the files of its run are recovered under the same limit. `TableStore` is the table
with its log and its snapshot file; it carries out the steps of `Recovery`, so that what holds of every
run and every crash there holds of the table. `Lists` and `Sizes` are helpers.

**Routing.** `HashRing` is the consistent-hash ring. `ShardedEngine` is the engine with one queue and
one worker per shard, as a step machine whose every interleaving is proved to behave like one map, and
`ShardedClients` says what that means for the client that calls, waits and returns.

## Where the code and its documentation differ

- node/raft/README.md:74-78 lists election safety and state machine safety as enforced. As written
  they fail in clusters of four or more nodes, because an append request of the current term erases
  the receiver's vote (node/raft/node.go:166, 428-430). The model follows the code and proves the
  exact condition.
- The documentation speaks of a majority. The code counts more than half of the peers plus one
  (node/raft/node.go:154, 283), which is one vote more than a majority in clusters of odd size.
- A node without peers never leads: it asks nobody for votes and its own vote is not enough
  (node/raft/node.go:117-157). The model shows that this is the only size at which a safe cluster can
  get stuck.
- A dropped apply message is commented as retried later (node/raft/node.go:305); it is not sent
  again, since the applied index has already moved on. The model lets the channel drop any message.
- The checksum is called ECMA-182. The code shifts right with the unreflected constant, so the model
  claims only what that arithmetic gives.
- `enable_wal` lets a caller choose the batch size of the log. `truncate_wal` opens the log again
  without naming one (engine/src/hash_table.cpp:379), so the choice is lost and the size is 100 again
  (engine/include/hash_table.h:91). The model does the same.
- `WALWriter::size` is described as the size of the log file. A log that is opened again takes the size
  before the old writer is closed (engine/src/hash_table.cpp:303, engine/src/wal.cpp:21-25), so what
  that writer still flushes is never counted. The model keeps this apart from what is in the file.
- `get_eviction_candidate` answers the empty string when there is nothing to evict, although the
  empty string is also a key that can be stored. The model keeps this and gives the exact consequence.

## Model

| member | source | states |
|---|---|---|
| RaftErasedVote.ElectionSafetyExactly | node/raft/node.go:104-171 | Every run of a cluster has at most one leader per term if and only if votes are kept or there are at most three nodes |
| RaftErasedVote.StateMachineSafetyExactly | node/raft/node.go:269-308 | No run applies two commands at one index if and only if votes are kept or there are at most three nodes |
| RaftErasedVote.TwoLeaders | node/raft/node.go:427-430 | For every cluster of four or more nodes that erases votes, a run in which two nodes lead term 1 |
| RaftErasedVote.TwoCommands | node/raft/node.go:413-480 | The run goes on until both leaders have applied different commands at index 1 |
| RaftSafety.OneLeaderPerTerm | node/raft/node.go:104-171 | Election safety in every run of a safe cluster, comparing any two moments |
| RaftSafety.LeaderOnlyAppends | node/raft/node.go:311-334 | While a node leads a term its log only grows at the end |
| RaftSafety.LogsMatch | node/raft/node.go:436-469 | Logs of any two nodes at any two moments that agree on the term at an index agree up to it; terms never fall along a log; entries carry their position |
| RaftSafety.LaterLeadersHoldCommitted | node/raft/node.go:269-288 | What any node has committed is in the log of every leader of a later term, whichever happens first |
| RaftSafety.CommittedLogsAgree | node/raft/node.go:269-288 | Of what two nodes ever hold as committed, one extends the other |
| RaftSafety.OneCommandPerIndex | node/raft/node.go:291-308 | State machine safety in every run of a safe cluster |
| RaftHandlers.VoteExactly | node/raft/node.go:379-410 | For every node and request: a vote is granted if and only if the term is not earlier, the vote of that term is free or the candidate's, and the candidate's last term and index are at least the node's, compared in that order |
| RaftHandlers.BetterLogs | node/raft/node.go:483-491 | Every log passes its own check, of two logs one passes the other's, and passing carries over |
| RaftHandlers.AppendExactly | node/raft/node.go:413-480 | For every node and request: when a request is accepted, what term, vote, log and commit index become, and what a refusal leaves |
| RaftHandlers.MergeExactly | node/raft/node.go:456-469 | For every log and request the loop keeps the log if it holds all entries by term, and otherwise cuts it at the first that it does not hold and ends with the rest of the request |
| RaftHandlers.VoteReplyExactly | node/raft/node.go:132-157 | For every answer to a vote request: when it counts, when it makes the node step down, and when the node begins to lead |
| RaftHandlers.AppendReplyExactly | node/raft/node.go:241-288 | For every answer to an append request: what the leader then knows of the peer, and that it commits the largest index replicated often enough, or goes one entry back |
| RaftHandlers.ApplyExactly | node/raft/node.go:291-308 | Applying sends a message with its command for every index beyond the applied one for which there is room, and no others, in order |
| RaftApplied.AppliedExactly | node/raft/node.go:291-308 | In every run of every cluster, every index up to a node's applied index was passed at some step, and has its one message, with the command the log held then, if and only if the channel had room at that step |
| RaftApplied.AppliedKeepsUp | node/raft/node.go:269-308 | After every run of every cluster the applied index has reached the commit index |
| RaftProgress.CanAlwaysCommit | node/raft/node.go:104-480 | After every run of a safe cluster of two or more nodes and for every command there is a continuation after which all nodes have the same log ending with it, have committed and applied all of it, and have sent every command they had not applied before |
| RaftProgress.ProgressExactly | node/raft/node.go:104-480 | A safe cluster can always go on in this way if and only if it has more than one node |
| RaftProgress.Wins | node/raft/node.go:104-157 | After every run some node can be elected by everyone: one whose log is at least as good as all others |
| RaftProgress.Round | node/raft/node.go:208-265 | Whatever a peer's log is, going back one entry after each refusal ends with the peer holding the leader's whole log |
| RaftSafety.AppliedInOrder | node/raft/node.go:291-308 | Apply messages have strictly increasing indices within the applied index, which never passes the commit index or the log |
| RaftSafety.PeerIndicesInRange | node/raft/node.go:208-229 | A leader's next and match indices stay within its log, so a request never underflows and carries the whole suffix |
| RaftSafety.FollowerCommitBound | node/raft/node.go:472-475 | For every request in flight, committing up to the end of the merged log is committing up to the last new entry |
| RaftSafety.CommittedIsStable | node/raft/node.go:456-475 | Conflict truncation never cuts into what a node has committed; commit index, term and applied messages never go back |
| RaftSteps.RunInv | node/raft/node.go:104-480 | The invariant behind these results holds after every run of a safe cluster |
| RaftSteps.CommitsReachLaterLeaders | node/raft/node.go:398-406 | A committed prefix is in the starting log of every later leader, by induction over terms |
| RaftSteps.OneWinner | node/raft/node.go:150-157 | Whoever has enough votes of a term is that term's leader |
| RaftLogs.UpToDateHolds | node/raft/node.go:483-491 | A candidate that passes the vote check of a node holding an entry of some term holds it too, unless a leader in between had lost it |
| RaftLogs.QuorumsMeet | node/raft/node.go:154-156 | Two sets of nodes that each reach the threshold have a node in common |
| RaftLogs.SmallQuorumIsEveryone | node/raft/node.go:154-156 | With at most three nodes the threshold is every node |
| RaftLogs.MergeFollows | node/raft/node.go:456-469 | Fed with a stretch of the leader's log, the loop leaves the follower's log as it was or equal to the leader's up to the last entry sent, and keeps all they had in common |
| RaftNode.NewCommitIndex | node/raft/node.go:269-288 | The loop commits the largest index of the current term that enough nodes hold, or leaves the commit index |
| RaftServer.Server.StartElection | node/raft/node.go:104-115 | The object computes the function: new term, a vote for itself |
| RaftServer.Server.BecomeFollower | node/raft/node.go:163-171 | Stepping down as written erases the vote whatever the term |
| RaftServer.Server.BecomeLeader | node/raft/node.go:174-190 | The loop sets every peer's indices and no others |
| RaftServer.Server.HandleRequestVote | node/raft/node.go:379-410 | The handler computes the vote function, and grants a vote if and only if term, vote and last entry allow it |
| RaftServer.Server.HandleVoteReply | node/raft/node.go:132-157 | Counting answers computes the vote-reply function |
| RaftServer.Server.Propose | node/raft/node.go:311-334 | A leader appends one entry at its returned index; others refuse and change nothing |
| RaftServer.Server.RequestFor | node/raft/node.go:208-229 | The request built for a peer is the function's |
| RaftServer.Server.AppendAll | node/raft/node.go:456-469 | The truncate-and-append loop computes the merge |
| RaftServer.Server.HandleAppendEntries | node/raft/node.go:413-480 | The handler computes the append function on every state and request |
| RaftServer.Server.CountReplicas | node/raft/node.go:276-281 | The count is one plus the number of peers whose match index reaches the entry |
| RaftServer.Server.UpdateCommitIndex | node/raft/node.go:269-288 | Committing and applying index by index equals one commit of the largest index and one application |
| RaftServer.Server.ApplyCommitted | node/raft/node.go:291-308 | The loop sends exactly one message for every index up to the commit index for which there is room, with its command, in order |
| RaftServer.Server.HandleAppendReply | node/raft/node.go:241-265 | Handling an answer computes the append-reply function |
| Crc64.TableStepIsSerial | engine/src/snapshot.cpp:35-41 | For every register and byte the table step equals eight bit-serial steps |
| Crc64.Crc.InitTable | engine/src/snapshot.cpp:12-27 | The nested loops fill the table with the serial result of every byte |
| Crc64.Crc.Update | engine/src/snapshot.cpp:35-41 | Updating with a block leaves the bit-serial checksum of the register and the block |
| Crc64.SerialIsPacked | engine/src/snapshot.cpp:35-41 | Feeding up to eight bytes equals mixing them all into the register at once and then stepping it |
| Crc64.WindowCollides | engine/src/snapshot.cpp:12-41 | Streams that differ within eight consecutive bytes collide if and only if they are equal or differ by one pattern |
| Crc64.ShortCorruptionDetected | engine/src/snapshot.cpp:35-41 | Every difference within seven consecutive bytes changes the checksum |
| Crc64.EightBytesCanHide | engine/src/snapshot.cpp:12-41 | Flipping that eight-byte pattern goes unseen in every stream, so seven is the best bound |
| Codec.RoundTrip32 | engine/src/wal.cpp:74-76 | A 32-bit length field decodes to what was encoded |
| Codec.RoundTrip64 | engine/src/wal.cpp:90-91 | A 64-bit field decodes to what was encoded |
| Codec.LowestFirst | engine/src/wal.cpp:74-91 | Byte i of a field is digit i of the number in base 256 |
| Codec.EncodeDecode | engine/src/wal.cpp:139-192 | Encoding what was decoded from any bytes gives those bytes |
| Codec.ClipIsExact | engine/src/wal.cpp:74-79 | Cutting a string to its 32-bit length leaves it unchanged if and only if it is shorter than 2^32 bytes |
| Wal.ParseEncoded | engine/src/wal.cpp:139-192 | From any prefix of an encoded record and more bytes, the reader gets the record if it is whole and stops otherwise |
| Wal.TornLog | engine/src/wal.cpp:139-192 | From any byte prefix of any log the reader gets exactly the records wholly inside it, in order |
| Wal.WholeIsMost | engine/src/wal.cpp:69-95 | The count of whole records is the largest whose encoding fits the prefix |
| Wal.RecordLayout | engine/src/wal.cpp:69-95 | Where each field of an encoded record is |
| Wal.ParseInverts | engine/src/wal.cpp:139-192 | Whatever the bytes are, a record read off them is the one they encode |
| Wal.ReadsPrefix | engine/src/wal.cpp:139-192 | For every file the records read are those the file begins with, and what follows them is no whole record |
| Wal.LogRoundTrip | engine/src/wal.cpp:69-192 | A log reads back unchanged if and only if every key and value is shorter than 2^32 bytes |
| Crc64Reach.ReachableExactly | engine/src/snapshot.cpp:35-41 | From every register, eight bytes lead to exactly the values whose top bit is clear |
| Wal.Writer.Append | engine/src/wal.cpp:41-48 | Whatever the batch size, durable records followed by pending ones are everything appended, in order |
| Wal.Writer.Flush | engine/src/wal.cpp:50-67 | Flushing makes everything appended durable |
| Wal.Writer.Reopen | engine/src/hash_table.cpp:301-304 | Opening the log again makes everything appended durable, sets the batch size and counts only what was in the file before |
| Wal.Writer.Truncate | engine/src/hash_table.cpp:369-381 | Truncating drops every record and goes back to the default batch size |
| Wal.Writer.WriteRecord | engine/src/wal.cpp:69-95 | Writing the fields one by one appends the record's encoding and counts its bytes |
| Wal.Reader.ReadNext | engine/src/wal.cpp:139-192 | Reading fields off the stream parses the next record or fails for good at the end |
| Snapshot.LoadWritten | engine/src/snapshot.cpp:59-226 | Every written snapshot loads, its checksum verifies and its entries come back in order |
| Snapshot.AcceptedExactly | engine/src/snapshot.cpp:146-226 | For every file: it is accepted if and only if it begins with the snapshot of some entries, and those are the entries read |
| Snapshot.ReadsPrefix | engine/src/snapshot.cpp:146-222 | For all bytes and counts the entries read are those the bytes begin with, fewer than asked for only if what follows is no whole entry |
| Snapshot.EntryLayout | engine/src/snapshot.cpp:90-120 | Where each field of an encoded entry is |
| Snapshot.TruncatedIsRejected | engine/src/snapshot.cpp:146-179 | A snapshot cut anywhere after its header is rejected |
| Snapshot.DamageIsNoticed | engine/src/snapshot.cpp:224-226 | Damage within seven consecutive bytes after the checksum can be accepted only if the reader stops before the file's end |
| SnapshotCount.CountDamageExactly | engine/src/snapshot.cpp:164-179 | For all entries and counts, a snapshot with that count instead of its own is accepted if and only if the count is not too large and the checksum of the entries it leaves is that of all of them |
| SnapshotCount.CountDamageCanPass | engine/src/snapshot.cpp:164-179 | For all entries and every smaller count, a time of last access in the last entry with which the damaged snapshot is accepted and the later entries are gone; up to 255 entries one damaged byte does it |
| Snapshot.DamagedEntriesAreRejected | engine/src/snapshot.cpp:146-226 | Damage within seven consecutive bytes that leaves well-formed entries, as all damage outside counts and lengths does, is rejected |
| Snapshot.DamagedChecksumIsRejected | engine/src/snapshot.cpp:224-226 | Any other stored checksum is rejected |
| Snapshot.Writer.Write | engine/src/snapshot.cpp:59-88 | Writing field by field and going back to fill in the checksum gives the snapshot's bytes |
| Snapshot.Writer.WriteEntry | engine/src/snapshot.cpp:90-120 | Appends one entry's encoding to the file and to the checksum alike |
| Snapshot.Reader.ReadEntry | engine/src/snapshot.cpp:181-222 | Reads one entry, advancing position and checksum over exactly its bytes, or fails where a field is cut |
| Snapshot.Reader.LoadAll | engine/src/snapshot.cpp:146-179 | Reading a file inserts the entries and gives the verdict of the load function |
| Recovery.RecoveryGives | engine/src/hash_table.cpp:316-381 | After every run and for every surviving part of the log, recovery gives the contents the snapshot saw with the surviving writes made again, and these include all durable ones |
| Recovery.PromiseExactly | engine/src/hash_table.cpp:316-381 | For every run and crash, recovery gives the contents after a prefix of the writes with all durable ones if and only if some such prefix agrees with the snapshot on the keys the log does not write and with the writes reached on the others |
| Recovery.RecoveryExactly | engine/src/hash_table.cpp:316-381 | It gives exactly the writes reached if and only if every key the surviving log does not write is in the snapshot as those writes leave it |
| Recovery.EveryCrashExactly | engine/src/hash_table.cpp:316-381 | For every run, the same condition over all crashes that can follow it |
| Recovery.RecoveryIsPrefix | engine/src/hash_table.cpp:316-381 | The promise is kept if the snapshot saw all that was written before the last truncation and the log reaches all it saw |
| Recovery.DisciplineKeepsPromise | engine/src/hash_table.cpp:352-381 | Flushing before every snapshot and writing nothing between snapshot and truncation keeps the promise at every crash |
| Recovery.RunInv | engine/src/hash_table.cpp:352-381 | After every run log, pending records and snapshot together hold the writes |
| Recovery.TruncationForgets | engine/src/hash_table.cpp:369-381 | After a truncation only the snapshot is left, and the promise is kept if and only if what was written since changed nothing |
| Recovery.TruncationForgetsBatch | engine/src/hash_table.cpp:379 | Fewer than a hundred writes after a truncation are not durable until flushed, whatever batch size was chosen before |
| RecoveryFailures.UnflushedSnapshotIsNoPrefix | engine/src/hash_table.cpp:352-355 | A run with a snapshot taken before flushing, and a crash that leaves contents that never existed |
| RecoveryFailures.FlushedWriteIsLost | engine/src/hash_table.cpp:369-381 | A run with a flushed write between snapshot and truncation, which every crash loses |
| Recovery.WriteLayout | engine/src/wal.cpp:69-95 | The bytes a set and a deletion are logged as |
| Recovery.ReplayedExactly | engine/src/hash_table.cpp:316-347 | Key by key, what each kind of record does; an expiry record acts on keys that are there and whose time is zero or not yet come |
| Recovery.ExpiredExactly | engine/src/hash_table.cpp:254-264 | A key has expired if and only if its time is not zero and has come |
| Recovery.LoadRestores | engine/src/snapshot.cpp:146-179 | Loading a table's snapshot into an empty table restores its contents |
| Recovery.WritingAgain | engine/src/hash_table.cpp:316-331 | Replaying writes onto contents that already have them changes nothing |
| Lru.Policy.OnAccess | engine/src/lru_policy.cpp:8-21 | Moves a tracked key to the front, keeping list, index, sizes and the order of last use consistent |
| Lru.Policy.OnInsert | engine/src/lru_policy.cpp:23-30 | Puts the key in front and adds its size |
| Lru.Policy.OnDelete | engine/src/lru_policy.cpp:32-46 | Takes the key out and its size off; the counter never saturates |
| Lru.Policy.Candidate | engine/src/lru_policy.cpp:48-55 | The candidate is the key at the back |
| Lru.KeptIsLongest | engine/src/hash_table.cpp:207-229 | Eviction drops the shortest tail that makes the rest fit, or stops at the empty key |
| Lru.EvictionFits | engine/src/hash_table.cpp:217-219 | Eviction reaches the limit if and only if the empty key, when tracked, fits with all that was used more recently |
| Lfu.Policy.OnAccess | engine/src/lfu_policy.cpp:8-20 | Pushing the new count keeps every tracked key covered by an up-to-date heap entry |
| Lfu.Policy.OnInsert | engine/src/lfu_policy.cpp:22-31 | Tracks the key and covers it |
| Lfu.Policy.OnDelete | engine/src/lfu_policy.cpp:33-48 | Untracks the key and leaves its heap entries; the counter never saturates |
| Lfu.Policy.Candidate | engine/src/lfu_policy.cpp:50-66 | Whatever outdated entries are in the heap, the candidate is one a scan over all tracked keys would give |
| Buckets.Add | engine/src/hash_table.cpp:88-90 | Appending a pair for a new key to its chain gives buckets for the map with that key |
| Buckets.Set | engine/src/hash_table.cpp:69-75 | Overwriting a pair gives buckets for the updated map |
| Buckets.Erase | engine/src/hash_table.cpp:146-150 | Erasing a pair gives buckets for the map without the key |
| HashTable.Capacity | engine/src/hash_table.cpp:13-18 | The number of buckets is the least power of two that is not below the request |
| HashTable.Table.constructor | engine/src/hash_table.cpp:10-31 | A new table is empty, consistent and has the chosen policy, limit and log |
| HashTable.Table.Find | engine/src/hash_table.cpp:102-108 | The chain of a key's bucket has the key if and only if it is stored, with its value and cached hash |
| HashTable.Table.Insert | engine/src/hash_table.cpp:53-100 | The map without the victims gets the key; each eviction was needed; victims are the recency tail or have least counts; afterwards memory exceeds the limit by at most the new value unless the empty key was stored; set and deletions are logged in that order |
| HashTable.Table.Get | engine/src/hash_table.cpp:102-133 | Finds a stored key if and only if its expiry is zero or not yet reached, counts the access modulo 2^64 and makes it the most recent; contents and log stay |
| HashTable.Table.Remove | engine/src/hash_table.cpp:135-164 | Removes the key if stored, and logs a deletion either way |
| HashTable.Table.Erase | engine/src/hash_table.cpp:135-164 | The same with the effect on the policy spelled out |
| HashTable.Table.Put | engine/src/hash_table.cpp:65-99 | Update and insertion both give the map with the key, with the policy in step |
| HashTable.Table.Rehash | engine/src/hash_table.cpp:173-185 | Moving every pair by its cached hash gives buckets for the same map |
| HashTable.Table.ResizeIfNeeded | engine/src/hash_table.cpp:166-171 | Doubles the buckets exactly when the load passes three quarters, and once is enough |
| HashTable.Table.EvictIfNeeded | engine/src/hash_table.cpp:207-229 | The loop ends, within the limit unless the empty key is stored; its victims are the recency tail cut by the limit, or least counts at each turn, and each was needed |
| HashTable.Table.TrackedKeys | engine/src/hash_table.cpp:76-97 | In every consistent state the tracked keys are the stored keys and tracked memory is the sum of the value sizes |
| HashTable.Table.TailIsOldest | engine/src/lru_policy.cpp:48-55 | Under the recency policy what eviction takes off the list are the keys last used longest ago, in that order |
| HashTable.EvictedExactly | engine/src/hash_table.cpp:60-61 | Under the recency policy an insert evicts a key, also its own, if and only if the key stands behind the part of the list that is kept |
| HashTable.Table.Collect | engine/src/hash_table.cpp:277-291 | Collects exactly the keys of the sampled buckets whose expiry is not zero and has been reached |
| HashTable.Table.ScanExpired | engine/src/hash_table.cpp:266-297 | Removes exactly the keys of the sampled buckets whose expiry is not zero and has been reached, and logs their deletions |
| HashTable.Table.LoadEntries | engine/src/snapshot.cpp:166-176 | Contents and policy become what inserting the entries with the evictions made on the way gives; each eviction was needed at an insert that found the table above its limit, and took the key last used longest ago or least often |
| HashTable.Table.ReplayLog | engine/src/hash_table.cpp:316-347 | The same for the records the reader finds in a log file, of all three kinds |
| BoundedReplay.EvictsExactly | engine/src/hash_table.cpp:207-229 | Records can be replayed without evicting if and only if, before each insert, what the records leave without a limit is within the limit; the contents are then the same as without one |
| BoundedReplay.ReplayAt | engine/src/hash_table.cpp:207-229 | For every replay with evictions and every key: the key is lost if it was evicted at another key's record and no later record sets or deletes it, and every other key is as without a limit |
| BoundedReplay.LosesExactly | engine/src/hash_table.cpp:207-229 | The contents are those without a limit if and only if no key is lost in that way |
| BoundedReplay.RoomForAll | engine/src/hash_table.cpp:207-229 | That is so if all values fit beside what is there |
| TableRecovery.Recover | engine/src/hash_table.cpp:316-367 | Loading a snapshot and replaying a log into an empty table gives, key by key, what recovery without a limit gives except for the lost keys; it loses none if the records fit, which can be told beforehand, and evicts otherwise |
| TableRecovery.RecoverRun | engine/src/hash_table.cpp:316-367 | After every crash of every run, a table the records fit holds the contents after a prefix of the writes with all durable ones if and only if recovery without a limit would |
| RecoveryUnderLimit.LimitBreaksPromise | engine/src/hash_table.cpp:207-229 | A family of runs, with a snapshot that lists an early key first, whose writes fit a limit as they are made and that recover well without one; whatever a crash leaves, recovery under this limit and the recency policy loses that key, and the contents are no prefix of the writes with all durable ones |
| RecoveryUnderLimit.Recovered | engine/src/hash_table.cpp:207-229 | Recovering a table with this limit and policy from the snapshot and the surviving log of such a run does lose it |
| RecoveryUnderLimit.Live | engine/src/hash_table.cpp:207-229 | A table with the same limit and policy that takes the writes of such a run as they are made logs exactly them, evicts nothing and has the key |
| HashTable.Table.FlushWal | engine/src/hash_table.cpp:306-310 | The log is written out and the table stays consistent with everything it ever logged |
| HashTable.Table.EnableWal | engine/src/hash_table.cpp:301-304 | The same, with another batch size |
| HashTable.Table.TruncateWal | engine/src/hash_table.cpp:369-381 | The log is empty with the default batch size and the table stays consistent |
| TableStore.Store.Insert | engine/src/hash_table.cpp:53-100 | With whatever it evicts, an insert does to log and snapshot what the writes of the abstract store do |
| TableStore.Store.Remove | engine/src/hash_table.cpp:135-164 | So does a removal, of a stored key or not |
| TableStore.Store.FlushLog | engine/src/hash_table.cpp:306-310 | Flushing is the flush step |
| TableStore.Store.EnableLog | engine/src/hash_table.cpp:301-304 | Opening the log again is that step |
| TableStore.Store.TruncateLog | engine/src/hash_table.cpp:369-381 | Truncating is the truncation step |
| TableStore.Store.TakeSnapshot | engine/src/hash_table.cpp:352-355 | Writing the entries of the table to a file is the snapshot step, unless an insert had evicted its own key |
| TableStore.SameContents | engine/src/hash_table.cpp:53-61 | Table and abstract store agree on the contents if and only if no key was lost to an insert that evicted itself |
| TableStore.Store.EveryCrashExactly | engine/src/hash_table.cpp:301-381 | For the files of a table after any such operations, whatever it evicted: exactly when every crash recovers to a prefix of the logged writes with all durable ones |
| TableStore.Store.Restart | engine/src/hash_table.cpp:316-367 | A table recovered from what a crash leaves holds what the snapshot saw with the writes reached made again; after a flush, with nothing written between last snapshot and truncation and no self-eviction, it holds what the crashed table held |
| HashTable.Table.Entries | engine/include/hash_table.h:109-116 | Walking the chains lists every stored entry once, as a snapshot needs |
| HashTable.OversizedIsEvicted | engine/src/hash_table.cpp:60-61 | A stored value above the limit is a victim of the next insert, also of its own key |
| HashTable.WriteTwice | engine/src/hash_table.cpp:53-61 | Writing an oversized value twice leaves a table that has the key and a log that does not |
| TableLog.ReplayAt | engine/src/hash_table.cpp:53-61 | For every trace and key, replaying the log gives what the table has, except for keys whose last operation was an insert that evicted them, which the table has and the log loses |
| TableLog.ReplayRebuildsExactly | engine/src/hash_table.cpp:316-331 | The log rebuilds the table if and only if no key is lost in that way |
| TableLog.NoSelfEviction | engine/src/hash_table.cpp:316-331 | If no insert evicts its own key the log rebuilds the table, whatever else was evicted |
| TableLog.SelfEvictionLoses | engine/src/hash_table.cpp:135-140 | An insert that evicts its own key loses it from the log, whatever came before |
| HashRing.TargetIsNearest | node/sharding/hash_ring.go:61-71 | A hash is routed to a point at least clockwise distance |
| HashRing.RoutingByPoints | node/sharding/hash_ring.go:51-72 | Without clashes the routing depends on the set of points alone |
| HashRing.RoutingByShards | node/sharding/hash_ring.go:136-145 | Rings with the same shards route alike, in whatever order the shards came and went |
| HashRing.RemovalMovesOnlyItsOwn | node/sharding/hash_ring.go:108-115 | Removing a shard never moves a key of another shard, even where points clash |
| HashRing.AdditionExactly | node/sharding/hash_ring.go:86-92 | Adding a shard moves keys only to it, however the points are sorted again, if and only if no two shards share a point's hash |
| HashRing.UndoExactly | node/sharding/hash_ring.go:75-116 | Adding a shard and removing it restores all routing under the same condition and no other |
| HashRing.ClashCanMove | node/sharding/hash_ring.go:89-92 | For every clash a sorted arrangement that moves a key between two old shards |
| HashRing.Ring.constructor | node/sharding/hash_ring.go:28-48 | The ring is sorted and, for distinct shards, a point is in it if and only if it is the place of a virtual node of a listed shard, once for each such node, so that there are as many as shards times virtual nodes |
| HashRing.Ring.GetShard | node/sharding/hash_ring.go:51-72 | Binary search with wrap-around finds the owner of the nearest point clockwise, which in a full ring is the listed shard with the nearest virtual node, or shard 0 in an empty ring |
| HashRing.Ring.AddShard | node/sharding/hash_ring.go:75-93 | A listed shard changes nothing; a new one adds exactly the places of its virtual nodes and, without clashes, takes keys only for itself |
| HashRing.Ring.RemoveShard | node/sharding/hash_ring.go:96-116 | Removes the first listing and all points of the shard and moves no other shard's keys |
| ShardedEngine.ActsInItsPart | engine/src/sharded_engine.cpp:116-143 | A request acts on its shard's part of a map as on the whole, and leaves the other parts |
| ShardedEngine.RunInv | engine/src/sharded_engine.cpp:88-207 | The invariant of queues, workers, shards and answers holds after every interleaving |
| ShardedEngine.Linearizable | engine/src/sharded_engine.cpp:145-199 | Every answered request took effect exactly once, between call and return, and got the answer one map gives at that moment |
| ShardedClients.OwnAnswer | engine/src/sharded_engine.cpp:145-199 | What a client is handed when it returns is the answer to the request it called with: the log has one act with the number of that call and that request, made between call and return; afterwards the client can call again |
| ShardedClients.CanReturn | engine/src/sharded_engine.cpp:88-114 | After every run and for every waiting client the workers can go on so that it gets its answer |
| ShardedEngine.RealTimeOrder | engine/src/sharded_engine.cpp:145-199 | A request that had returned at some step of the run took effect before every request called later |
| ShardedEngine.FirstCalledFirstServed | engine/src/sharded_engine.cpp:93-112 | Of two requests to one shard, the one called first is carried out first, in every interleaving |
| ShardedEngine.NothingLost | engine/src/sharded_engine.cpp:88-114 | Every called request is in its shard's queue, with its worker, or carried out |
| ShardedEngine.ShardsPartition | engine/src/sharded_engine.cpp:69-86 | A shard holds exactly the keys of the one map whose hash modulo the number of shards is its own, with their values |
| ShardedEngine.GetSeesLatestWrite | engine/src/sharded_engine.cpp:120-128 | A get answers with the latest carried out set of its key if and only if its expiry is zero or not yet reached, and with nothing if the latest write removed or evicted it |
| ShardedEngine.TotalEntries | engine/src/sharded_engine.cpp:201-207 | The sum of the shard sizes is the size of the one map |
| ShardedEngine.Work | engine/src/sharded_engine.cpp:88-143 | A worker that carries out its request on a table with its shard's contents makes a step of the machine, which evicts the same keys and gives the same answer |
| ShardedEngine.ProcessRequest | engine/src/sharded_engine.cpp:116-143 | Carrying out a request on a table has the effect and the answer the machine gives it |

## Left out

- Transport, timers, goroutines and mutexes: steps may happen at any time, and each handler is one step, as it is under the node's lock.
- Fairness: that a leader can always be elected, a command committed and a request answered is proved, not that it happens.
- Raft storage: node/raft/storage.go is never called by the node, and nodes do not restart.
- Peer lists that contain the node itself: the model takes peers to be the other nodes, distinct and with non-empty names.
- The vote request is taken as built at the start of the election; the code builds it a little later and without the lock.
- Entries of a request are values; in the code they share memory with the leader's log.
- RaftServer.Server.HandleVoteReply: requires that each granted answer is handled once, because the code's counter has no memory of who answered and each answer belongs to one call.
- RaftServer.Server.RequestFor: requires a next index of at least 1, because with 0 the code slices the log at a wrapped-around index and panics (node/raft/node.go:218-219); RaftSafety.PeerIndicesInRange shows that it always is.
- ConflictIndex and ConflictTerm: sent by followers and never read.
- Machine width of terms, log indices, counters and sizes: unbounded here, except the fields written to disk and the access count, which wrap as in the code.
- Conformance of the checksum to a standard, and the quality of the hash functions: hashes are arbitrary functions.
- Snapshot.Reader.LoadAll: rejects a file shorter than its 24-byte header, because the code then compares fields it never read.
- Crashes while a snapshot is being written, failing file operations, and appending to a log with a torn tail.
- A snapshot is taken as durable when it is written; the code flushes it to the operating system and does not sync it (engine/src/snapshot.cpp:86).
- HashTable.Table.ReplayLog: takes the bytes of the file as they are when it starts, because a table that replays the file it logs to would append to what it reads.
- TableStore.Store.TakeSnapshot: refines the abstract step only if no insert evicted its own key before, because such a key is in the snapshot though the log has deleted it; TableLog says what the log gives then.
- TableStore.Store.EnableLog: opens the same log again; a second path is not modelled.
- Expiry records: replayed by ReplayLog and Recovery, but nothing writes them.
- The clock is an input; one reading serves all records of a replay.
- The expiry scanner is one operation on given samples; the code draws twenty random buckets on a thread of its own.
- Lru.Find: stands for the list iterator kept in the index; list nodes and their addresses are not modelled.
- Statistics of the table, the load factor as a floating-point number (the comparison with three quarters is exact for a power of two), and an initial capacity beyond 2^63.
- ShardedEngine.RunInv: does not model `stop`, because requests that are pending then are abandoned.
- The RESP parser, servers, command-line programs, the router and the bookkeeping of several Raft groups: input, output and thin wrappers.
