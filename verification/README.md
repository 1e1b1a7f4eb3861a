# Super-Cache: a verified model

Super-Cache is a multi-master replicated in-memory store. This project models the parts of it
that carry hard guarantees and proves those guarantees with Dafny 4.11. `dafny verify
dfyconfig.toml` checks the whole project.

- **The replication protocol.** Gap detection with delayed confirmation of loss (`Gaps`), the
  choice of one delivery link per node (`Links`) behind a cache that is read without a lock
  (`TargetCache`), ordered delivery through workers (`Inbound`), the resync scheduler (`Resync`),
  bootstrap from a copy that is taken shard by shard plus an overlapping log (`Snapshot`,
  `Bootstrap`, `ListOverlap`, `Failover`), and the peer list (`Membership`).
- **The sharded store.** Recency lists with their index maps and entry pointers (`Lru`, `Shards`),
  the byte counter (`Memory`), eviction and the operations (`Store`, `Operations`), lock order
  (`Locks`), conditional writes among other clients (`ConditionalWrites`), optimistic transactions
  (`Watch`).
- **Command effect versus replicated effect.** List commands, DEL and RENAME, set and hash commands,
  the payloads they send, and what a replica does with them (`Lists`, `Keyspace`, `Replication`,
  `SetReplication`).
- **The RESP2 wire format.** Parser and writer of the Redis serialization protocol (`Bytes`,
  `Resp`, `RespIO`), sections "Simple strings", "Simple errors", "Integers", "Bulk strings" and
  "Arrays".

Code that changes things in place is modelled by classes and loops, each proved against a
specification function. Code whose difficulty is interleaving is modelled as a state machine, and
its theorems hold after every run of enabled steps. Keys, values and arguments are byte sequences.
Integers are unbounded except where the width matters, and there it is written out: the 64-bit
sequence numbers, counters, watch versions and list counts, the 32-bit eviction cursor, and the
64-bit reading of `max_memory`. Time, random choices, the routing of keys to shards and of origins to
workers, address canonicalization and the contents of the network are parameters, so the theorems
hold for every choice of them.

## Where the code does less than it says

Each of these is a lemma or contract below. Beside it stands the condition under which the code does
meet the promise, both ways wherever the outcome is determined by the state before the call.

- A sequence number 1 is always read as a restart of the peer, so a late first frame makes frames
  that did arrive count as lost (`Gaps.RestartMisread`; the exact criterion is
  `Gaps.ArrivalExactIff`).
- A worker that chose the bootstrap buffer just before buffering ends leaves its frame there
  (`Inbound.StrandedFrame`; exactly after the lossless steps no frame is ever lost or overtaken,
  `Inbound.StepOrderedIff`).
- Stopping a link does not invalidate the cached targets until its removal is published: a selected
  link is still handed out at the generation in use if it was stopped after that generation was
  published (`TargetCache.StoppedLaterServed`, `TargetCache.StoppedLinkStillServed`), and not if it
  was stopped before (`TargetCache.StoppedBeforeNeverServed`).
- The comment on `RequestResync` says that requests are put off while the node is still doing its
  first sync. The code looks only at the flag a resync sets, so a resync can run beside the first sync
  (`Resync.FirstSyncIgnored`); a request is turned away at once exactly when another call holds that
  flag (`Resync.RefusedAtOnceIff`).
- An operator's `AddPeer` does not protect an address that is already listed as learned: the call
  is refused before the record is upgraded (`Membership.ManualAddIgnored`; the address is protected
  afterwards exactly if it could be added or was protected before, `Membership.PeerBook.AddPeer`).
- LPOP, RPOP and LREM shorten the list before its old size is taken, so the counter keeps 32 bytes
  per element removed (`Operations.Pop`, `Operations.LRem`, `Operations.Run`).
- INCR on a key whose expired entry is still stored takes that entry off the counter twice
  (`Operations.StaleIncrement`), unless the counter has nothing else on it or making room intervenes
  (exactly so: `Operations.IncrBy`, and over whole runs `Operations.Run`).
- The empty key is also the mark for "no key to avoid", so making room for it can evict it and the
  write then exceeds the budget (`Operations.EmptyKeyOverrun`). That takes a stored empty key that the
  policy may evict and a new value that does not fit without evicting, and it exceeds the limit by no
  more than the old value's size; under allkeys-lru it is certain if the empty key is next in line and
  its going makes room enough (`Store.Store.Commit`, `Operations.SetString`). Where nothing else is
  stored the condition is exact (`Operations.EmptyKeyAlone`).
- RENAME does not bump the version of its source, and FLUSHDB and pruning reset versions
  (`Watch.RenameFools`, `Watch.FlushFools`, `Watch.PruneFools`; exactly which steps lose count is
  `Watch.CountsIff`).
- EXEC compares the watched versions one by one and runs the queue afterwards, so a key that was
  already compared can change before the queue starts (`Watch.ComparedThenChanged`; what does hold is
  `Watch.TransactionSound`).
- SREM or HDEL on a key that holds an empty set or hash deletes the key and sends nothing, so a
  replica keeps it (`SetReplication.EmptySetLost`; exactly these commands are not reproduced,
  `SetReplication.RunMirroredIff`). Such sets are left by the *STORE
  commands.
- List pushes that fall into the overlap of snapshot and log are applied twice: a bootstrap with
  pushes and deletions converges exactly if every key pushed to before its shard was copied was also
  deleted (`ListOverlap.PushesConvergeIff`).

## Model

| member | source | states |
|---|---|---|
| Bootstrap.Converges | internal/server/server.go:223-233 | for every interleaving of source writes (SET, DEL, FLUSHDB, HSET, HDEL, SADD, SREM and the set replacement of the *STORE commands, empty sets included), shard copies at any moments and replayed writes, from any data: once all 256 shards are copied and the buffer ran empty without a refusal, the joiner holds exactly the source's data |
| Bootstrap.ReplayReachesSource | internal/peer/service.go:1322-1372 | when the last shard is in, replaying the whole buffer gives the source's data or is refused, however much of it the copy already contains |
| Bootstrap.TypedConverges | internal/store/store_collections.go:690-816 | if every key keeps one type throughout, the replay is never refused and reaches the source |
| Bootstrap.TypedNeverFails | internal/peer/service.go:1340-1372 | in every run in which keys keep their type no replayed write is refused |
| Bootstrap.RunInv | internal/server/server.go:223-233 | after every run, what is pending has happened at the source, and of the copied shards the joiner has everything once the pending writes are laid on top |
| Bootstrap.CopyInv | internal/store/store_collections.go:690-715 | copying one more shard, at whatever moment, keeps that invariant |
| Bootstrap.WriteInv | internal/peer/service.go:1322-1338 | a write at the source that is buffered keeps it |
| Bootstrap.DrainInv | internal/peer/service.go:1340-1372 | replaying the oldest buffered write keeps it |
| Bootstrap.AppliedCells | internal/peer/apply.go:37-75 | an accepted overwriting payload puts fixed contents into certain cells (string, field, member, and whether a hash or set is empty) whatever was there, and leaves all others alone |
| ListOverlap.PushesConvergeIff | internal/peer/apply.go:77-89 | over every run of list pushes, DEL, FLUSHDB, shard copies and replays, from any data: nothing is refused, and once all shards are copied and the buffer is empty the joiner equals the source if and only if each key pushed to before its shard was copied was also deleted in the run |
| ListOverlap.ListRunInv | internal/peer/service.go:1340-1372 | after every such run, each key of a copied shard is on the way to the source's value, or to a longer list if pushes to it count twice |
| ListOverlap.CopyKey | internal/store/store_collections.go:690-715 | copying a shard after pushes makes their replay count twice, unless a deletion is in the log |
| ListOverlap.ReplaySmooth | internal/peer/apply.go:77-89 | writes that were accepted once are accepted again on their own result |
| Bootstrap.TypeChangeRefused | internal/peer/apply.go:49-54 | replaying a hash write onto a copy in which a string took the key over is refused |
| Bootstrap.Joiner.DrainRound | internal/peer/service.go:1347-1366 | one round, with frames arriving at every look at the buffer, applies what it pops in order until the buffer is empty, and fails exactly when a popped payload is refused |
| Bootstrap.Joiner.DrainInboundQueue | internal/peer/service.go:1340-1372 | over at most 500 rounds, with arrivals at every look at the buffer and cancellation between rounds: a clean finish has emptied the buffer and applied in order everything that was buffered or had arrived when the buffer was last looked at |
| Snapshot.SnapshotRoundTrip | internal/store/store_collections.go:690-816 | entries that describe a shard's data in any order, loaded over a store, lay exactly that data over it |
| Snapshot.BuildEntry | internal/store/store_collections.go:717-748 | the entry built for a key stands for exactly its value, whatever its type and the order set members come in |
| Snapshot.CopyShard | internal/store/store_collections.go:694-706 | the batch of one shard describes exactly the keys routed to it and their values |
| Snapshot.LoadEntry | internal/store/store_collections.go:767-816 | loading an entry overwrites its key with the value it stands for and refuses unknown types |
| Snapshot.LoadBatch | internal/peer/bootstrap.go:88-101 | a batch loads as its entries in order and fails exactly when one is refused |
| Failover.PullOnce | internal/peer/bootstrap.go:51-145 | for every batch depth, an attempt succeeds exactly when the source's stream reaches its end marker and every entry loads, and then the store equals that stream loaded into an empty store |
| Failover.PullFailover | internal/peer/bootstrap.go:30-49 | success leaves the whole of the first good source and nothing from failed ones, failure of all tried sources leaves the store empty, and only with no usable source it is untouched |
| Gaps.GapAccounting | internal/peer/service.go:691-735 | after every run of arrivals, sweeps and resets without a misread restart, the pending set is exactly the sequences strictly between first and highest seen that neither arrived nor were reported lost |
| Gaps.ArrivalExactIff | internal/peer/service.go:705-734 | from an exact state an arrival leaves an exact state if and only if it is benign: not a sequence 1 behind a later one, and nothing after the highest 64-bit number |
| Gaps.ReportedOnce | internal/peer/resync.go:89-106 | what a sweep declares lost had not arrived and had not been declared lost before |
| Gaps.DeadlineOrigin | internal/peer/resync.go:54-73 | every pending sequence was skipped by some arrival and its deadline is that arrival's time plus the grace period |
| Gaps.GraceRespected | internal/peer/resync.go:145-172 | a sweep reports a pending sequence if and only if the grace period since it was skipped is over |
| Gaps.LostCounter | internal/peer/resync.go:175-184 | over every trace that is benign throughout, the lost counter is the number of distinct sequences ever declared lost, as a signed 64-bit number |
| Gaps.RestartMisread | internal/peer/service.go:720-723 | a straggling sequence 1 makes two sequences that arrived be declared lost |
| Gaps.GapTracker.Note | internal/peer/resync.go:54-73 | noting a jump adds exactly the skipped sequences with their deadline, or refuses when there are more than 256 |
| Gaps.GapTracker.Arrived | internal/peer/resync.go:76-86 | a late arrival strikes just that sequence and forgets an origin with none left |
| Gaps.GapTracker.Expired | internal/peer/resync.go:89-106 | a sweep removes exactly the overdue sequences and counts them per origin |
| Gaps.SplitExpired | internal/peer/resync.go:92-104 | the inner loop separates overdue from pending sequences and counts the former |
| Gaps.TotalLost | internal/peer/resync.go:155-170 | the per-origin counts add up to the number of overdue pairs |
| Gaps.ReplicationMonitor.NoteReplArrival | internal/peer/service.go:691-735 | handling an arrival is one step of the specification |
| Gaps.ReplicationMonitor.WatchGaps | internal/peer/resync.go:145-172 | one tick of the sweeper is one step of it |
| Replication.RunSimulated | internal/commands/lists.go:37-371 | for any history of list writes, DEL, RENAME and RENAMENX, applying what was sent to equal data is never refused and gives equal data after every command |
| Replication.CommandSimulated | internal/peer/apply.go:37-161 | the payloads of one command, whether it succeeded, failed or sent nothing, turn equal data into equal data |
| Replication.SilenceMeansUnchanged | internal/commands/lists.go:133-170 | a command that sends nothing changed nothing |
| Replication.PushSimulated | internal/commands/lists.go:37-131 | LPUSH, RPUSH, LPUSHX and RPUSHX are reproduced by the push they send, or send nothing and change nothing |
| Replication.PopSimulated | internal/commands/lists.go:133-209 | LPOP and RPOP are reproduced by popping as many elements as came out |
| Replication.SetSimulated | internal/commands/lists.go:246-270 | LSET is reproduced, and sends nothing when it fails |
| Replication.RemSimulated | internal/commands/lists.go:272-292 | LREM is reproduced, and when it removes nothing the list is unchanged |
| Replication.TrimSimulated | internal/commands/helpers.go:326-338 | LTRIM is reproduced although its bounds travel as decimal text |
| Replication.InsertSimulated | internal/commands/lists.go:344-371 | LINSERT is reproduced, also where it is sent for a missing key |
| Replication.RenameSimulated | internal/commands/generic.go:248-283 | RENAME and RENAMENX are reproduced, also onto the same key |
| Replication.DelSimulated | internal/commands/strings.go:502-522 | DEL is reproduced by its announcements in whatever order the map yields them |
| Replication.Node.Push | internal/commands/lists.go:37-131 | the push handlers' data, payloads and reply, arity and type errors included |
| Replication.Node.Pop | internal/commands/lists.go:133-209 | the pop handlers' data, payloads and reply, with the count argument's errors |
| Replication.Node.LSet | internal/commands/lists.go:246-270 | the LSET handler against its specification |
| Replication.Node.LRem | internal/commands/lists.go:272-292 | the LREM handler against its specification |
| Replication.Node.LTrim | internal/commands/lists.go:323-342 | the LTRIM handler against its specification |
| Replication.Node.LInsert | internal/commands/lists.go:344-371 | the LINSERT handler against its specification |
| Replication.Node.Del | internal/commands/strings.go:502-522 | DEL removes the named keys and announces exactly those that existed, each once |
| Replication.Node.Rename | internal/commands/generic.go:248-263 | the RENAME handler against its specification |
| Replication.Node.RenameNX | internal/commands/generic.go:265-283 | the RENAMENX handler against its specification |
| Replication.Node.Execute | internal/commands/helpers.go:52-357 | every command has one of its specified effects and its payloads are appended to what was sent |
| Replication.ApplyPayload | internal/peer/apply.go:37-161 | applying a payload has its specified effect and fails exactly where specified |
| Replication.ApplyListPayload | internal/peer/apply.go:77-157 | the same for the list payloads, with their length guards |
| Replication.Follow | internal/peer/apply.go:37-161 | a leader running any commands and a follower applying what it sends hold equal data after each, and nothing is refused |
| SetReplication.RunMirroredIff | internal/commands/sets.go:42-87 | over every run of list, key, set and hash commands a replica applying what each sends is equal after every one if and only if no SREM or HDEL met an empty set or hash |
| SetReplication.OrderMirroredIff | internal/commands/hashes.go:192-212 | one set or hash command is reproduced by what it sends if and only if it is not such a removal |
| SetReplication.SAddMirrored | internal/commands/sets.go:42-65 | SADD is reproduced, and when it sends nothing the set is unchanged |
| SetReplication.SRemMirroredIff | internal/commands/sets.go:67-87 | SREM is reproduced if and only if the key does not hold an empty set |
| SetReplication.HSetMirrored | internal/commands/hashes.go:39-60 | HSET is reproduced |
| SetReplication.HDelMirroredIff | internal/commands/hashes.go:192-212 | HDEL is reproduced if and only if the key does not hold an empty hash |
| SetReplication.EmptySetLost | internal/store/store_collections.go:568-570 | an empty *STORE result followed by an SREM leaves the key on the replica only |
| SetReplication.CmdSAdd | internal/commands/sets.go:42-65 | the SADD handler against its specification |
| SetReplication.CmdSRem | internal/commands/sets.go:67-87 | the SREM handler against its specification |
| SetReplication.CmdHSet | internal/commands/hashes.go:39-60 | the HSET handler against its specification |
| SetReplication.CmdHDel | internal/commands/hashes.go:192-212 | the HDEL handler against its specification |
| SetReplication.CmdStore | internal/commands/sets.go:290-297 | the end of the *STORE handlers: the members replace the destination and are sent whole |
| Keyspace.Database.LPush | internal/store/store_collections.go:268-316 | pushing creates or extends the list, refuses other types, and returns the new length |
| Keyspace.Database.LPushX | internal/store/store_list_extra.go:290-329 | the same only where the key exists |
| Keyspace.Database.Pop | internal/store/store_collections.go:333-410 | popping returns what came out and removes a list that ran empty |
| Keyspace.Database.LSet | internal/store/store_list_extra.go:64-96 | LSET replaces one element or fails for a missing key, a wrong type or an index out of range |
| Keyspace.Database.LRem | internal/store/store_list_extra.go:105-163 | LREM removes and counts occurrences |
| Keyspace.Database.LTrim | internal/store/store_list_extra.go:166-215 | LTRIM keeps the slice and removes a list that ran empty |
| Keyspace.Database.LInsert | internal/store/store_list_extra.go:218-272 | LINSERT returns the new length, 0 for a missing key and -1 for a missing pivot |
| Keyspace.Database.Del | internal/store/store.go:764-783 | exactly the named keys go, and the count is how many were there |
| Keyspace.Database.RenameKey | internal/store/store.go:833-868 | the value moves to the new key over whatever was there |
| Keyspace.Database.RenameKeyNX | internal/store/store.go:901-935 | the same unless the new key exists |
| Keyspace.Database.HSet | internal/store/store_collections.go:19-71 | fields are merged over the old ones and the count is how many are new |
| Keyspace.Database.HDel | internal/store/store_collections.go:122-157 | fields go, an emptied hash goes, and the count is how many were there |
| Keyspace.Database.SAdd | internal/store/store_collections.go:485-537 | members are added and the count is how many are new |
| Keyspace.Database.SRem | internal/store/store_collections.go:540-576 | members go, an emptied set goes, and the count is how many were there |
| Keyspace.Database.ReplaceSet | internal/store/store_collections.go:642-674 | the key holds exactly the given members, even none |
| Lists.PushItems | internal/store/store_collections.go:278-297 | values pushed left end up in reverse order before the list, values pushed right after it |
| Lists.PopItems | internal/store/store_collections.go:354-371 | a pop takes at least one and at most all elements from its end, and nothing else |
| Lists.PopUndoesPush | internal/store/store_collections.go:333-410 | a pop of as many elements undoes a push at the same end and returns the values last one first |
| Lists.PopConserves | internal/store/store_collections.go:333-410 | what came out and what stayed make up the list |
| Lists.RemoveItems | internal/store/store_list_extra.go:124-156 | LREM's three walks compute the specified removal; the smallest 64-bit count removes nothing |
| Lists.RemoveFirstMeaning | internal/store/store_list_extra.go:136-144 | removal from the head strips the value from a prefix with as many occurrences as asked for, or all, and leaves the rest alone |
| Lists.RemoveLastMeaning | internal/store/store_list_extra.go:145-155 | removal from the tail strips it from such a suffix |
| Lists.NormalizeIndex | internal/store/store_collections.go:471-482 | indexes inside the list stay, negative ones count from the end, others are clamped into it |
| Lists.SliceItems | internal/store/store_list_extra.go:184-206 | the walk keeps exactly the elements between the normalized bounds |
| Lists.SliceMeaning | internal/store/store_list_extra.go:166-215 | bounds inside the list keep just that range, and 0 to -1 keeps all |
| Lists.InsertItems | internal/store/store_list_extra.go:236-263 | the two walks find the first pivot and put the element beside it |
| Lists.InsertMeaning | internal/store/store_list_extra.go:218-272 | the element stands right before or after the first pivot and removing it gives the old list |
| Operations.Run | internal/store/store.go:192-275 | over every sequential run, under any changes of policy and limit: the data structures stay consistent; the counter is the booked size of all entries plus 32 bytes per element that LPOP, RPOP and LREM returned or counted, after each operation, if and only if no increment took an expired entry off it twice; the record of use moves in each step only for the keys of the operation; and a policy counts as always in force if and only if every change of policy chose it |
| Operations.Perform | internal/store/store.go:240-275 | every operation keeps consistency, keeps an exact counter exact if and only if it is not such an increment, leaves off the counter just the list elements it removes in place, marks as used only its own keys, and changes policy, limit and policy history only if that is what it is for |
| Operations.RunTotals | internal/store/store.go:192-275 | the unbooked elements of the steps add up to those of the run, and so do the choices of policy |
| Operations.SetString | internal/store/store.go:310-350 | SET with its absent and present variants: what is written and when it is refused; other keys stay unless the value does not fit, and are then at most evicted; memory ends within the limit or no higher than before, unless the empty key being rewritten may itself be evicted, and certainly not if it is the next to go; the key is the one used last; and why memory may be refused |
| Operations.FinishSet | internal/store/store.go:325-349 | the second half of SET, which looks again after evicting, with the same conditions |
| Operations.IncrBy | internal/store/store.go:548-607 | the sum of the live value and the increment is stored in decimal with the expiry kept, with non-numbers and 64-bit overflow refused, within budget, other keys untouched unless the sum does not fit, and why memory may be refused; an exact counter stays exact if and only if the key has not expired, is all the counter has, or does not fit without evicting |
| Operations.StaleIncrement | internal/store/store.go:548-607 | a reachable store whose counter is off after an increment of an expired key |
| Operations.Get | internal/store/store.go:278-300 | a read changes nothing visible anywhere, purges only what expired at its key, and marks the key as used last exactly when it returns a value |
| Operations.Push | internal/store/store_collections.go:268-316 | pushing on the real store does to the live value what the data specification says and marks the key as used last, within budget; without need for room it succeeds and leaves every other key alone; refused for memory only when it does not fit and nothing is left to evict, and then unchanged |
| Operations.Pop | internal/store/store_collections.go:333-410 | the same for popping, which never touches another key, and the unbooked elements are counted |
| Operations.LRem | internal/store/store_list_extra.go:105-163 | the same for LREM, which never touches another key |
| Operations.LSet | internal/store/store_list_extra.go:64-96 | the same for LSET, which never touches another key, with nothing unbooked |
| Operations.LTrim | internal/store/store_list_extra.go:166-215 | the same for LTRIM, which never touches another key |
| Operations.LInsert | internal/store/store_list_extra.go:218-272 | the same for LINSERT, with the conditions of a push on room |
| Operations.HSet | internal/store/store_collections.go:19-71 | the same for HSET, with the conditions of a push on room |
| Operations.HDel | internal/store/store_collections.go:122-157 | the same for HDEL, which never touches another key |
| Operations.SAdd | internal/store/store_collections.go:485-537 | the same for SADD, with the conditions of a push on room |
| Operations.SRem | internal/store/store_collections.go:540-576 | the same for SREM, which never touches another key |
| Operations.ReplaceSet | internal/store/store_collections.go:642-674 | the key holds exactly the given members, even none, with its expiry kept, with the same conditions on room |
| Operations.DelKey | internal/store/store.go:764-783 | just that key goes, and the answer is whether it was live |
| Operations.ExpireAt | internal/store/store.go:1031-1047 | only the expiry of a live key changes |
| Operations.Persist | internal/store/store.go:1073-1092 | only the expiry of a live key that has one is taken away |
| Operations.Rename | internal/store/store.go:833-868 | the entry moves with its expiry over whatever was there and nothing else changes, the counter stays exact, the new key is used last, and the source's version is not bumped |
| Operations.RenameNX | internal/store/store.go:901-935 | the same only onto a key that holds nothing live |
| Operations.MSetNX | internal/store/store.go:636-694 | all pairs are stored or none, and all exactly when none of the keys was live and memory allowed it; the counter stays exact and ends within the limit; other keys stay if there is no limit or the pairs fit; exactly the stored keys are marked as used; refused, nothing is written |
| Operations.EmptyKeyOverrun | internal/store/eviction.go:100-129 | a reachable store in which rewriting the empty key left memory above both the limit and its former level |
| Operations.EmptyKeyAlone | internal/store/store.go:368-383 | where the empty key is all there is under allkeys-lru, rewriting it succeeds exactly if the added size fits, and overruns the budget if and only if the new value is longer and by itself above the limit |
| Store.Store.EnsureMemory | internal/store/store.go:368-383 | making room evicts exactly when the bytes do not fit and not one key more than needed, ends, removes nothing but evicted keys, never the key being written unless it is the empty key and the policy may take it, and ends with enough room or with nothing left to evict under the policy in force |
| Store.Store.MakeRoom | internal/store/store.go:373-383 | the eviction rounds: each evicts one key, so they end; which key goes first, and that it is the only one if it made room enough |
| Store.Store.SoleNext | internal/store/eviction.go:100-129 | under a policy that was always allkeys-lru the only key there is goes next |
| Store.Store.EvictLru | internal/store/eviction.go:100-160 | one key is evicted, the tail of the first list from the cursor on that offers one, not the avoided key, and the oldest of its shard if the policy was always allkeys-lru; it gives up only when every shard's list is empty or ends in the avoided key |
| Store.Store.EvictRandom | internal/store/eviction.go:162-197 | some candidate key is evicted, or nothing happens |
| Store.Store.EvictVolatileTtl | internal/store/eviction.go:199-236 | the key that expires first over all shards is evicted, and it gives up only when no other key expires |
| Store.Store.ScanShard | internal/store/eviction.go:204-223 | after a shard the best candidate expires no later than any key seen |
| Store.Store.EvictFromStore | internal/store/eviction.go:81-98 | one eviction as the policy has it, of a key the policy may take; it gives up only when every list of the lru policies is empty or ends in the avoided key, or under volatile-ttl no other key expires |
| Store.Store.RecencyExact | internal/store/eviction.go:14-77 | in every consistent store and for both lists: nodes have distinct ids and keys and stand in the order of the stamps each operation gives to the keys it uses, the index map holds exactly their keys with their ids, and every entry's pointer is what the index map says |
| Store.Store.RecencyComplete | internal/store/eviction.go:14-77 | always allkeys-lru means every key is on the list, always volatile-lru exactly the keys that expire |
| Store.Store.Purge | internal/store/store.go:240-246 | the key leaves map, lists and counter, an exact counter by exactly its booked size, so the clamp at zero does not act, and its version is bumped |
| Store.Store.Unstore | internal/store/store.go:248-259 | the same without the bump |
| Store.Store.Touch | internal/store/store.go:261-264 | an access puts the key at the head of the policy's list, whether it was on it or not, and changes nothing visible |
| Store.Store.Place | internal/store/store.go:266-275 | a new entry takes the key over, heads the policy's list, and is the only key stamped |
| Store.Store.Replace | internal/store/store.go:266-275 | the counter moves by exactly the difference, unless the replaced entry was already purged, which is then taken off twice; only the key is stamped |
| Store.Store.ShrinkList | internal/store/store_collections.go:359-364 | removing elements in place changes the data but not the counter |
| Store.Store.Lookup | internal/store/store.go:282-289 | an expired entry is purged on sight, a live one is returned unchanged |
| Store.Store.Commit | internal/store/store_collections.go:303-315 | after making room the value is stored over what the key then holds, and nothing else changes if it fits; refused only when it does not fit and nothing is left to evict; within budget unless the replaced value is exposed to eviction and the new one does not fit, and over it for certain if that value is next to go; exact counter or not, to the byte |
| Store.Store.SetPolicy | internal/store/store.go:166-185 | a policy change keeps the structures consistent |
| Store.Store.FlushDB | internal/store/store.go:1007-1019 | every key goes, versions are reset, and only the unbooked bytes remain on the counter |
| Store.CursorWraps | internal/store/eviction.go:102-102 | the wrap of the 32-bit cursor does not disturb the shard it points at |
| Store.CursorReaches | internal/store/eviction.go:101-103 | within one turn the cursor reaches every shard |
| Store.TailOldest | internal/store/eviction.go:109-113 | the tail of a complete list is the key touched longest ago |
| Shards.PurgedKeeps | internal/store/store.go:240-259 | purging keeps pointers, index maps and nodes in agreement and in order |
| Shards.TouchedKeeps | internal/store/eviction.go:15-48 | touching keeps them so, with the key in front |
| Shards.WrittenKeeps | internal/store/eviction.go:51-77 | replacing and touching keeps them so, also when the old entry was on a list the present policy does not use |
| Shards.OtherKeeps | internal/store/eviction.go:15-77 | a touch in one shard disturbs no other |
| Shards.MutatedKeeps | internal/store/store_collections.go:359-364 | so does an edit in place |
| Lru.RemoveLinked | internal/store/store.go:248-259 | unlinking a node and deleting its key keeps list and index map one to one |
| Lru.PushLinked | internal/store/eviction.go:23-25 | so does pushing a new node |
| Lru.MoveLinked | internal/store/eviction.go:19-22 | so does moving a node to the front |
| Lru.MoveRecent | internal/store/eviction.go:19-22 | moving to the front keeps the order of last touch |
| Memory.EstimateMem | internal/store/store.go:192-216 | the loops compute the booked size: 128 bytes, the key, and the value's contents, lists by length |
| Memory.SumRemove | internal/store/store.go:198-202 | a sum over a map does not depend on the order it is walked in |
| ConditionalWrites.RunExplained | internal/store/store.go:386-449 | in every interleaving each step is, on every key, one atomic operation whose key condition held at that moment: SETNX, SETXX and MSETNX commit only where their condition holds, MSETNX writes all or none, refused and failed calls change nothing |
| ConditionalWrites.StepExplained | internal/store/store.go:636-694 | the same for one step: MSETNX takes effect at once when its second check is complete, although it then writes key by key |
| ConditionalWrites.StepInv | internal/store/store.go:664-694 | between its second check and its last write MSETNX holds the locks of all its keys, and those not yet written are not live |
| ConditionalWrites.OtherKept | internal/store/store.go:368-383 | a step of one client keeps what another has checked under its locks |
| ConditionalWrites.UnlockedIsReal | internal/store/store.go:641-650 | whoever gets the lock of a key sees the decided state, never a half-written MSETNX |
| ConditionalWrites.AllWritten | internal/store/store.go:684-693 | when MSETNX releases its locks every pair is stored |
| Locks.NoDeadlock | internal/store/store.go:365-383 | whatever operations any number of threads run on whatever keys, however keys are routed to shards and however the threads interleave, while one is unfinished some thread can move |
| Locks.OperationGood | internal/store/store.go:833-845 | every operation, eviction, MSETNX, RENAME, flush and pruning included, takes the shard locks of its keys in increasing order and the watch lock only after them |
| Locks.ProgramOrdered | internal/store/store_watch.go:16-55 | so does every sequence of them |
| Locks.ScheduleInv | internal/store/store.go:636-694 | after every schedule the locks held are disjoint and each thread's remaining requests are in order |
| Locks.ClimbToRunnable | internal/store/store.go:696-746 | following "waits for a lock held by" climbs in lock order and so reaches a thread that can move |
| Locks.OppositeOrdersDeadlock | internal/store/store.go:837-845 | two threads taking two locks in opposite orders can block for good |
| Locks.SortShardIndices | internal/store/store.go:738-746 | the in-place exchange sort sorts and keeps the numbers |
| Locks.AcquireShardsInOrder | internal/store/store.go:700-717 | the locks computed for a multi-key operation are the ones the deadlock theorem is about: each shard of its keys once, strictly increasing |
| Locks.LocksIncreasing | internal/store/store.go:700-746 | the specified lock sequence is strictly increasing and holds exactly the shards of the keys |
| Locks.IncreasingUnique | internal/store/store.go:738-746 | there is only one such sequence |
| Watch.WatchSound | internal/store/store_watch.go:10-23 | equal versions of a key at two moments, no step in between that loses count of it and fewer than 2^64 touches, mean that its presence, value and expiry were untouched throughout |
| Watch.TransactionSound | internal/commands/transaction.go:88-104 | in every interleaving with other clients, a transaction that runs its queue found every watched key untouched in presence, value and expiry from the moment WATCH read its version to the moment EXEC compared it, if no step in between lost count of it and fewer than 2^64 touched it |
| Watch.AbortJustified | internal/commands/transaction.go:90-97 | a transaction is aborted only if the key compared last was touched since its WATCH, or a step lost count of it |
| Watch.ComparedThenChanged | internal/commands/transaction.go:91-118 | a run in which a key changes between its comparison and the start of the queue |
| Watch.LeadsInv | internal/commands/transaction.go:54-104 | after every run the recorded versions are those of the moment of WATCH and the confirmed ones those of the moment of comparison |
| Watch.CountsIff | internal/store/store.go:862-866 | a step keeps the count of touches of a key if and only if it is not a rename away from it, nor a flush or prune that sets its version back |
| Watch.RunCounts | internal/store/store.go:240-275 | over such runs the version is the number of touches modulo 2^64 |
| Watch.FlushFools | internal/store/store.go:1016-1018 | a flush between two writes leaves the version as it was |
| Watch.PruneFools | internal/store/store_watch.go:48-53 | so does a deletion whose version is pruned before the next write |
| Watch.RenameFools | internal/store/store.go:862-866 | so does a rename that takes the key away |
| Watch.Database.PruneWatch | internal/store/store_watch.go:27-55 | exactly the versions of keys no longer stored are dropped |
| Watch.Session.Watch | internal/commands/transaction.go:54-66 | the version of every named key is read one by one, among other clients' changes, and recorded over an earlier one: a run of the transaction protocol |
| Watch.Session.Exec | internal/commands/transaction.go:78-104 | versions are compared one by one, among other clients' changes, and the queue runs exactly if all were current when compared: a run of the transaction protocol, after which transaction and watches are over |
| Links.ComputeReplicationTargets | internal/peer/service.go:354-386 | the targets have distinct node keys, cover every live node, and are exactly the preferred links |
| Links.FindLeaders | internal/peer/service.go:361-379 | the first pass keeps the preferred link of every node seen, in order of first appearance |
| Links.ChosenUnique | internal/peer/service.go:319-324 | each node has at most one preferred link |
| Links.SelectionOrderFree | internal/peer/service.go:354-386 | the selection does not depend on the order links are listed in |
| Links.BestOf | internal/peer/service.go:354-386 | every live link's node has a preferred link |
| Links.FailoverPromotes | internal/peer/service.go:331-386 | when the chosen link goes, another link to the node is chosen if there is one |
| Links.LinkTable.UnregisterOut | internal/peer/service.go:1243-1257 | just the dialed links to an address go, and a new generation is published |
| Links.LinkTable.UnregisterLink | internal/peer/service.go:1259-1274 | just that link goes, and a new generation is published |
| TargetCache.CacheCoherent | internal/peer/service.go:333-346 | in every interleaving, whatever selection is handed out belongs to a membership no older than the generation its reader loaded |
| TargetCache.RemovedNeverServed | internal/peer/service.go:1243-1274 | once a removal is published, a reader that loads its generation afterwards never gets the link |
| TargetCache.StoppedBeforeNeverServed | internal/peer/service.go:848-856 | a link stopped before the generation in use was published is not handed out, although stop flags are read link by link |
| TargetCache.StoppedLaterServed | internal/peer/service.go:333-346 | conversely, after every publication in every run, a link selected then and stopped later can still be handed out at that generation by a cache hit |
| TargetCache.StoppedLinkStillServed | internal/peer/service.go:853-854 | a run in which a cache hit returns a link already stopped |
| Inbound.PerOriginOrder | internal/peer/service.go:873-926 | in every lossless interleaving, when a frame has reached the store every earlier frame of its origin reached it before |
| Inbound.NothingLost | internal/peer/service.go:894-926 | every frame that arrived is applied, buffered or still with its worker |
| Inbound.StepOrderedIff | internal/peer/service.go:1295-1372 | from a reachable state a step is lossless (the buffer has room, and buffering ends only when it is empty and no worker has chosen it) if and only if no lossless run after it ever loses a frame or lets a later one of its origin overtake it |
| Inbound.LossAtOnce | internal/peer/service.go:1329-1331 | a frame dropped by a full buffer or thrown away with it is nowhere any more |
| Inbound.LossLater | internal/peer/service.go:1295-1301 | ending buffering while a worker has chosen the buffer always has a continuation in which the next frame of that origin overtakes the stranded one |
| Inbound.RunInv | internal/peer/service.go:906-926 | the order invariant holds after every lossless run |
| Inbound.StrandedFrame | internal/peer/service.go:1295-1301 | the shortest such run from the start: with one worker the second frame of an origin reaches the store and the first stays in the buffer |
| Resync.OneResyncAtATime | internal/server/discovery.go:158-206 | in every interleaving of requests at most one resync is under way and recorded starts are at least the minimum interval apart |
| Resync.RefusedNotForgotten | internal/server/discovery.go:170-190 | a refused request whose call returned is pending, or a resync began after it, or one is about to begin |
| Resync.OnlyDroppedWithoutContext | internal/server/discovery.go:191-206 | with a run context no request is dropped |
| Resync.DeferredRetryStarts | internal/server/discovery.go:208-222 | once the interval is over a deferred retry starts a resync and clears the pending mark |
| Resync.RefusedAtOnceIff | internal/server/discovery.go:162-167 | in every run a request is turned away at its first look if and only if another call holds the resync flag, whether or not the first sync is under way |
| Resync.FirstSyncIgnored | internal/server/server.go:436-455 | a run in which a resync begins while the first sync is under way |
| Membership.PeerBook.Run | internal/peer/forget.go:44-137 | over any sequence of adds, forgets and leaves: addresses stay distinct, protected peers stay, protected, and a non-empty list stays non-empty |
| Membership.PeerBook.AddPeerFrom | internal/peer/service.go:1480-1503 | an address is added exactly when it is usable, not this node and not known in any spelling; the call succeeds exactly when it was added and its dial loop started |
| Membership.PeerBook.AddPeer | internal/peer/service.go:1433-1437 | the address is added exactly when it is usable, not this node and not listed in any spelling, and otherwise nothing changes; afterwards it is exempt from removal if and only if that holds or it was exempt before |
| Membership.ManualAddIgnored | internal/peer/service.go:1480-1503 | a run in which an address learned first and then added by hand is still open to removal |
| Membership.PeerBook.RecordPeerMeta | internal/peer/service.go:1451-1466 | the stronger claim about an address wins |
| Membership.PeerBook.MarkPeerReachable | internal/peer/service.go:1470-1477 | a handshake is recorded for a known address only |
| Membership.PeerBook.NoteConfigPeers | internal/peer/service.go:1439-1449 | exactly the configured addresses are recorded as such and become exempt, and no other record changes |
| Membership.PeerBook.RemovePeer | internal/peer/service.go:1506-1527 | exactly the address written so goes |
| Membership.PeerBook.ForgetCandidates | internal/peer/forget.go:44-76 | the candidates are taken in list order while more than one peer remains, and their records are deleted |
| Membership.PickedFairly | internal/peer/forget.go:38-76 | only candidates are taken, never every peer, and every candidate unless just one peer would be left |
| Membership.PeerBook.Forget | internal/peer/forget.go:103-107 | what was taken leaves the list and nothing else does |
| Membership.PeerBook.ForgetUnreachablePeers | internal/peer/forget.go:82-109 | exactly the forgettable unconnected peers last seen before the cutoff go, but for one that would be the last peer |
| Membership.PeerBook.ForgetPeersMissingFrom | internal/peer/forget.go:116-137 | exactly the unconnected discovered peers missing from the listing go, but for one that would be the last peer |
| Membership.PeerBook.HandleLeave | internal/peer/forget.go:198-218 | exactly the announced address goes, if it is forgettable and not the last peer; a leave that names no address or this node changes nothing |
| Resp.ParseRoundTrip | internal/resp/parser.go:73-373 | parsing the encoding of a well-formed value followed by any bytes returns that value and exactly those bytes |
| Resp.RoundTripIff | internal/resp/writer.go:30-153 | an encodable value comes back if and only if it is well formed |
| Resp.ValueRoundTrip | internal/resp/parser.go:123-287 | the same for values inside arrays, at any depth |
| Resp.PipelineRoundTrip | internal/resp/parser.go:73-90 | a pipeline of encodings decodes to its values |
| Resp.ParseStable | internal/resp/parser.go:73-373 | a finished parse is not changed by bytes that arrive later |
| Resp.ValueStable | internal/resp/parser.go:123-287 | the same for a value |
| Resp.PrefixIncomplete | internal/resp/parser.go:73-373 | a proper prefix of an encoding neither parses nor is an error, it waits for more |
| Resp.ParseYieldsWellFormed | internal/resp/parser.go:73-373 | whatever parses is well formed |
| Resp.EncodeInjective | internal/resp/writer.go:132-153 | encodings are prefix free |
| RespIO.WriteThenParse | internal/resp/writer.go:104-153 | what a writer writes a parser reads back, with the trailing bytes left over |
| RespIO.Parser.ParseCommand | internal/resp/parser.go:73-90 | one command is read as specified and no byte more |
| RespIO.Parser.ParsePipeline | internal/resp/parser.go:73-90 | so are several |
| RespIO.Parser.ParseRESPValue | internal/resp/parser.go:123-184 | dispatch on the type byte, with nested arrays |
| RespIO.Parser.ParseBulkString | internal/resp/parser.go:186-248 | bulk strings, null ones and their size limit |
| RespIO.Parser.ParseArray | internal/resp/parser.go:250-286 | arrays, null ones and their count limit |
| RespIO.Parser.ParseInlineCommand | internal/resp/parser.go:288-306 | inline commands split at white space |
| RespIO.Parser.ReadLineBytes | internal/resp/parser.go:308-358 | one line through the fixed and the growing buffer, with its limit |
| RespIO.Parser.SkipIdleNoise | internal/resp/parser.go:92-121 | line breaks between commands are skipped |
| RespIO.Parser.ExpectLF | internal/resp/parser.go:360-373 | a CR must be followed by LF |
| RespIO.Writer.WriteValue | internal/resp/writer.go:132-153 | a value is appended as its encoding, or refused when it has none |
| RespIO.Writer.WriteElements | internal/resp/writer.go:104-114 | elements are appended in order and the first one refused stops it |
| RespIO.Writer.WriteBulkString | internal/resp/writer.go:73-94 | length, body and terminators |
| Bytes.TrimSpaceBytes | internal/resp/parser.go:43-58 | the two index loops trim blanks and tabs at both ends |
| Bytes.ParseFormat | internal/peer/apply.go:133-145 | parsing a formatted 64-bit integer gives it back |

## Left out

- Sockets, TLS, dialing, heartbeats, timers and goroutine lifetimes: only the steps they trigger are
  modelled, with time as an input.
- JSON encoding, authentication, glob matching and float formatting: payloads and frames are values.
- The peer frame header of `internal/peer/wire.go`: much easier than the RESP round trip.
- Expiry in replication and in snapshots: relative times are re-based on the receiver's clock. Expiry
  is kept where it matters for the store: purging, eviction, the recency lists, conditional writes,
  transactions.
- The hash function behind the shard and worker choice: any routing is allowed instead.
- Non-ASCII white space in inline commands, in numbers read by INCR and in peer addresses, and case folding beyond ASCII in the names of payload
  operations, which are an enumeration here.
- APPEND, GETSET, HSETNX, INCRBYFLOAT, HINCRBY, SETRANGE, the computing of unions, intersections and
  differences, SCAN and the read-only commands: they reuse the same lookup, room-making and replacement and would only add easy members.
- Lost updates of read-modify-write commands when eviction releases their lock: the code does not
  recompute the value, so only the conditional writes are claimed to be atomic.
- Writes that reach the joiner from nodes other than its snapshot source: the log of one source is
  modelled.
- The order in which a source stores a write and sends it: the log is taken to be in the order of the
  source's writes.
- Overlapping forget calls: each call is one step. What a resync and the first bootstrap do to each
  other's data when they overlap.
- The retry loop around bootstrap, pub/sub, AUTH, INFO, the management API, metrics, configuration and
  discovery providers: flat or thin.
- Bootstrap.Converges: the entries of a shard reach the joiner in the step that copies it; nothing else
  writes to the joiner before the drain, so entries in flight would not be visible.
- Operations.Run: 64-bit overflow of the byte counter is not modelled, since no store is that large.
- Operations.Run: operations run one after the other; what other clients do while eviction has dropped
  the lock is the subject of `ConditionalWrites`.
- Watch.TransactionSound: a change and its version bump are one step, and so are RENAME with its two
  bumps and FLUSHDB over all shards; a version read between them is not covered.
- Bootstrap.Converges: the bootstrap buffer never overflows; frames dropped by a full buffer are the
  subject of `Inbound`.
- ListOverlap.PushesConvergeIff: of the list writes it has the pushes; pops, LSET, LREM, LTRIM and
  LINSERT in the overlap are not covered.
- Watch.Database.PruneWatch: pruning is one step, so a key written between the look-up and the deletion
  of its version is not covered.
