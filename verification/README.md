# StellMap verification

A Dafny model of StellMap, a service registry replicated with Raft, with proofs about the parts that lie
around the Raft library: durable storage, crash recovery, watching and copying the directory, selectors,
cleanup and snapshot transfer. `dafny verify dfyconfig.toml` checks the project.

Code that changes state in the original is a class with loops and `modifies` clauses here, proved against
functions on values; expressions and recursion are functions. The modules:

- `Options`, `Lex`, `Text`, `Bytes`: byte-string order, ASCII text functions, big-endian numbers. A Go
  string or byte slice is a `string` with one `char` per byte.
- `Picks`: which elements of a sequence are taken, in order.
- `Members`, `Storage`, `Replay`: member keys by node id; the key-value store in atomic batches, and why replaying commands does no harm.
- `RaftLog`, `SegmentFormat`, `WalLayout`, `Wal`, `WalRuns`: the flat log, the record bytes, the segment
  files and their invariant, the segmented write-ahead log, and whole histories of it.
- `SnapshotStore`: snapshot files as a journal of single file operations.
- `Recovery`, `RaftNode`: durable steps as a transition system with a crash between any two, and the node's
  Ready loop, bootstrap and snapshots on the real store classes, each durable effect of which is proved to
  be one of those steps.
- `ReadBarrier`: linearizable reads on that node.
- `RegistryKeys`, `Directory`, `Mirror`, `WatchHub`, `WatchStream`: the key space, queries, and the watch
  protocol from committed entries to a client's copy.
- `Convergence`: recovery and the watch protocol together, for every run with crashes.
- `Replication`, `Resume`: the cross-region consumer, and crashing and resuming it.
- `Selector`, `Cleanup`, `SnapshotTransfer`.

The recovery theorem rests on one idea. Redelivery after a restart means a snapshot need not equal a prefix
of the log, so the invariant is that a store *tracks* the log from a position: replaying what follows gives
the right result. The same idea, one level up, gives the watch and replication theorems: a copy is safe to
resume from a position when it is right in everything no later event is about.

Most contracts speak through specification functions: what an entry applies, when a lease has run out, what a
copy carries. Each of these is tied down once more in the fields of the data and the constants of the code,
by a contract or by a lemma that does not go through it. The store a log makes, the copy a watcher ends with
and the copy in another region are stated that way from end to end (`Recovery.SettledByLastEntry`,
`WatchStream.RightCopyExactly`, `Resume.ConvergedByField`).

Each event is judged by the clock when it is sent, and an expiring lease sends none. Copies are therefore
compared with the directory by the instances still alive, at any time after the last event.

## What the library is taken to guarantee

`RaftNode.Offered` states it: new entries are contiguous, lie above the persisted commit and leave no gap;
the commit never goes back nor passes the log; committed entries are the next ones not yet delivered, at
least one when there is any; after a restart delivery begins right above the snapshot (the configuration at
internal/raftnode/node.go:736-745 sets no applied index). `ReadBarrier.Answers` says that a read
confirmation is no lower than what was committed when its request was made.

`Resume` assumes more: that of a session's proposals a prefix commits, in order, and that the session read
the checkpoint after everything proposed before it had committed or was lost. The library gives the first
only while the leader stays: across a change of leader an accepted proposal can be lost and a later one
commit. The second the code does not wait for, since an accepted proposal is not yet a committed one
(internal/raftnode/node.go:433-439). What happens otherwise is decided exactly for one event: its data lost
but not its checkpoint (`Resume.LostDataSafeExactly`), and a session that begins below the stored checkpoint
(`Resume.StaleResumeSafeExactly`). Commands of others may commit anywhere in between.

## Where the code falls short of what one might expect

Each has its exact condition or a concrete case among the members below.

- An overlapping append that starts below the first retained index loses the entries below it
  (`RaftLog.AppendMergesExactly`). The Raft library never offers one.
- A torn payload fails the open; a torn header is tolerated but not cut off, and the next append behind it
  is not read back (`SegmentFormat.ReadTornFile`, `SegmentFormat.AppendAfterTornHeader`; for records of any
  length the exact coincidence needed is `SegmentFormat.AppendBehindBytesExactly`).
- A tail rewrite cut off between its file removals opens to a log with a hole and without the removed
  segments' older entries (`Wal.RewriteCrashExactly`); a prefix truncation cut off there is harmless
  (`Wal.TruncationCrash`).
- The hard state is renamed into place before the entries of its batch are written. After a crash between
  the two the commit index can lie past the end of the log, or on entries that the batch was about to
  overwrite (`Wal.HardStateCrashExactly`).
- After a restart with entries above the snapshot, redelivery rolls keys back and the reported applied index
  can decrease (`ReadBarrier.ExactAfterStart`, `ReadBarrier.RedeliveryGoesBack`). Inside the first redelivered
  batch the reported index is still the old commit while the store is rolled back already: a watch snapshot
  scanned there under that revision is covered by `Convergence.WatchConverges` only when its condition on the
  revision holds, and by `Convergence.NodeConverges` between batches.
- A read uses its key as request context, a scan its start and end, so two reads of the same key share one.
  Answers and cancellations find their channel by the context alone: an answer to the older request can reach
  the newer one, and the older one giving up closes the newer one's channel, which then receives index 0 and
  passes the barrier at once. While the older one waits the newer one is safe only if nothing was committed
  when it was made; once the older one is gone, if nothing more was committed than for the older one
  (`ReadBarrier.ReusedContextExactly`). With distinct contexts among the requests that have not returned and
  those still owed an answer neither happens (`ReadBarrier.GivingUpIsOwn`,
  `ReadBarrier.ConfirmedForTheRightRequest`).
- Namespaces, services and instance ids may hold slashes: registration only trims them and refuses empty
  ones. Such an instance is stored, queried and put into snapshots, but its key does not parse
  (`RegistryKeys.BuiltKeyParses`), so it is never published and copies of it go stale
  (`Mirror.SlashedInstanceIsMissed`, exactly when in `Mirror.PutIsMirroredExactly` and
  `Mirror.MirrorTheoremExactly`).
- A cluster called `registry` makes replicated keys unparsable (`RegistryKeys.ReplicatedKeyRoundTrip`).
- With at most as many entries applied as should be retained, a snapshot compacts all of them away
  (`RaftNode.RecentEntriesStayExactly`).
- Prefix deletes are not published to watchers (`Mirror.PrefixDeleteIsSilent`). The only one the code issues
  is the consumer's, under `/replication/regions/`, so no local instance is ever hit
  (`Replication.ProposalsAreClean`).
- A replication snapshot interrupted between its prefix delete and its checkpoint can lose instances while an
  older checkpoint is stored (`Resume.InterruptedSnapshotSafeExactly`), and a copy does not carry the service
  hierarchy (`Replication.Carried` drops organization to role).
- Cleanup proposes its deletes without a condition: a heartbeat or registration that commits between the scan
  and the delete is undone (`Cleanup.DeletedIsAliveExactly`).
- A snapshot upload that broke off blocks every retry for the same snapshot
  (`SnapshotTransfer.UploadInstallsExactly`).

## Model

| member | source | states |
|---|---|---|
| Wal.FileWAL.Open | internal/wal/wal.go:101-129 | opening takes over exactly what the segment files parse to and the stored hard state, or fails and changes nothing when one does not parse; a directory that the log wrote always opens, to exactly its entries, segments and hard state |
| Wal.FileWAL.LoadEntries | internal/wal/wal.go:337-365 | reading all segment files in id order equals loading the directory: entries concatenated, empty files skipped, one bad file fails the whole load |
| Wal.FileWAL.LoadAll | internal/wal/wal.go:184-199 | loading returns the in-memory hard state and entries, or that the log is not open |
| Wal.FileWAL.Append | internal/wal/wal.go:140-182 | a batch continues the flat log, overwrites its tail, or leaves a gap and is refused with the entries unchanged; a hard state is stored unless term, vote and commit are all 0, also when the batch is refused; files, segments and memory stay in step |
| Wal.FileWAL.AppendEntriesIncremental | internal/wal/wal.go:475-531 | the files then hold the old log followed by the batch, in segments that keep the size rule |
| Wal.FileWAL.WriteRecord | internal/wal/wal.go:488-528 | one record, four bytes of length and the payload, goes to the last segment exactly when it fits there, and otherwise alone to a newly numbered one |
| Wal.FileWAL.RewriteTail | internal/wal/wal.go:541-595 | an overlapping batch leaves the merged log from the first retained index on; the no-segment and past-the-end fallbacks cannot be reached |
| Wal.FileWAL.RewriteFrom | internal/wal/wal.go:563-595 | replacing all segments from a position by the merged log's share leaves memory and files holding the merged log from the first retained index on |
| Wal.FileWAL.TruncatePrefix | internal/wal/wal.go:209-291 | the retained log is exactly the entries at or above the index; the hard state is kept |
| Wal.FileWAL.DropSegments | internal/wal/wal.go:242-289 | whole segments below the index go, the one the index falls into is rewritten, and the flat log that remains is the truncated one |
| Wal.FileWAL.RewriteBoundary | internal/wal/wal.go:257-285 | the boundary file is replaced by its remaining entries and is never left empty: the empty-boundary error is unreachable |
| Wal.TruncationCrash | internal/wal/wal.go:258-262 | a prefix truncation cut off after any number of its file removals opens to a log that still holds every entry at or above the index |
| Wal.RewriteCrashExactly | internal/wal/wal.go:563-573 | a tail rewrite cut off between its file removals opens without an error to exactly the segments left, a log with a hole unless nothing was removed, nothing lies before or nothing remains behind |
| Wal.HardStateCrashExactly | internal/wal/wal.go:152-168 | after a crash between the hard state and the entries of a batch the directory opens to the old log; up to the new commit it agrees with the appended log if and only if it held the batch's entries there already, for a batch that continues the log if and only if the commit lies below the batch |
| WalRuns.LoadAfter | internal/wal/wal.go:101-199 | after any sequence of appends, truncations and restarts, accepted or refused, loading returns the entries of one flat log and the last hard state written that is not all 0 |
| WalLayout.LoadOfHolds | internal/wal/wal.go:337-365 | under the representation invariant (ascending ids, adjacent non-empty ranges, file contents in id order equal to the log, segments of two or more records within the limit) reopening finds entries and segments exactly |
| WalLayout.FindSegmentSplits | internal/wal/wal.go:552-554 | the segment search ends at a segment for every index up to the log's end, and that segment's range holds the index's position |
| RaftLog.AppendByIndex | internal/wal/memory.go:54-64 | after an accepted batch the log answers from the batch at and above its first index, from the old log below, and holds nothing of the old tail past the batch |
| RaftLog.FlatAppendExactly | internal/wal/wal.go:164-182 | the whole log after an append in each case: joined, refused, cut at the batch's first index and continued by it, or the part of a lower batch from the first retained index on |
| RaftLog.FlatTruncateExactly | internal/wal/wal.go:209-291 | the whole log after a truncation |
| RaftLog.TruncateByIndex | internal/wal/memory.go:80-96 | after truncation the log answers as before at and above the index and nothing below |
| RaftLog.AppendMergesExactly | internal/wal/wal.go:563-584 | an overlapping batch leaves the plain merge if and only if it starts no lower than the first retained index; a lower batch loses entries |
| RaftLog.OverlapMerge | internal/wal/wal.go:423-449 | the merge is the old log cut at the batch's first index, followed by the batch, and stays contiguous |
| SegmentFormat.ReadSegment | internal/wal/wal.go:386-416 | the reading loop returns what the format definition reads |
| SegmentFormat.ReadBack | internal/wal/wal.go:386-416 | a file made of any length-prefixed records below 2^32 bytes reads back as exactly those entries |
| SegmentFormat.FrameBytes | internal/wal/wal.go:648-669 | the bytes of a record: its length in four bytes, most significant first, and the payload |
| SegmentFormat.ReadTornFile | internal/wal/wal.go:386-416 | a file cut off after any number of bytes gives exactly the whole records before the cut when fewer than four bytes of the next header remain, and an error otherwise: never another entry |
| SegmentFormat.AppendAfterTornHeader | internal/wal/wal.go:648-669 | behind any one to three left-over bytes a next record below 64 KiB is never read back: reading returns what was written if and only if nothing was left over |
| SegmentFormat.AppendBehindBytesExactly | internal/wal/wal.go:386-416 | for records of any length, the exact coincidence in which a record behind left-over bytes is still read back |
| Bytes.BigEndianRoundTrip | internal/storage/pebble.go:504-521 | fixed-width big-endian numbers read back |
| Lex.PrefixRange | internal/storage/pebble.go:150-152 | the range from a prefix to the prefix plus byte 0xFF holds exactly the extensions whose next byte is not 0xFF |
| Lex.ZeroByteIsNext | internal/registry/cleanup.go:29-31 | a key plus a zero byte is its immediate lexicographic successor |
| Storage.PebbleStore.Apply | internal/storage/pebble.go:127-165 | put, delete and prefix delete change the store as their commands say; unknown operations change nothing; a closed store refuses |
| Storage.ApplyCommandExactly | internal/storage/pebble.go:127-165 | key by key: a put binds its key, a delete unbinds it, a prefix delete unbinds exactly the extensions of the prefix whose next byte is not 0xFF |
| Storage.PebbleStore.Scan | internal/storage/pebble.go:194-227 | a scan returns the business rows of the range in key order, cut at a positive limit, without metadata |
| Storage.ScanRowsExactly | internal/storage/pebble.go:194-227 | the rows of a scan are in ascending key order, hold exactly the stored keys of the range that do not begin with `__meta__/`, and with a positive limit are the first ones |
| Storage.PebbleStore.Snapshot | internal/storage/pebble.go:233-256 | a snapshot holds every business row in key order and every member address row by node id |
| Storage.PebbleStore.ListMemberAddresses | internal/storage/pebble.go:447-482 | the member rows, all of them, by node id |
| Storage.MemberRowsExactly | internal/storage/pebble.go:447-482 | exactly the stored keys under `__meta__/members/`, in the order of the node ids |
| Members.NodeOrderIsNumeric | internal/storage/pebble.go:475-477 | on member keys, which end in the decimal node id, the listing's order is the numeric order of the ids |
| Members.DecimalExactly | internal/storage/pebble.go:538-540 | a node id is written in decimal digits, the highest first |
| Storage.PebbleStore.Restore | internal/storage/pebble.go:262-332 | one batch clears business data and members and writes the payload; other metadata stays |
| Storage.PebbleStore.Get | internal/storage/pebble.go:171-188 | a missing key reads as the empty value |
| Storage.RestoreOfExport | internal/storage/pebble.go:233-332 | a snapshot restored over any store carries business data and members over exactly |
| Storage.RestoreOfExportByKey | internal/storage/pebble.go:233-332 | key by key: business and member keys come from the exported store, all other metadata from the one restored over |
| Storage.PebbleStore.AppliedIndex | internal/storage/pebble.go:335-352 | the applied index as stored, 0 when absent or too short |
| Storage.AppliedIndexReadsBack | internal/storage/pebble.go:335-368 | the applied index reads back and is invisible to business data |
| Storage.AppliedIndexExactly | internal/storage/pebble.go:335-368 | eight bytes, most significant first, under the applied-index key read back for every 64-bit index; fewer read as 0 |
| Storage.MetaKeysSpelled | internal/storage/pebble.go:24-25 | the keys of applied index and term written out |
| Replay.FoldByKey | internal/storage/pebble.go:127-165 | what a key holds after a run of commands is settled by the last command that touches it |
| Replay.ReplayIsHarmless | internal/storage/pebble.go:127-165 | applying the tail of a history a second time leaves the store unchanged, for all histories and starting stores |
| Replay.ReplayFromStartExactly | internal/storage/pebble.go:127-165 | a whole log replayed over a store gives the store built from nothing if and only if the log settles every key of the old store |
| Replay.ReplayFromStart | internal/storage/pebble.go:127-165 | in particular over any store whose keys were all written by that log |
| Replay.BusinessOfFold | internal/storage/pebble.go:127-165 | stores that agree on business keys still agree after the same commands |
| SnapshotStore.FileStore.Create | internal/snapshot/snapshot.go:88-134 | data file, then metadata, then cleanup: every file operation is safe and in that order; afterwards the newest by index and term are kept, as many as the default says, with their data |
| SnapshotStore.FileStore.Install | internal/snapshot/snapshot.go:160-166 | installing takes the same steps as creating and ends the same way |
| SnapshotStore.FileStore.Cleanup | internal/snapshot/snapshot.go:172-194 | as many snapshots as asked for (the default number when not positive) keep their metadata, every one removed is older by index and term than every one kept, and only the removed lose both files |
| SnapshotStore.FileStore.ListMetadata | internal/snapshot/snapshot.go:200-231 | the listing holds exactly the metadata present, newest first by index and term |
| SnapshotStore.FileStore.OpenLatest | internal/snapshot/snapshot.go:140-154 | the snapshot opened is newer by index and term than every other, with its data; on a sound directory the data file is never missing |
| SnapshotStore.NewestNeverMovesBack | internal/snapshot/snapshot.go:88-194 | after any prefix of safe file operations - a crash anywhere - the newest metadata is at least as new as before and has its data file |
| Recovery.InvAlways | internal/raftnode/node.go:601-628 | the recovery invariant holds in every state of every run of durable steps, with a crash between any two |
| Recovery.CrashAnytime | internal/raftnode/node.go:601-628 | every state of a run may be followed by a crash |
| Recovery.StepKeeps | internal/raftnode/node.go:601-628 | each kind of durable step, and a crash, keeps the recovery invariant |
| Recovery.BootRebuilds | internal/raftnode/node.go:920-985 | a finished bootstrap leaves business data equal to the committed log folded from nothing, and the committed log ends at the persisted commit index |
| Recovery.SettledByLastEntry | internal/raftnode/node.go:664-708 | what that fold holds, key by key: the last normal entry of the log whose command touches the key decides, a put by its value, a delete or prefix delete by absence; untouched keys are absent |
| Recovery.BootstrapOfAnyCrash | internal/raftnode/node.go:920-985 | bootstrap as one function of the disk, run on any state a crash can leave, rebuilds that fold, with or without a snapshot |
| Recovery.BootNeverStuck | internal/raftnode/node.go:920-985 | bootstrap always finds its next step: a snapshot with its data, the next committed entry in the log, or nothing left |
| Recovery.CommittedLogGrows | internal/raftnode/node.go:601-628 | no step loses or changes a committed entry: the committed log only grows |
| Recovery.CaughtUpIsExpected | internal/raftnode/node.go:664-708 | once redelivery has caught up with the commit index the store equals the fold of the committed log |
| Recovery.CompactionCoverage | internal/raftnode/node.go:1034-1050 | at every reachable state each committed entry above the newest snapshot is in the write-ahead log, and that snapshot has its data |
| Recovery.TracksEverywhere | internal/raftnode/node.go:954-985 | a complete store stays right under redelivery from any position |
| Recovery.TracksEarlier | internal/raftnode/node.go:664-708 | a store that tracks the log from a position tracks it from every earlier one |
| Recovery.DeliveredIsFresh | internal/raftnode/node.go:664-708 | while entries are delivered, in every run, each business key shows its value in some prefix of the committed log no older than the delivery cursor |
| RaftNode.RaftNode.HandleReady | internal/raftnode/node.go:601-628 | persist, apply, snapshot, on the real stores: the committed log grows to the new commit, exactly the offered committed entries are applied, the store equals the fold of the log when nothing is left to deliver, and a snapshot of it at the delivered index is taken exactly when enough entries were applied since the last one; every durable effect is a step of the recovery model |
| RaftNode.ReadyIsOffered | internal/raftnode/node.go:601-628 | a batch that the library builds from a growing committed log - new entries above it, the next committed ones - meets the hypothesis of `HandleReady` |
| RaftNode.RaftNode.ApplyEntry | internal/raftnode/node.go:668-697 | a normal entry with a command applies exactly that command; every other entry leaves the store as it is |
| RaftNode.RaftNode.BootEntry | internal/raftnode/node.go:969-983 | likewise for an entry replayed by bootstrap, on business keys |
| RaftNode.BatchIsReported | internal/raftnode/node.go:668-708 | a Ready batch keeps it that what is reported as applied was delivered, or lies in a complete store; `RaftNode.RaftNode.Start` establishes it |
| RaftNode.RaftNode.PersistReady | internal/raftnode/node.go:613-621 | the write-ahead log takes the batch without a gap, the library's in-memory log never panics, both end at the same index, and the committed log grows to the new commit by the entries persisted there |
| RaftNode.RaftNode.ApplyCommittedEntries | internal/raftnode/node.go:664-708 | the store changes by the entries' commands in order; index and term of the last entry are written once |
| RaftNode.RaftNode.MaybeTriggerSnapshot | internal/raftnode/node.go:988-1053 | a snapshot of the store is taken exactly when at least one and at least the configured number of entries were applied since the last one; the log is truncated behind it, less the entries to retain, and no more snapshots stay than configured |
| RaftNode.RaftNode.CreateSnapshotFile | internal/raftnode/node.go:1010-1032 | every file operation of taking the snapshot is a step of the recovery model, and afterwards the new snapshot is the newest and holds the exported store |
| RaftNode.RaftNode.CompactLog | internal/raftnode/node.go:1042-1050 | truncation at an index the newest snapshot covers is a step of the recovery model and leaves exactly the entries from there on |
| RaftNode.RecentEntriesStayExactly | internal/raftnode/node.go:1034-1045 | the configured number of entries before the applied index survives compaction if and only if more than that many were applied; an earlier snapshot drops them all |
| RaftNode.RaftNode.BootstrapStorage | internal/raftnode/node.go:920-985 | the store equals the fold of the committed log, applied and commit index equal the persisted commit, the library's in-memory log is loaded without a panic, and the node counts as fresh only without hard state, entries and snapshot |
| RaftNode.RaftNode.RecoverLog | internal/raftnode/node.go:954-985 | the write-ahead log fits behind the restored snapshot in the library's memory, and its committed part is applied to the end |
| RaftNode.RaftNode.RestoreLatest | internal/raftnode/node.go:921-952 | the newest snapshot, when there is one, becomes the state machine and the in-memory log's start |
| RaftNode.RaftNode.ReplayCommitted | internal/raftnode/node.go:969-983 | the replay loop applies every entry above the snapshot up to the persisted commit, and no other |
| RaftNode.RaftNode.Start | internal/raftnode/node.go:370-409 | opening the stores on whatever an earlier run left and bootstrapping ends between two Ready batches with the rebuilt store |
| ReadBarrier.ConfirmedForTheRightRequest | internal/raftnode/node.go:639-650 | with distinct contexts outstanding every confirmed index reaches the request it was confirmed for, whatever was cancelled meanwhile |
| ReadBarrier.ConfirmAllExactly | internal/raftnode/node.go:639-650 | a waiter gets the index of the first confirmation under its context and leaves the table; without one nothing changes for it |
| ReadBarrier.ReadService.Register | internal/raftnode/node.go:442-455 | a request gets its own empty channel under its context and disturbs no other channel; the service stays sound when no request that has not returned, or is still owed an answer, has the context |
| ReadBarrier.ReadService.RemoveWaiter | internal/raftnode/node.go:462-468 | a request that gives up closes, without an index, whichever channel is registered under its context; in a sound service that is its own and no other channel changes |
| ReadBarrier.GivingUpIsOwn | internal/raftnode/node.go:726-734 | with distinct contexts among the requests that have not returned, a channel closed without an index always belongs to a request that gave up |
| ReadBarrier.ReadService.Receive | internal/raftnode/node.go:461-471 | a request receives its index, or 0 from a channel closed without one, and returns |
| ReadBarrier.ReadService.HandleReadStates | internal/raftnode/node.go:639-650 | the loop hands out each confirmation to the waiter under its context, once |
| ReadBarrier.ReadService.Process | internal/raftnode/node.go:601-628 | a batch keeps what is reported as applied in the store; from an exact start the store stays exactly at the reported index, which never decreases; when it decreases is stated exactly |
| ReadBarrier.ReadService.Poll | internal/raftnode/service.go:72-74 | for every request whose receive has returned, the barrier passes if and only if the reported index has reached the received one; in a sound service everything committed when the read was requested is then reported as applied |
| ReadBarrier.ReadService.Get | internal/raftnode/service.go:95-101 | the store read that follows at any later moment returns, while the reported index is still that far, the key's value in some prefix of the committed log that holds everything committed when the read was requested |
| ReadBarrier.PrefixValueExactly | internal/raftnode/service.go:95-101 | the value of a key in a prefix of the log is that of the last normal entry whose command touches it, empty after a delete or without one |
| ReadBarrier.ExactAfterStart | internal/raftnode/node.go:982-985 | after a start the reported index is exact if and only if the newest snapshot covers the whole committed log |
| ReadBarrier.RedeliveryGoesBack | internal/raftnode/node.go:736-745 | otherwise redelivery rolls a key back: a concrete log |
| ReadBarrier.ReusedContextExactly | internal/raftnode/node.go:453-471 | when a context is used again, every legal answer to the older request and its giving up are harmless to the newer one if and only if nothing more was committed at the newer one, while the answer is owed, and nothing at all, while the older one may give up |
| ReadBarrier.ReusedContextIsStale | internal/raftnode/node.go:453-471 | two concrete tables: a stale answer to the older request, and a time-out of the older one that lets the newer one pass with 0 |
| RegistryKeys.ParseKeyExactly | internal/registry/model.go:363-383 | a key parses to an identity if and only if it was built from it and no component is blank or holds a slash |
| RegistryKeys.KeysSpelled | internal/registry/model.go:353-366 | instance keys and their prefixes written out |
| RegistryKeys.ReplicationKeysSpelled | internal/registry/replication.go:57-69 | replicated keys, their service prefixes and checkpoint keys written out |
| RegistryKeys.SlashFreeKeyIsOwn | internal/registry/model.go:363-365 | no other identity, with or without slashes, shares the key of a slash-free one |
| RegistryKeys.BuiltKeyParses | internal/registry/model.go:363-383 | the key built from trimmed, non-empty components parses to them if and only if none holds a slash, and otherwise not at all |
| RegistryKeys.ReplicatedKeyRoundTrip | internal/registry/replication.go:62-104 | a built replicated key parses back to its five components if and only if the cluster is not called registry; then it does not parse at all |
| RegistryKeys.CheckpointKeyRoundTrip | internal/registry/replication.go:67-125 | a built checkpoint key parses back to its four components |
| RegistryKeys.PlainSourceExactly | internal/app/replication.go:65-82 | the sources meant below: four parts, each not empty, trimmed and without a slash |
| RegistryKeys.ServicePrefixMatches | internal/registry/replication.go:57-64 | a replicated service's prefix is a prefix of exactly that service's replicated keys |
| RegistryKeys.DeleteServiceExactly | internal/registry/replication.go:57-64 | deleting the prefix removes that source's and service's instances and no other replicated instance |
| RegistryKeys.DeleteServiceSparesOthers | internal/registry/replication.go:57-69 | it leaves every checkpoint, local instance and metadata key as it was |
| Directory.FilterInstances | internal/transport/http/handlers_impl.go:352-371 | the loop returns the shown instances of the rows in order, cut at a positive limit |
| Directory.ShownExactly | internal/registry/model.go:106-124 | which values a query shows, in their fields: lease from the last heartbeat or else the registration, 30 seconds by default; namespace, service, service prefixes, zone, labels, endpoint name or protocol |
| Directory.EndpointsInOrder | internal/registry/model.go:330-351 | exactly the endpoints of the name or protocol asked for are shown, in order |
| Directory.RowsInOrder | internal/transport/http/handlers_impl.go:352-371 | exactly the rows that decode to a shown value are answered, once each and in order |
| Directory.QueryInstances | internal/transport/http/handlers_impl.go:344-371 | a query returns what its scan range shows, cut at its limit |
| Directory.NarrowedScanIsSame | internal/transport/http/handlers_impl.go:344-371 | scanning only the exact service's range yields the same instances in the same order as scanning the namespace, so the limit cuts the same; names with slashes and undecodable rows included |
| Mirror.MirrorStep | internal/transport/http/handlers_impl.go:729-782 | one command and the message sent for it, at whatever time, change directory and client alike for every slash-free identity |
| Mirror.EventExactly | internal/app/app.go:559-602 | a normal put or delete under an instance's key is published as its upsert or deletion with the entry's index, and nothing else as an event of that instance |
| Mirror.MessageExactly | internal/transport/http/handlers_impl.go:729-782 | an event of the query's namespace and services is sent as the instance shown or as its removal, any other not at all |
| Mirror.WrittenIsClean | internal/registry/model.go:164-225 | what registration and deregistration write meets the hypothesis of the theorems here |
| Mirror.MirrorFold | internal/transport/http/handlers_impl.go:729-782 | following the messages of a run of entries is applying its commands to the directory |
| Mirror.MirrorTheorem | internal/transport/http/handlers_impl.go:436-501 | a client that copied the directory at one position and follows events from an earlier one, so that some come twice, is right at every later position: its living instances are exactly the directory's, for slash-free identities, whenever the events were sent |
| Mirror.FollowedIsRight | internal/transport/http/handlers_impl.go:729-782 | following a run of events makes every identity right that was right before or that some event was about |
| Mirror.MirrorTheoremExactly | internal/transport/http/handlers_impl.go:436-501 | the copy of everything, slashes included, is right at the later position if and only if the directory shows there what it showed when copied of every identity with a slash |
| Mirror.PutIsMirroredExactly | internal/app/app.go:574-598 | for a registration with trimmed, non-empty components the copy of everything stays right if and only if no component holds a slash or the directory shows the same as before |
| Mirror.SlashedInstanceIsMissed | internal/app/app.go:574-577 | an instance named a/b that registers newly is sent to nobody, and every copy is wrong |
| Mirror.SnapshotIsView | internal/transport/http/handlers_impl.go:849-886 | a snapshot without a limit copies exactly what the directory shows to the query, slashes included |
| Mirror.PrefixDeleteIsSilent | internal/app/app.go:586-598 | a prefix delete publishes nothing; a right copy stays right if and only if it hits no shown instance |
| WatchStream.WatchInstances | internal/transport/http/handlers_impl.go:424-501 | the stream is a gone error, a replay and live events, or a snapshot and the live events above its revision, exactly as since revision, exactness and snapshot flag decide |
| WatchStream.WatchReplication | internal/transport/http/handlers_impl.go:543-609 | the replication stream resumes only on an exact replay and otherwise starts with a snapshot |
| WatchStream.SendLive | internal/transport/http/handlers_impl.go:481-499 | live events at or below the current revision are skipped, the matching rest is sent once and in order |
| WatchStream.SendReplay | internal/transport/http/handlers_impl.go:459-470 | the replayed events that match are sent in order, and the revision kept is one of theirs |
| WatchStream.SentInOrder | internal/transport/http/handlers_impl.go:459-499 | one frame for each event above the revision that has a message, in the order of the events |
| WatchStream.PublishRegistryEvents | internal/app/app.go:559-602 | the events of applied entries are published in order, others passed over |
| WatchStream.SnapshotStreamMirrors | internal/transport/http/handlers_impl.go:436-501 | subscription before revision before scan: if the scanned store tracks the log from the revision, then after the stream up to any later position the client's living instances are exactly the directory's there, whatever it held before and whenever snapshot and events were taken and sent |
| WatchStream.ReplayStreamMirrors | internal/transport/http/handlers_impl.go:459-501 | after an exact replay and the live events a client that was right at its revision is right at any later position, also across a restart of the hub or when it is ahead of the hub |
| WatchStream.RightCopyExactly | internal/transport/http/handlers_impl.go:436-501 | what a right copy holds of an instance: the value of the last normal entry that touches its key, as the query shows it; otherwise nothing, or a value whose lease has run out |
| Convergence.WatchConverges | internal/transport/http/handlers_impl.go:849-886 | in every run with crashes, a snapshot scanned from a running node whose delivery had reached the revision, or whose store was complete, and the events above the revision make any client right at any later position, also in the middle of a redelivery |
| Convergence.NodeConverges | internal/transport/http/handlers_impl.go:849-886 | between any two batches of a node the reported applied index is such a revision, and so is every lower one, such as one read earlier |
| Convergence.RunIsServed | internal/transport/http/handlers_impl.go:849-886 | a running node of any run meets the hypothesis on the source of a replication snapshot |
| Convergence.RunIsPlaced | internal/transport/http/handlers_impl.go:849-886 | in every run with crashes, stores and snapshots hold only rows that registration wrote when the committed log does |
| WatchStream.ExactIsAfterBase | internal/registry/watch.go:117-139 | a hub that has only published events past a position never claims an exact replay for an earlier revision |
| WatchHub.ReplayIsComplete | internal/registry/watch.go:117-146 | when the history covers a revision, replaying it gives precisely all ever-published events above it, in order, despite the bounded window |
| WatchHub.CoversExactly | internal/registry/watch.go:117-146 | a revision is covered if and only if it is above 0 and past the last published event, or no more than one below the oldest of the last 2048 |
| WatchHub.RetainedIsReplayed | internal/registry/watch.go:117-146 | a revision at or between retained events is replayed exactly, with precisely the events published after it |
| WatchHub.UncoveredMisses | internal/registry/watch.go:117-146 | below an evicted event the retained history really is incomplete |
| WatchHub.WatchHub.SubscribeSince | internal/registry/watch.go:48-76 | a new watcher starts at the end of what is published, with room for as many events as asked for or 64; the replay is exact if and only if the revision is covered, stated on the published events, and is then precisely those above it: from a retained event on all that came after it |
| WatchHub.WatchHub.ReplaySince | internal/registry/watch.go:117-139 | exact if and only if the revision is covered (with the 64-bit successor), and then exactly the published events above it |
| WatchHub.WatchHub.Publish | internal/registry/watch.go:83-115 | every watcher with room gets the event, every full one is closed and removed; what each watcher received and can still receive stays a gap-free run of published events |
| WatchHub.WatchHub.Receive | internal/registry/watch.go:90-99 | the next event out of a channel is the published one behind those received, also after it was closed |
| WatchHub.WatchHub.Unsubscribe | internal/registry/watch.go:60-73 | the watcher is removed and its channel closed, once |
| Replication.Consumer.RunStream | internal/app/replication.go:156-198 | only frames with a rising revision are acted on; their proposals are made one by one until the first that is refused, which ends the stream, and all of them when none is |
| Replication.Consumer.ApplySnapshot | internal/app/replication.go:245-273 | prefix delete, one put per instance, checkpoint last, up to the first refusal |
| Replication.Consumer.ApplyUpsert | internal/app/replication.go:275-305 | the instance is put before its checkpoint, which is not attempted when the put is refused; without an instance only the checkpoint is written |
| Replication.Consumer.ApplyDelete | internal/app/replication.go:307-326 | the copy is deleted before its checkpoint, which is not attempted when the delete is refused; without an instance id only the checkpoint is written |
| Replication.FrameIsCopied | internal/app/replication.go:245-326 | all proposals of a frame do to the copy, on the carried fields, what the frame does to a client, and leave its revision as checkpoint; a completed snapshot replaces the service's instances exactly |
| Replication.FrameIsCopiedByField | internal/app/replication.go:367-380 | field by field: a copy has id, zone, labels, metadata, endpoints, lease and times of the instance shown and no hierarchy, and what is not shown has no copy |
| Replication.UpsertIsStored | internal/registry/replication.go:130-158 | what an upsert leaves stored: the instance with the source's region and cluster, the revision and the time, and the checkpoint |
| Replication.SnapshotIsStored | internal/app/replication.go:245-273 | likewise for each instance of a snapshot, the last one of a name, and its checkpoint |
| Replication.ProposalsInOrder | internal/app/replication.go:245-326 | the proposals of a frame one by one |
| Replication.ProposalsAreClean | internal/app/replication.go:245-326 | nothing the consumer proposes touches the local directory, its prefix delete included |
| Replication.OwnPartDecides | internal/app/replication.go:245-326 | whatever commands of others commit in between, the copy and its checkpoint hold what the consumer's own commands make of them |
| Replication.LocalIsForeign | internal/app/replication.go:245-326 | a local registration, deregistration or cleanup delete is off the copy's keys |
| Replication.OthersAreForeign | internal/app/replication.go:245-326 | so is everything a consumer of another source or service proposes, its prefix delete included |
| Replication.ProposalsAreOwn | internal/app/replication.go:245-326 | what the consumer itself proposes is all on the copy's keys |
| Replication.RisingIsAccepted | internal/app/replication.go:171-179 | a stream of rising positive revisions is acted on in full |
| Replication.AcceptedInOrder | internal/app/replication.go:171-179 | of any stream exactly the frames whose revision is above 0 and above all earlier ones are acted on, in order |
| Resume.ResumedSessionIsSafe | internal/app/replication.go:275-326 | a session resumed at the stored checkpoint, at any time, and cut after any number of committed proposals leaves a checkpoint that does not run ahead of the data, whatever commands of others commit before, between and after them: whatever no later event is about is right already |
| Resume.CommittedPrefixIsSafe | internal/app/replication.go:275-326 | the same from a given copy, for the consumer's own proposals alone: data without its checkpoint is harmless because delivering the entry again settles the same identity |
| Resume.CompletedSessionConverges | internal/app/replication.go:130-198 | a resumed session that catches up makes the living replicated instances equal to the source's on the carried fields, whatever others commit in between, for every name without a slash; names with one are left as they were |
| Resume.ConvergedByField | internal/app/replication.go:130-198 | what that means for an instance: when the last normal entry of the source that touches its key put a value whose lease has not run out, the copy has its fields; otherwise there is no copy, or one whose lease has run out |
| Resume.SnapshotSessionIsSafe | internal/app/replication.go:245-273 | a completed snapshot leaves a checkpoint that does not run ahead, whatever others commit in between, even when the source was scanned later than its revision or during a redelivery |
| Resume.SafeAsSourceGrows | internal/app/replication.go:275-326 | later source entries do not put a checkpoint ahead |
| Resume.SafeLater | internal/app/replication.go:275-326 | nor does time passing, with leases expiring between sessions |
| Resume.WrittenLogIsGood | internal/registry/model.go:164-225 | a log of what registration, deregistration, cleanup and replication write meets the hypothesis of the theorems here |
| Resume.InterruptedSnapshotSafeExactly | internal/app/replication.go:245-273 | a snapshot cut off before its checkpoint, at any point from its prefix delete on and whatever others commit in between, keeps the old checkpoint; that is harmless if and only if every living instance of the source was put already or is sent again after the old checkpoint |
| Resume.SessionIsOwn | internal/app/replication.go:275-326 | all a resumed session proposes is on the copy's keys, so that commands of others are exactly what lies between |
| Resume.LostDataSafeExactly | internal/app/replication.go:275-326 | when an event's data is lost and its checkpoint commits, the checkpoint does not run ahead if and only if a later event is about the same identity or the copy's living instance is the source's as it is |
| Resume.StaleResumeSafeExactly | internal/app/replication.go:130-136 | a session that read the checkpoint too early sends an event below it again: its data alone is harmless if and only if a later event than the stored checkpoint is about the same identity or what it sends is alive in the source as it is; with its own checkpoint it is harmless |
| Selector.SplitSelectorExpressions | internal/registry/selector.go:133-171 | the loop over start and depth splits exactly at the commas outside parentheses; blank parts and unbalanced parentheses are errors |
| Selector.SplitIsBalanced | internal/registry/selector.go:133-171 | what is split has its parentheses closed in order and all closed, and no part is blank or untrimmed |
| Selector.ParseSetSelectorValues | internal/registry/selector.go:264-284 | trimmed values in order, repeated ones once; a blank value is an error |
| Selector.ParseLabelSelectors | internal/registry/selector.go:67-96 | several selector parameters are joined; one bad expression fails all |
| Selector.SelectorRoundTrip | internal/registry/selector.go:133-262 | every non-empty list of requirements over plain words, printed in the documented syntax and joined by commas, is split and parsed back to the same list |
| Selector.AcceptedSelectorsMatch | internal/registry/selector.go:174-284 | every accepted requirement has a trimmed key and exactly the values its operator reads, so matching never misses one |
| Selector.PrintedIsRead | internal/registry/selector.go:174-262 | each requirement's printed form stays in one piece and parses back to it |
| Selector.PlainWordExactly | internal/registry/selector.go:174-262 | the words meant here: ASCII without white space, comma, parentheses, equals and exclamation signs |
| Selector.WordMeans | internal/registry/selector.go:194-206 | `key` asks for the label and `!key` for its absence |
| Selector.ComparisonMeans | internal/registry/selector.go:182-193 | `key=value` and `key==value` ask for that value, `key!=value` for another one or none |
| Selector.SetMeans | internal/registry/selector.go:209-248 | `key in (...)` asks for one of the values, `key notin (...)` for none of them or no label, the word in any letter case and values repeated or not |
| Selector.ParametersAreJoined | internal/registry/selector.go:67-96 | another parameter adds its requirements behind those of the ones before |
| Selector.MatchesLabelSelector | internal/registry/selector.go:287-299 | a selector matches if and only if each of its requirements does |
| Cleanup.CleanupCursor.Advance | internal/registry/cleanup.go:20-27 | the cursor moves behind the last key of a full page and back to the start after any other |
| Cleanup.Cleaner.CleanupExpiredRegistry | internal/app/app.go:309-351 | one round scans a page from the cursor, or from the start when it is unset, moves the cursor and deletes exactly the expired instances of the rows dealt with; only a lost lead, a refused proposal or the limit stops it early |
| Cleanup.SweptExactly | internal/app/app.go:324-348 | which rows those are, in the fields of the stored values, once each and in order |
| Cleanup.Cleaner.Sweep | internal/app/app.go:371-391 | rounds of the code over a store that changes in between, until the cursor is back at the start, are a sweep: each key that stays is on a page; only leases that have run out are deleted, and all of these on a page when lead and proposals hold |
| Cleanup.DeletedIsAliveExactly | internal/app/app.go:324-348 | the instance a delete removes is alive at commit time if and only if the last command since the scan that wrote its key stored one that is |
| Cleanup.PresentKeyIsVisitedOnce | internal/registry/cleanup.go:11-31 | a key that stays present is visited exactly once by a sweep, whatever else is added or deleted between its rounds |
| Cleanup.PageIsScanned | internal/app/app.go:312-319 | the page a sweep's round visits is what its scan returns |
| Cleanup.SweepInPages | internal/registry/cleanup.go:11-31 | on an unchanged range round k visits exactly the k-th page, and the page that is not full resets the cursor |
| Cleanup.SweepRounds | internal/registry/cleanup.go:11-31 | a sweep of an unchanged range of n keys ends after exactly floor(n / limit) + 1 rounds |
| Cleanup.LimitNeverCutsAPage | internal/app/app.go:324-348 | with a positive limit the count of deletes cannot stop a round before its page ends |
| SnapshotTransfer.SplitSnapshotChunks | internal/runtime/peer_transport.go:169-196 | the loop yields the chunks of the data from offset 0; empty data is one empty end chunk; a size of 0 or less means the default |
| SnapshotTransfer.ChunksArePieces | internal/runtime/peer_transport.go:169-196 | each chunk is the piece of the data at its offset and marks the end if and only if it reaches it |
| SnapshotTransfer.ChunksExactly | internal/runtime/peer_transport.go:169-196 | the chunks lie end to end, all but the last as long as asked for (65536 bytes when nothing positive was), only the last is marked as the end |
| SnapshotTransfer.TransportService.InstallSnapshotChunk | internal/runtime/transport_service.go:56-86 | a chunk is appended only where the buffer ends; the end marker hands the whole buffer over and forgets the session; a refused chunk changes no buffer |
| SnapshotTransfer.TransportService.ReceiveStream | internal/transport/grpc/server.go:98-129 | a stream is handed over chunk by chunk until one is refused or the end marker came |
| SnapshotTransfer.DeliveryIsSafe | internal/runtime/transport_service.go:56-86 | under any loss, repetition, reordering and interleaving of pieces of any sizes every buffer is a prefix of its snapshot and only complete data is installed |
| SnapshotTransfer.DeliveredNext | internal/runtime/transport_service.go:56-86 | what each further chunk of a delivery does: refused, buffered, or the end that installs the whole buffer |
| SnapshotTransfer.UploadInstallsExactly | internal/runtime/transport_service.go:56-86 | an in-order upload installs the snapshot if and only if nothing of it is buffered yet; otherwise it is refused and nothing changes, so every retry fails too |

## Left out

- Wal.FileWAL.Append: one append is one atomic durable step in the recovery model; of crashes between its file writes only a cut-off file, the removals of a tail rewrite and a hard state without its entries are treated, on their own.
- Wal.FileWAL.TruncatePrefix: likewise one atomic durable step there; the temporary files of replaced segments and of the hard state do not appear, since they are renamed as a whole.
- Wal.FileWAL.Open: a hard-state file that does not decode, and input/output errors, are not modelled.
- RaftNode.RaftNode.HandleReady: the branch for a snapshot inside a Ready batch, outbound messages, the event channel that drops batches when full, and membership changes inside the library are not modelled; the stores' errors, which the code ignores, cannot occur on the open stores of the model.
- RaftNode.RaftNode.MaybeTriggerSnapshot: the term the library records for the snapshot is a parameter; the membership configuration stored with it is not modelled.
- ReadBarrier.ReadService.Poll: the polling loop is one look at a time; looks, confirmations, batches and the store read after a look interleave freely, each as a whole step.
- ReadBarrier.ReadService.Get: one store read is one step; when redelivery lowers the reported index between a look and the read, nothing is promised.
- ReadBarrier.ReadService.Receive: a select that sees both an answer and a cancellation may take either; a request that gives up after its answer came is the giving up alone.
- ReadBarrier.ReadService.Register: the numbered default context for an empty request context is not modelled.
- WatchHub.WatchHub.Publish: sends and the removal of slow watchers happen in one step with the history update; races with an unsubscription between them are not modelled.
- Directory.QueryInstances: the fallback of queries to replicated instances on an empty result (internal/transport/http/handlers_impl.go:888-917) is left out.
- WatchStream.WatchInstances: HTTP, the text framing of events, keepalives and cancelled requests; a cancelled stream is a prefix of the modelled one.
- Mirror.MirrorTheorem: the log holds what registration, deregistration, cleanup and replication write; a write of an undecodable value under a local key, or a prefix delete there, is none of these.
- Resume.ResumedSessionIsSafe: the configured source itself - region, cluster, namespace, service - is taken without slashes; with them its keys do not parse (see `RegistryKeys.ReplicatedKeyRoundTrip` for what is proved of keys).
- Mirror.SnapshotIsView: assumes no limit.
- Directory.NarrowedScanIsSame: assumes that local keys are text without byte 0xFF and that values that decode lie under the key built from them, with a trimmed service name, as registration leaves them; label, metadata and endpoint cloning copies values as they are.
- Selector.SelectorRoundTrip: keys and values are non-empty ASCII words without white space; lower-casing and trimming are modelled for ASCII only, and the older label parameter is left out.
- Replication.Consumer.RunStream: text framing and JSON decoding of the stream and metrics are left out; a proposal that fails locally is taken not to commit later, and one consumer of a source runs at a time.
- Cleanup.Cleaner.CleanupExpiredRegistry: lease arithmetic is unbounded; its 64-bit overflow is not modelled.
- SnapshotTransfer.TransportService.InstallSnapshotChunk: the installation that follows runs beside the Ready loop and is not part of the recovery model (internal/raftnode/service.go:191-236).
- The Raft library, HTTP, gRPC, protobuf, JSON, Pebble and SHA-256: represented by what their callers rely on, codecs by abstract functions that read back what they wrote.
- Member addresses as commands, configuration, command line, metrics, Prometheus discovery and the in-memory stores for tests: they would add only easy members.
