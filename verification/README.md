# Haura: a model of its storage stack, with proofs

Haura stores keys and objects in B^epsilon-trees on top of copy-on-write block storage. This
project models the parts of it that are hardest to get right and proves what they promise. Each
component is a few modules: a state or data model, the operations, the lemmas about them, and
where the program updates things in place a class whose methods are proved against the model.
`dafny verify dfyconfig.toml` checks everything.

| component | modules |
|---|---|
| object lifecycle and write-back of the data management unit (DMU) | `DmuState`, `DmuForest`, `DmuSteps`, `DmuInvariant`, `DmuEdits`, `DmuTheorems`, `DmuViews`, `Dmu` |
| the Parity1 vdev (one parity column, rotating) | `Parity1Layout`, `Parity1Code`, `Parity1Model`, `Parity1` |
| space management, sync, superblocks, recovery | `SpaceState`, `SpaceInvariant`, `SpaceTheorems`, `SpaceReuse`, `Database` |
| messages: upserts, apply, merge | `Upserts`, `Messages` |
| the B^epsilon-tree: buffers, flush, split, merge, lookup | `Keys`, `BeTree`, `BeTreeSteps`, `BeTreeEffects`, `BeTreeTheorems` |
| snapshots and the deadlist | `SnapshotState`, `SnapshotTheorems`, `SnapshotReclaim`, `Snapshots`, `RootKeys` |
| allocation inside a segment, and the search for a segment | `SegmentAllocator`, `SegmentScan` |
| the CLOCK cache and its circular list | `Clock`, `ClockCache` |
| objects in chunks | `Chunks` |

How the model abstracts: a DMU node is a payload and a sequence of child references; a step of
the DMU is what happens under one lock; a vdev leaf is a byte sequence that may answer a read
correctly, with an error or with arbitrary bytes, and may lose a write; a checksum accepts
exactly the data that was written; a flush makes all earlier block writes durable, and a crash
may leave anything in unflushed blocks and in a superblock slot that is being written.
Integers are unbounded; where a width matters (30-bit upsert offsets, 32-bit lengths and chunk
ids, 64-bit keys, packed disk offsets) it is written out as a bound.

## Where the code does not keep a promise

Each of these is a pair: a concrete or general failing case, and the exact condition under
which the promise holds.

* **Stealing on a read.** `get` steals the object when a storage hint is pending, also when the
  reference it was given sits in a node that is not itself modified. The invariant of the
  protocol survives exactly if the holder is modified or a root
  (`DmuTheorems.HintStealSafeIff`); a short run gets to a clean holder
  (`DmuTheorems.HintStealReachesCleanParent`).
* **The old root.** After a sync, `old_root_allocation` protects as many blocks as the pointer
  asks for, not as many as the vdev uses. Allocation avoids the synced tree exactly if the two
  agree (`SpaceTheorems.OldRootProtectedIff`); on Parity1 they never do
  (`SpaceTheorems.ParityRootsAreLarger`). A run from a created database ends with the newest
  superblock describing an overwritten block (`SpaceTheorems.LargeRootIsOverwritten`). Crash
  consistency is proved for roots of which the two agree.
* **Inserting below the root.** The comment on `insert` says that it walks down only past
  buffers without a message for the key; the code walks past any buffer. A message inserted
  below an older one is replayed before it. Inserting takes effect as the newest message
  exactly if no passed buffer holds the key (`BeTreeTheorems.InsertIsNewestIff`,
  `BeTreeTheorems.HiddenInsert`).
* **Merging an empty upsert over a deletion.** It leaves the deletion, where applying both
  leaves an empty value. This is the only pair of messages for which merging and applying
  differ (`Messages.MergeActs`, `Messages.BlankOverDelete`).
* **Taking a snapshot.** `create_snapshot` does not tell the handler about the new snapshot, so
  until the dataset is opened again its blocks can be given back
  (`SnapshotTheorems.StaleHandler`, `SnapshotTheorems.KillIsSafeIff`,
  `SnapshotTheorems.CoverageOf`). It also snapshots the last synced root, from which blocks may
  have been given back since (`SnapshotTheorems.ChangedRoot`). The new snapshot is whole exactly
  if no step since that sync freed a block of the root (`SnapshotTheorems.CreateIsSafeIff`).
* **Deleting a snapshot.** The record of a deleted snapshot stays, and `next_snapshot_id` takes
  it for a live one. If the newer of two snapshots is deleted first, blocks that both held stay
  in the deadlist for ever (`SnapshotReclaim.NewestFirstLeaks`). A step leaves such a block
  exactly under the conditions of `SnapshotReclaim.StepLeaksIff`; with deletions oldest first
  everything is given back (`SnapshotReclaim.GivenBackExactly`).
* **Scrubbing an unreadable parity.** Zeros are taken in its place, so it is rewritten exactly if
  the parity of the data is not zero (`Parity1Model.FoundOutByScrub`).

## Model

| member | source | states |
|---|---|---|
| DmuTheorems.RunsAreSafe | betree/src/data_management/dmu.rs:226-241 | over every interleaving of edits, fixes, steals, fetches, evictions and write-back stages, neither `unwrap` (on `written_back` and on `modified_info`) fails and the invariant holds throughout |
| DmuTheorems.AnyStepKeepsInv | betree/src/data_management/dmu.rs:191-549 | every step of the protocol, enabled in a state with the invariant, does not panic and keeps the invariant (a forest without cycles in which every object has exactly one holder, every modified id one place, every pointer one owner) |
| DmuTheorems.EveryObjectUnderARoot | betree/src/data_management/dmu.rs:191-549 | in every state with the invariant every object, in memory or on disk, can be reached from a root: nothing is lost in a cycle |
| DmuTheorems.OnePlace | betree/src/data_management/dmu.rs:226-241 | a reference that is not clean denotes exactly one of: a cached modified object, a cached object in write-back, an entry of `written_back`; and no other reference denotes it |
| DmuTheorems.UnitStepsKeepViews | betree/src/data_management/dmu.rs:191-549 | eviction, write-back, fetch, `fix_or` and `steal`, in any order and number, leave the tree seen through every root unchanged to every depth |
| DmuTheorems.NoLostUpdate | betree/src/data_management/dmu.rs:865-883 | an update of a modified object is what every root sees after any later evictions, write-backs, fetches and steals, and it changes nothing else |
| DmuTheorems.MutateView | betree/src/data_management/dmu.rs:865-883 | a mutation changes what is seen through a reference exactly at the mutated object, wherever it occurs |
| DmuTheorems.Conservation | betree/src/data_management/dmu.rs:505-529 | every pointer ever written is in exactly one of a running write-back, `written_back`, one clean reference, or released; `copy_on_write` is called at most once for it |
| DmuTheorems.StealOvertakes | betree/src/data_management/dmu.rs:191-218 | stealing an object in write-back leaves its old id without any place |
| DmuTheorems.OvertakenIsNeverCurrent | betree/src/data_management/dmu.rs:505-529 | over every later run, an overtaken id never regains a place and its pointer stays in the running write-back or is released |
| DmuTheorems.HintStealSafeIff | betree/src/data_management/dmu.rs:851-857 | the steal inside `get` keeps the invariant if and only if the holder of the reference is a root or a modified node |
| DmuTheorems.HintStealUnderClean | betree/src/data_management/dmu.rs:851-857 | under a clean holder the steal releases a pointer that the packed parent still refers to |
| DmuTheorems.HintStealUnderWriteback | betree/src/data_management/dmu.rs:851-857 | under a holder in write-back the steal releases a pointer that the copy being written, or already written, still refers to |
| DmuTheorems.HintStealReachesCleanParent | betree/src/data_management/dmu.rs:851-857 | a run from the empty unit reaches such a holder: insert a parent and a child, write both back, then read the child with a pending hint |
| DmuInvariant.StepKeepsShape | betree/src/data_management/dmu.rs:191-549 | every step of the unit is a renaming of at most one object: all other slots keep what they denote |
| DmuInvariant.StealPossible | betree/src/data_management/dmu.rs:191-218 | in a state with the invariant a steal finds a fresh id and the one cached copy |
| DmuEdits.EditKeepsInv | betree/src/data_management/dmu.rs:885-943 | inserting an object with children, moving a tree under a node outside it, taking a child out, mutating and removing keep the invariant |
| DmuEdits.RemoveSafeIff | betree/src/data_management/dmu.rs:926-943 | removing an object that is no longer held keeps the invariant if and only if it has no children; otherwise they become unreachable |
| DmuForest.ShapeKeepsView | betree/src/data_management/dmu.rs:191-549 | a step that only renames an object keeps the tree seen through every slot to every depth |
| Dmu.Dmu.FixOr | betree/src/data_management/dmu.rs:226-241 | the reference moves on by exactly one stage: to write-back, or to the pointer it waits under, which is collected; the unwrap does not fail and all views are unchanged |
| Dmu.Dmu.Steal | betree/src/data_management/dmu.rs:191-218 | with the object cached under the reference's key, re-keys it to a fresh modified id and gives up the old pointer; otherwise only consumes an id; changes no view |
| Dmu.Dmu.Fetch | betree/src/data_management/dmu.rs:281-296 | caches the disk copy of a pointer; changes no view |
| Dmu.Dmu.Get | betree/src/data_management/dmu.rs:835-863 | after at most two fixes of the reference the object it denotes is cached under its key and returned; changes no view |
| Dmu.Dmu.GetMut | betree/src/data_management/dmu.rs:865-883 | afterwards the reference and the cache key are in the modified state and all views are unchanged; nothing changes if they were, otherwise the id is new and recorded for the dataset |
| Dmu.Dmu.Insert | betree/src/data_management/dmu.rs:885-899 | the object is cached under a fresh modified id with the payload it was given over the trees it takes over, in their order and to every depth; all other roots read as before |
| DmuViews.InsertView | betree/src/data_management/dmu.rs:885-899 | in every state with the invariant the new root reads as the given payload over what the last roots read, and no other view changes |
| DmuViews.TakeChildView | betree/src/data_management/dmu.rs:865-883 | an edit that takes a child out of a modified node: the node loses exactly that tree, which is what the new root reads, and trees without the node stay |
| DmuViews.PutChildView | betree/src/data_management/dmu.rs:865-883 | an edit that puts a tree into a modified node: the node gains exactly that tree at that place, and trees without the node stay |
| DmuViews.RemoveView | betree/src/data_management/dmu.rs:926-943 | a removed object is gone, and every other root reads as before |
| DmuViews.EvictThenFetch | betree/src/data_management/dmu.rs:281-296 | fetching an evicted clean object restores the state |
| DmuViews.OwnerIsKnown | betree/src/data_management/dmu.rs:191-218 | over every run, as long as an object is modified or being packed, the dataset recorded for it is the one that inserted or stole it |
| Dmu.Dmu.SettleChild | betree/src/data_management/dmu.rs:751-766 | fixes a child reference until it is clean or denotes a modified object, and says which |
| Dmu.Dmu.PrepareWriteBack | betree/src/data_management/dmu.rs:730-791 | absent exactly if the object is no longer modified; ready exactly if all its children are on disk, and then it is in write-back; otherwise exactly its modified children are appended for writing first; the views are unchanged |
| Dmu.Dmu.HandleWriteBack | betree/src/data_management/dmu.rs:411-549 | a fresh pointer of the current generation is written and entered in `written_back`, the recorded dataset is consumed, a clean copy stays cached exactly if it was not to be evicted, and the views are unchanged |
| Dmu.Dmu.WriteDependencies | betree/src/data_management/dmu.rs:1016-1039 | empties the stack of modified children, writing each once, and makes progress |
| Dmu.Dmu.WriteBack | betree/src/data_management/dmu.rs:990-1044 | terminates; writes every modified object it meets exactly once; the packed tree behind the returned pointer equals the tree in memory to every depth |
| Dmu.ModifiedAreRanked | betree/src/data_management/dmu.rs:1016-1039 | the modified objects of every state with the invariant can be written bottom up: modified children rank below their parents |
| Dmu.CleanViewIsOnDisk | betree/src/data_management/impls.rs:127-144 | since only clean references are packed, what is seen through a clean reference is the packed tree on disk, to every depth |
| Parity1Layout.LayoutExact | betree/src/vdev/parity1.rs:481-527 | the leaf blocks of a request are exactly the image of the contiguous range [offset, offset + actual_size) under b -> (b mod n, b div n) |
| Parity1Layout.DisjointRequests | betree/src/vdev/parity1.rs:61-63 | requests with disjoint vdev ranges share no leaf block |
| Parity1Layout.InRange | betree/src/vdev/parity1.rs:69-72 | a request within the reported size touches only blocks that exist on the leaves |
| Parity1Layout.DiskIterIsStripes | betree/src/vdev/parity1.rs:498-512 | the iteration over disks visits column i at the leaf and row the repair code recomputes |
| Parity1Layout.ColumnsCover | betree/src/vdev/parity1.rs:481-496 | the columns, laid end to end at their computed offsets, are exactly the request |
| Parity1Layout.OneStripePerLeaf | betree/src/vdev/parity1.rs:498-512 | every leaf carries exactly one stripe of a request |
| Parity1Layout.StripeLenExact | betree/src/vdev/parity1.rs:37-56 | stripe r has a row j exactly if vdev block j * n + r belongs to the request |
| Parity1Code.RebuiltIsOriginal | betree/src/vdev/parity1.rs:219-238 | XOR of the parity and all other columns is the lost column, padded columns included |
| Parity1Code.CandidateRestores | betree/src/vdev/parity1.rs:304-343 | reconstructing the one bad column with good parity restores the written data |
| Parity1Code.CandidateBlames | betree/src/vdev/parity1.rs:304-343 | a candidate that equals the written data blames a column outside of which the read data was right |
| Parity1Code.XorInto | betree/src/vdev/parity1.rs:475-479 | XORs a buffer byte by byte into a possibly longer one |
| Parity1Code.BuildParity | betree/src/vdev/parity1.rs:456-473 | the parity column is the XOR of all columns, zero-padded to the longest |
| Parity1Code.Rebuild | betree/src/vdev/parity1.rs:219-238 | the loop computes the missing column from parity and the other columns |
| Parity1Code.FindBadColumn | betree/src/vdev/parity1.rs:304-343 | the first column whose replacement passes the checksum, or none if there is none |
| Parity1Model.InRangeFits | betree/src/vdev/parity1.rs:69-72 | a request within the reported size fits on the leaves, in bytes |
| Parity1.AtMostOneError | betree/src/vdev/parity1.rs:413-425 | the result loop succeeds if and only if at most one write failed |
| Parity1.Parity1.Write | betree/src/vdev/parity1.rs:380-427 | succeeds if and only if at most one leaf write failed; every leaf changes only in its own stripe, to the column or parity or the debris of its failed write |
| Parity1.Parity1.ReadColumns | betree/src/vdev/parity1.rs:159-187 | reads the non-empty columns, tolerating one error; gives up only if two leaves are silent |
| Parity1.Parity1.Read | betree/src/vdev/parity1.rs:137-376 | a returned buffer passes the checksum, and nothing outside the stripes of the request changes; with at most one bad leaf the data is returned and stays stored; the bad stripe is rewritten if and only if the leaf is found out - its column answers with an error or other bytes, or in a scrub its parity is wrong - and is then stored completely unless that write fails |
| Parity1.Parity1.ScrubParity | betree/src/vdev/parity1.rs:272-302 | the parity is rewritten if and only if it is not the parity of the data; only the stripes of the request change, and the data stays stored |
| Parity1.Parity1.Reconstruct | betree/src/vdev/parity1.rs:304-376 | the column the checksum singles out is the bad one: the original data is returned and its stripe rewritten; only the stripes of the request change |
| Parity1Model.WriteStores | betree/src/vdev/parity1.rs:380-427 | after a successful write the data is stored with its parity except on at most the one leaf whose write failed |
| Parity1Model.WithinKeepsOthers | betree/src/vdev/parity1.rs:137-427 | whatever a request does within its own stripes - a write, a failed one, the repair of a read - every request stored in a disjoint vdev range stays as it was |
| Parity1.WriteThenRead | betree/src/vdev/test.rs:281-322 | a write with at most one failing leaf can be read back while that leaf misbehaves, after any run of other writes, reads and scrubs whose leaves may misbehave arbitrarily |
| Parity1.Serve | betree/src/vdev/parity1.rs:137-427 | over every run of writes and reads elsewhere, and of reads and scrubs of the data in which one leaf misbehaves, the data stays stored and each of those reads returns it |
| Parity1.RepairThenRead | betree/src/vdev/parity1.rs:137-376 | after a read or scrub that found out the bad leaf and whose write was taken, the data is read back although another leaf has gone bad |
| Parity1Model.FoundOutByScrub | betree/src/vdev/parity1.rs:200-302 | a scrub finds out a leaf that answers as it can exactly if it holds wrong bytes, and a leaf that reports errors unless it carries a parity of zeros |
| SpaceTheorems.CrashConsistency | betree/src/database/mod.rs:557-619 | after every run of a created database, crashes included, a crash at any point recovers the last completed sync or the one in progress, never an older one, with every block of that tree intact |
| SpaceTheorems.GrantsAreFresh | betree/src/database/handler.rs:166-215 | no granted range overlaps a block of the last synced tree, a block in use, or another range granted in the generation |
| SpaceReuse.WrittenIsDurable | betree/src/database/mod.rs:557-619 | over every run, a block written with a node or a root holds what was written until it is given up, and once a sync has completed a crash at any point recovers a tree that has it |
| SpaceReuse.ReleasedIsReclaimed | betree/src/database/handler.rs:232-271 | after a range is given up, the next completed sync publishes a tree without it, and from then on, crashes included, every allocator shows it free until it is handed out again |
| SpaceReuse.AllocatorsAreExact | betree/src/database/handler.rs:166-215 | a cached or freshly loaded allocator has the bits of the last synced tree and of what was handed out since, and no others |
| SpaceReuse.UnflushedMayBeLost | betree/src/database/mod.rs:593-594 | until the pool is flushed a crash may leave anything in a written block |
| SpaceTheorems.StepKeepsInv | betree/src/database/mod.rs:543-619 | loading an allocator, granting, releasing, flushing a message, each stage of a sync, and a crash keep the invariant |
| SpaceTheorems.RunKeepsInv | betree/src/database/mod.rs:543-619 | the invariant holds over every run |
| SpaceTheorems.OldRootProtectedIff | betree/src/database/mod.rs:608-611 | after a sync, grants in the root's segment avoid the synced tree if and only if the root occupies exactly the size in its pointer |
| SpaceTheorems.LargeRootIsOverwritten | betree/src/database/mod.rs:608-611 | a run from a created database: sync a root that occupies two blocks for one, then allocate; the newest superblock describes a tree of which a block was overwritten |
| SpaceTheorems.ParityRootsAreLarger | betree/src/vdev/parity1.rs:61-63 | on Parity1 every non-empty root occupies more blocks than its pointer says |
| SpaceInvariant.GrantIsFree | betree/src/database/handler.rs:166-215 | the union of current bitmap, last synced bitmap and old root makes every free bit of a loaded allocator safe to grant |
| SpaceInvariant.RecoveryPicksTop | betree/src/database/superblock.rs:54-64 | the newest superblock over all vdevs is the last completed one, or the one in progress |
| SpaceInvariant.CrashRecovers | betree/src/database/mod.rs:453-457 | recovery from any crash yields a state with the invariant |
| Database.FetchSuperblocks | betree/src/database/superblock.rs:54-64 | returns a readable superblock of the highest generation, none exactly if there is none |
| Database.Database.GetAllocationBitmap | betree/src/database/handler.rs:166-215 | the cached or freshly built allocator has exactly the bits of the last synced tree and of what was handed out in this generation; everything in use is among them |
| Database.Database.Allocate | betree/src/database/handler.rs:117-163 | marks a free range in the allocator of its segment, delays its message and counts the allocation; keeps the invariant |
| Database.Database.AllocateIn | betree/src/data_management/dmu.rs:636-689 | grants the first range of the segment of which no block is of the last synced tree or was handed out since; none if and only if there is no such range |
| Database.Database.CopyOnWrite | betree/src/database/handler.rs:232-271 | the range is no longer in use, its deallocation is queued, and its blocks stay allocated for this generation |
| Database.Database.FlushDelayedMessages | betree/src/database/mod.rs:543-554 | applies the delayed messages to the bitmap in order until none is left |
| Database.Database.WriteSuperblock | betree/src/database/superblock.rs:67-80 | overwrites on every vdev the slot of the generation's parity and keeps the other |
| Database.Database.Sync | betree/src/database/mod.rs:557-619 | the loop is left at the first pass with at most one allocation, and no message is delayed when that pass writes the root: the published bitmap knows of every allocation and release but that of the root; afterwards the generation is bumped, no allocator is cached, the newest superblock names the new root, and the recorded tree is exactly the blocks in use, intact on disk; what was given up before is in no tree and free |
| Upserts.RoundTrip | betree/src/tree/default_message_action.rs:111-189 | parsing the encoding of a list of byte and bit upserts yields the list |
| Upserts.ParseBody | betree/src/tree/default_message_action.rs:111-189 | an encoded list followed by any bytes parses to the list followed by their parse |
| Upserts.EncodeConcat | betree/src/tree/default_message_action.rs:264-275 | the encoding of a concatenation is the concatenation of the encodings |
| Upserts.EncodedLayout | betree/src/tree/default_message_action.rs:165-189 | byte for byte: two bits of mode over thirty of offset, the length, the data, in little-endian words |
| Upserts.UpsertIter.Next | betree/src/tree/default_message_action.rs:117-162 | one turn of the cursor yields the next upsert and moves past it, or ends |
| Upserts.ByteUpsertMeaning | betree/src/tree/default_message_action.rs:211-227 | a byte upsert sets its bytes, keeps all others, zero-fills a gap, and grows the value no further than needed |
| Upserts.BitUpsertMeaning | betree/src/tree/default_message_action.rs:228-242 | a bit upsert sets exactly the bits of its range, lowest bit first, and grows the value to the last byte needed |
| Upserts.ApplyAllSets | betree/src/tree/default_message_action.rs:192-249 | applying a list of upserts sets the range of each, the first one first, and nothing else, as a relation on bytes and bits |
| Upserts.SetsAllOne | betree/src/tree/default_message_action.rs:192-249 | that relation determines the resulting value |
| Messages.BuildUpsertMsg | betree/src/tree/default_message_action.rs:264-275 | the loop builds the tag followed by the encoded upserts |
| Messages.ApplyUpserts | betree/src/tree/default_message_action.rs:192-249 | the cursor loop sets exactly the ranges of the parsed upserts in their order, starting from the old value or from nothing |
| Messages.ApplyMsg | betree/src/tree/default_message_action.rs:303-317 | a deletion gives nothing, an insertion its data, and an upsert message the old value with exactly the ranges of its upserts set in their order |
| Messages.BuiltMessagesAct | betree/src/tree/default_message_action.rs:251-317 | a built insertion, deletion and upsert message give the data, nothing, and the old value with exactly the given ranges set |
| Messages.OneMoreUpsert | betree/src/tree/default_message_action.rs:192-249 | a message of no upserts keeps the bytes; one more upsert sets exactly its range and length |
| Messages.MergeMsgs | betree/src/tree/default_message_action.rs:319-357 | branch for branch the merge; on every value it acts as the lower and then the upper message except for a blank upsert over a deletion; an upsert over an overwrite is an insertion with exactly the ranges set |
| Messages.MergeActs | betree/src/tree/default_message_action.rs:319-357 | for all well-formed messages and every value, applying the merged message equals applying lower and then upper, if and only if not (upper is an empty upsert and lower a deletion) |
| Messages.BlankOverDelete | betree/src/tree/default_message_action.rs:330-333 | the failing pair, with both results |
| Messages.MergeWellFormed | betree/src/tree/default_message_action.rs:319-357 | merging well-formed messages yields a well-formed one |
| Messages.MergeAssociative | betree/src/tree/default_message_action.rs:319-357 | merging is associative byte for byte on every three well-formed messages |
| Keys.Successor | betree/src/tree/imp/internal/packed_child_buffer.rs:640-660 | the keys below the pivot followed by a zero byte are exactly those up to and including the pivot |
| BeTreeTheorems.SearchFindsChild | betree/src/tree/imp/internal/copyless_internal.rs:282-290 | both answers of the binary search in sorted pivots name the child whose range holds the key |
| BeTree.PushGet | betree/src/tree/imp/node.rs:639-666 | inserting a buffer of messages into a node acts on the lookup of every key like that key's message |
| BeTreeTheorems.InsertMsgBuffer | betree/src/tree/imp/node.rs:639-666 | inserting the messages one by one, in any order, merges each with the message or value already there |
| BeTreeTheorems.InsertMsg | betree/src/tree/imp/internal/packed_child_buffer.rs:693-771 | a message meets a vacant or occupied entry: stored or merged in a buffer, applied in a leaf, an entry without value removed |
| BeTreeSteps.FlushGet | betree/src/tree/imp/flush.rs:126-132 | taking a child's buffer and inserting it into the child changes no lookup |
| BeTreeEffects.FlushMovesMessages | betree/src/tree/imp/flush.rs:126-132 | afterwards the buffer of the child is empty, its node alone answers every key as buffer and node did together, and pivots and other children are the same |
| BeTreeSteps.SplitChildGet | betree/src/tree/imp/internal/copyless_internal.rs:750-795 | splitting a child and its buffer at a pivot changes no lookup |
| BeTreeEffects.SplitSharesKeys | betree/src/tree/imp/internal/copyless_internal.rs:750-795 | one child becomes two around the pivot, cut in the middle, that answer for the keys up to it and above it and for no others; nothing else changes |
| BeTreeSteps.MergeChildrenGet | betree/src/tree/imp/internal/copyless_internal.rs:856-886 | merging two children and their buffers changes no lookup |
| BeTreeEffects.MergeSharesKeys | betree/src/tree/imp/internal/copyless_internal.rs:856-886 | two children and their pivot become one child that answers for the keys of both; nothing else changes |
| BeTreeSteps.RebalanceIsMergeAndSplit | betree/src/tree/imp/internal/copyless_internal.rs:893-912 | moving the boundary between two leaves, with their buffers, is the same as merging them and splitting the result |
| BeTreeSteps.SplitThenJoin | betree/src/tree/imp/internal/copyless_internal.rs:586-653 | merging the halves of a split node gives back the node |
| BeTreeSteps.SiblingsAlike | betree/src/tree/imp/node.rs:764-786 | siblings are both leaves or both internal, so `merge` never meets its unreachable case |
| BeTreeSteps.DoKeeps | betree/src/tree/imp/flush.rs:50-194 | flush, split and merge keep sorted pivots, key ranges and equal depth, and every lookup |
| BeTreeTheorems.SplitRootKeeps | betree/src/tree/imp/node.rs:435-497 | splitting the root adds a level, keeps the invariant and every lookup |
| BeTreeTheorems.SplitRootCuts | betree/src/tree/imp/node.rs:435-497 | the new root has one pivot and the two halves under empty buffers |
| BeTreeTheorems.DoAtKeeps | betree/src/tree/imp/flush.rs:50-194 | the same anywhere in the tree |
| BeTreeTheorems.DoAtThere | betree/src/tree/imp/flush.rs:50-194 | the step is done at the node the path leads to, and nodes off the path stay |
| BeTreeTheorems.InsertIsNewestIff | betree/src/tree/imp/mod.rs:515-566 | inserting d levels down takes effect as the newest message, whatever the message, if and only if no buffer on the way holds a message for the key |
| BeTreeTheorems.HiddenInsert | betree/src/tree/imp/internal/copyless_internal.rs:686-693 | a tree in which the code inserts below an older message and the lookup returns the older value |
| BeTreeTheorems.InsertElsewhere | betree/src/tree/imp/mod.rs:515-566 | inserting changes no other key |
| BeTreeTheorems.LookupsReplayInserts | betree/src/tree/imp/mod.rs:417-457 | over every run of inserts, flushes, splits, merges and root splits anywhere in the tree, a lookup yields what the inserted messages make of the first value, in their order |
| BeTreeTheorems.LookupsFromEmpty | betree/src/tree/imp/mod.rs:417-457 | in a tree that was created empty a lookup yields what the messages inserted for the key make of nothing, and nothing if there were none |
| BeTreeTheorems.GetWithInfo | betree/src/tree/imp/mod.rs:417-457 | collecting messages on the way down and applying them in reverse yields the value of the key |
| SnapshotTheorems.SnapshotsStayWhole | betree/src/database/snapshot.rs:53-169 | over every run in which the handler knows the newest snapshot when it gives up a block and nothing of a root was given up before it is snapshotted, every block of every live snapshot is still there |
| SnapshotTheorems.SnapshotsOfADataset | betree/src/database/snapshot.rs:53-169 | the same from the creation of the dataset on |
| SnapshotTheorems.StepKeepsInv | betree/src/database/snapshot.rs:53-169 | every step keeps the places of blocks, and no live snapshot lies between a record and its previous one or above the newest |
| SnapshotTheorems.FreedOnce | betree/src/database/snapshot.rs:134-154 | no step gives back a block twice, and only kills and deletions give back any |
| SnapshotTheorems.ReleasedIsUnused | betree/src/database/snapshot.rs:134-154 | a block a deletion releases is in no other live snapshot |
| SnapshotTheorems.DeleteIsSafe | betree/src/database/snapshot.rs:98-157 | deleting a snapshot is always safe for the others |
| SnapshotReclaim.DeleteReclaims | betree/src/database/snapshot.rs:98-157 | between live neighbours a deletion leaves no entry that no snapshot needs |
| SnapshotReclaim.StepLeaksIff | betree/src/database/snapshot.rs:98-157 | if the deadlist held only what live snapshots hold, it does so after a step if and only if the step did not enter a block born after every live snapshot, nor skip an entry that only the deleted snapshot held |
| SnapshotReclaim.NewestFirstLeaks | betree/src/database/snapshot.rs:98-169 | a run that deletes the newer of two snapshots first and leaves a block in the deadlist for ever |
| SnapshotReclaim.GivenBackExactly | betree/src/database/snapshot.rs:53-169 | from the creation of the dataset on, over every run with the provisos of `SnapshotsStayWhole` in which snapshots are deleted oldest first and the handler does not rely on a deleted one, a block that was given up is given back if and only if no live snapshot holds it |
| SnapshotReclaim.KillMeans | betree/src/database/handler.rs:232-287 | a block that is given up leaves all later roots and no earlier one; it is given back at once exactly if the handler takes it for new, else entered in the deadlist |
| SnapshotTheorems.KillIsSafeIff | betree/src/database/handler.rs:232-287 | giving up a block is safe if and only if not (the handler takes it for newer than the newest snapshot while a live snapshot at or after its birth exists) |
| SnapshotTheorems.CoverageOf | betree/src/database/dataset.rs:112-119 | opening the dataset makes the handler know a snapshot at least as new as every live one; every step but taking a snapshot keeps that, and taking one always ends it |
| SnapshotTheorems.CreateIsSafeIff | betree/src/database/snapshot.rs:53-75 | sync, then any run, then a snapshot of that root: it is whole if and only if no step of the run gave up a block of the root that the handler took for newer than its newest snapshot, or deleted a snapshot that still held one |
| SnapshotTheorems.RunLoses | betree/src/database/snapshot.rs:53-75 | over every run, a block of a root is lost afterwards if and only if one was lost before or some step of the run frees one |
| SnapshotTheorems.StaleHandler | betree/src/database/snapshot.rs:53-75 | a run without reopening in which a block of a live snapshot is given back |
| SnapshotTheorems.ChangedRoot | betree/src/database/snapshot.rs:53-75 | a run in which a snapshot is taken of a root with a block already given back |
| Snapshots.Dataset.CopyOnWrite | betree/src/database/handler.rs:232-287 | gives a block back or enters it into the deadlist with birth and current generation; safe when covered |
| Snapshots.Dataset.CreateSnapshot | betree/src/database/snapshot.rs:53-75 | records the snapshot; it is whole exactly if no block of its root was given back, which holds if none was given up since the sync |
| Snapshots.Dataset.NextSnapshotId | betree/src/database/snapshot.rs:158-169 | the least recorded id above the given one, none exactly if there is none |
| Snapshots.Dataset.DeleteSnapshot | betree/src/database/snapshot.rs:98-157 | unlinks the snapshot from its neighbours and gives back what only it needed; keeps all others whole |
| Snapshots.ReleaseRange | betree/src/database/snapshot.rs:134-154 | removes from the deadlist, and releases, exactly the entries in the key range whose birth is after the previous snapshot |
| Snapshots.RangeReleases | betree/src/database/snapshot.rs:134-154 | the keys from `min_key` to `max_key` and the test on the birth select exactly the entries that no live snapshot holds |
| Snapshots.FirstLater | betree/src/database/snapshot.rs:158-169 | the first key of the range of later records is the next snapshot |
| Snapshots.Dataset.OpenDataset | betree/src/database/dataset.rs:112-119 | loads the newest snapshot into the handler, which then covers all live ones |
| RootKeys.BigEndianOrder | betree/src/database/root_tree_msg.rs:144-177 | big-endian numbers, followed by anything, compare in byte order like the numbers first and what follows second |
| RootKeys.DeadRangeToNext | betree/src/database/root_tree_msg.rs:144-155 | the key range up to the next snapshot holds exactly the dataset's entries with death after the snapshot and not after the next one |
| RootKeys.DeadRangeToEnd | betree/src/database/root_tree_msg.rs:157-164 | the key range up to the end of the dataset holds exactly its entries with death after the snapshot |
| RootKeys.LaterRecords | betree/src/database/root_tree_msg.rs:105-121 | the key range of `next_snapshot_id` holds exactly the dataset's later records |
| RootKeys.DataKeyOrder | betree/src/database/root_tree_msg.rs:105-111 | record keys are ordered by dataset and then by id, so the first one in the range is the next snapshot |
| RootKeys.DeadKeyParts | betree/src/database/root_tree_msg.rs:166-177 | dataset, generation and offset can be read back from a deadlist key |
| SegmentAllocator.SegmentAllocator.Allocate | betree/src/allocator.rs:39-62 | returns the lowest offset at which the size is free, none if and only if there is none, marks exactly that range, and keeps all grants disjoint and the list exact |
| SegmentAllocator.SegmentAllocator.AllocateAt | betree/src/allocator.rs:65-115 | succeeds if and only if the range is in bounds and free, marks exactly that range, and keeps all grants disjoint and the list exact |
| SegmentAllocator.FreeRuns | betree/src/allocator.rs:133-149 | the scan lists, in order, exactly the maximal free runs of the bitmap |
| SegmentAllocator.FirstFit | betree/src/allocator.rs:44-47 | the first large enough entry; no free range of that size starts before it |
| SegmentAllocator.TakeFromEntry | betree/src/allocator.rs:80-111 | each of the four cases leaves the list exact for the bitmap with the range marked |
| SegmentAllocator.CarveOut | betree/src/allocator.rs:80-111 | replacing an entry by what remains of it keeps the list sorted, its non-empty entries maximal, and every free bit listed |
| SegmentAllocator.RunsAreListed | betree/src/allocator.rs:133-149 | every maximal free run is an entry of the list |
| SegmentAllocator.GrantMore | betree/src/allocator.rs:39-115 | a range that is free is disjoint from everything granted before |
| SegmentScan.Unpacked | betree/src/storage_pool/disk_offset.rs:57-94 | every 64-bit offset is the packing of its class, disk and block |
| SegmentScan.PackOrder | betree/src/storage_pool/disk_offset.rs:57-94 | packed offsets are ordered by class, disk and block, and consecutive blocks are consecutive numbers |
| SegmentScan.NextOnDisk | betree/src/allocator.rs:217-229 | the next segment is the following one of the same class and disk, or the first one after the last |
| SegmentScan.WithinSegment | betree/src/allocator.rs:178-196 | an offset within a segment keeps class, disk and segment |
| SegmentScan.Scan | betree/src/data_management/dmu.rs:615-679 | terminates for every disk size and starting segment; finds the first segment with room in cyclic order and gives up only after every segment of the disk refused; a found offset has the class and disk of the scan |
| Clock.Clock.PushBack | betree/src/cache/clock.rs:58-73 | appends to the sequence the cycle stands for |
| Clock.Clock.PopFront | betree/src/cache/clock.rs:30-40 | removes and returns the first element, the last one included |
| Clock.Clock.PeekFront | betree/src/cache/clock.rs:43-48 | returns the first element |
| Clock.Clock.Next | betree/src/cache/clock.rs:51-55 | rotates the sequence by one |
| Clock.Clock.Len | betree/src/cache/clock.rs:25-27 | walking once around counts the sequence |
| Clock.Clock.Retain | betree/src/cache/clock.rs:111-149 | in-place unlinking leaves one cycle with exactly the kept elements in order, also when the tail or all elements go |
| Clock.ClockIter.Next | betree/src/cache/clock.rs:165-180 | yields every node once, from head to tail, and then ends |
| Clock.Clock.ReplaceFirst | betree/src/cache/clock_cache.rs:242-244 | overwrites the first element that matches and nothing else |
| ClockCache.ClockCache.Get | betree/src/cache/clock_cache.rs:182-196 | pins the entry and sets its reference bit |
| ClockCache.ClockCache.Insert | betree/src/cache/clock_cache.rs:334-348 | a new key goes to the map and to the end of the clock |
| ClockCache.ClockCache.Remove | betree/src/cache/clock_cache.rs:198-215 | refuses absent and pinned entries; otherwise removes the key from map and clock |
| ClockCache.ClockCache.ForceRemove | betree/src/cache/clock_cache.rs:217-227 | removes the key from map and clock, pinned or not |
| ClockCache.ClockCache.ChangeKey | betree/src/cache/clock_cache.rs:229-247 | refuses absent and pinned entries and a callback without a key, keeping what the callback did to the value; otherwise moves the entry and renames it in its place; the cache stays valid if and only if the offered key was not in use |
| ClockCache.ClockCache.ForceChangeKey | betree/src/cache/clock_cache.rs:249-261 | moves the entry and renames it in its place in the clock; the clock still holds every key once if and only if the new key was not in use |
| ClockCache.RenamedOnceIff | betree/src/cache/clock_cache.rs:249-261 | renaming a key in the clock keeps every key once if and only if the new name is free |
| ClockCache.ClockCache.Evict | betree/src/cache/clock_cache.rs:263-332 | within two revolutions evicts the first entry that is unpinned, unreferenced and accepted, or if there is none the first that is unpinned and accepted after all bits are reset; none if and only if no entry is unpinned and accepted; says which bits are reset and where the hand stands |
| ClockCache.ClockCache.Turn | betree/src/cache/clock_cache.rs:272-318 | one turn evicts the head, or resets its bit if it is unpinned and moves on |
| ClockCache.PassedMeans | betree/src/cache/clock_cache.rs:272-318 | the hand resets the bits of the unpinned entries it passes and changes nothing about pinned ones or values |
| ClockCache.Advance | betree/src/cache/clock_cache.rs:263-332 | each turn either evicts the victim of the whole clock or extends the part that holds no victim |
| Chunks.FromByteBounds | betree/src/object/chunk.rs:30-46 | with a saturating sum and chunk ids cut to 32 bits, each end is the byte asked for if and only if that byte is below 2^49 |
| Chunks.Splitter.Next | betree/src/object/chunk.rs:58-94 | each piece starts where the last ended, is not empty and lies in one chunk; there is none exactly at the end |
| Chunks.UpsertIsFlat | betree/src/object/mod.rs:954-960 | an upsert within a chunk changes exactly its bytes of the flat object |
| Chunks.ObjectData.WriteAt | betree/src/object/mod.rs:942-978 | writes all bytes; exactly [offset, offset + len) of the zero-extended flat object changes; an object without holes stays so when written at or before its end |
| Chunks.ObjectData.ReadAt | betree/src/object/mod.rs:811-880 | on an object without holes reads exactly the flat bytes, up to the object's size |
| Chunks.ReadChunk | betree/src/object/mod.rs:837-861 | zeros for the gap, then the wanted bytes of the chunk, zero-filled where it is too short |
| Chunks.WriteThenRead | betree/src/object/mod.rs:811-978 | what was written is read back in full |
| Chunks.ChunkKeyRoundTrip | betree/src/object/mod.rs:109-121 | object and chunk id can be decoded from the key |
| Chunks.ChunkKeyRange | betree/src/object/mod.rs:893-896 | the inclusive key range of a read holds exactly the chunks of that object between the two ids |

## Left out

- Dmu.Dmu.WriteBack: no other operation runs meanwhile; the states between two lock operations of a running `write_back`, alone or beside others, are covered by the step theorems.
- Dmu.Dmu.Steal: of a reference held by a root or a modified node; the other holders are `DmuTheorems.HintStealSafeIff`.
- Dmu.Dmu.SettleChild: no other write-back runs; the same holds for `WriteDependencies`.
- Dmu.Dmu.Get: pending storage hints are not part of it; their effect is `DmuTheorems.HintStealSafeIff`.
- Dmu.Dmu.HandleWriteBack: one write-back at a time (a steal meanwhile is `DmuTheorems.StealOvertakes`); error-restore paths, compression and the pivot key given to the pointer.
- Database.Database.Sync: which nodes of the root tree are modified in a pass, and which pointers they give up, is given, and so is that the passes converge; a pass that finds not even the root modified is left out.
- Database.Database.Allocate: the range is given; `Database.Database.AllocateIn` finds it.
- Database.Database.CopyOnWrite: without snapshots; the deadlist branch is `Snapshots.Dataset.CopyOnWrite`.
- SpaceTheorems.CrashConsistency: for roots that occupy the size in their pointer, and every sync writes a new root; superblock slots are apart from data blocks.
- SnapshotTheorems.SnapshotsStayWhole: one dataset; a block belongs to a snapshot if it was born no later and died later; new ids are above all recorded ones; the writing of a root and the bump of the generation are one step.
- Snapshots.ReleaseRange: tests the key of every entry instead of walking the tree's range iterator.
- BeTreeTheorems.LookupsReplayInserts: inserts below the root are those of which `BeTreeTheorems.InsertIsNewestIff` shows that they count as newest; which child is flushed and which leaf key becomes the pivot are free, so the size rules of `rebalance_tree` are not stated; nodes are values, their update in place is the DMU's.
- BeTreeTheorems.InsertMsg: storage preferences and size accounting of buffers.
- SegmentScan.Scan: the answers of the segment allocators are given; choice of class and disk is left out.
- ClockCache.ClockCache.Evict: the callback is a predicate on key and value; sizes and counters of the cache are left out.
- Chunks.ObjectData.ReadAt: objects with holes, and the bytes of the buffer behind those read.
- Chunks.ObjectData.WriteAt: for ranges that end below 2^49, where `Chunks.FromByteBounds` is exact; object size and modification time.
- Parity1.Parity1.Read: statistics and counters of faulted blocks.
- `remove` of a reference whose object has already been evicted.
- Pins and locks below the chosen steps, and prefetching as a thread of its own.
- Choice of the eviction victim in `Dmu::evict`, and its gap between unlocking the cache and taking the guard.
- Object metadata messages, whose merge and apply follow different rules.
- Range queries and their iterators.
- The packed on-disk form of leaves and buffers.
- Mirror and leaf vdevs, storage pool threads and queues.
- Free-space accounting and the superblock's storage information.
- Migration policies, configuration, metrics and the C interface.
