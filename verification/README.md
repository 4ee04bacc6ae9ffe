# Verification of vnmcore

A Dafny model of the storage core of Venom: the chunked open-file cache and its on-disk layout, the
slot store, the Merkle root, and the container with its headers, recipients and rollback detection.
`dafny verify dfyconfig.toml` checks the whole project.

## What is modelled

An open file keeps a slot map, a chunk cache, dirty marks and a total size over a head slot, data
slots and a linked chain of index slots. `OpenFile.dfy` has the operations as methods of a class; the
value of a handle and what it stands for, one plain byte sequence, are in `Handle.dfy`. The proofs are
about values: `FileState.dfy` has the invariant of a file and its isolation from the rest of the disk,
`WriteSteps.dfy` what a write makes of the cache, `FlushSteps.dfy` the three steps of a flush,
`FlushLimits.dfy` exactly when they go through and what they leave, `Flushes.dfy` what a flush promises
from one moment to another, `IndexChain.dfy` the overflow chain, `Truncation.dfy` the resizing of a closed
file.

`Fuse.dfy` holds the file operations of the driver over directories, inode numbers and handles.
`Fs.dfy` and `FsState.dfy` state what the whole driver keeps: every directory and file except the root
is listed exactly once, every slot has one owner, every handle is what its file looks like. `DirSteps.dfy`
says what each directory operation makes of that state, `Reachable.dfy` which nodes a path from the root
still leads to, and `Ownership.dfy` draws the conclusion that each slot of the volume is owned exactly
once. `RunSteps.dfy` states each operation through a handle as a step from moment to moment, and `Runs.dfy`
runs them, failures included, and whole sequences of changes to the recipient table; `AppendRuns.dfy`
follows every disk state of a run of appends; `Witnesses.dfy` has concrete states at which an operation
does what it should not.

`SlotStore.dfy` is the byte file of 32 KiB slots that behaves as a map from slot to plaintext, with its
free list (`FreeList.dfy`), generation and lazily computed root (`Merkle.dfy`). `Container.dfy` turns it
into a map from slot to node. `Mount.dfy` closes the circle: create, flush, open, and the same files
again. `Codecs.dfy` has an instance of what is assumed of serialisation. `Rollback.dfy` has the baseline
and the protocol over whole runs as a state machine, and `RollbackRuns.dfy` the container file that takes
its steps, moment by moment.

`Cipher.dfy`, `Header.dfy`, `Recipients.dfy` and `RecipientTable.dfy` are the envelope format, the
header, the slots that seal the master key for each credential, and the table of them in the file.
`Lifecycle.dfy` puts all of it into one byte string, from creation to the next mount by a credential.

## Assumptions

- The three authenticated ciphers are functions that undo each other and accept nothing else
  (`Cipher.Ideal`), hashing yields 32 bytes, decapsulation with the matching key gives the shared secret
  (`Recipients.LawfulKeying`). Each set of laws has an instance. No hash is assumed collision-free:
  theorems that would need it return the colliding calls instead.
- Serialisation of nodes, whose numbers are unbounded, is a parameter with a round trip and non-empty
  output (`VaultFs.Lawful`, with an instance in `Codecs.LawfulIsConsistent`);
  `Fits` says whether a node's bytes fit one slot. With the constants of the program a full first chunk
  next to 4,000 slot ids does not fit, so fitting is a condition under which operations succeed.
- The random generator yields some stream of bytes, whatever it is (`Cipher.Suite.random`). Every salt, nonce,
  encapsulation and wipe takes the next stretch of it, and a mount starts anywhere in it. The master key and
  the identity of a container are parameters. Clocks and paths are not modelled.
- No password hash or cipher is assumed to commit to its key. Where a wrong credential could open a slot
  after all, the theorem returns the two keys that coincide, or the recipient's own sealing together with
  another one under the key that was tried (`RecipientTable.Mistake`).
- One handle per file beyond its open; the writes of a run go up to the end of the file.

## Where the program and its comments differ

The model follows the program.

- Password and key slots take 176 and 1,743 bytes and data start at byte 16,376, as FORMAT.md says; the
  comments at vnmcore/src/container/header.rs:56-63 name 192, 1,759 and 16,632.
- The salt of a header is not part of the authenticated data, against the comment at
  vnmcore/src/container/header.rs:144 (`Header.PlaintextIsUnbound`).
- The first saved generation is 1, not 0 as at vnmcore/src/fs/container.rs:276.
- The least payload capacity depends on the cipher; vnmcore/src/storage/slot_store.rs:38-40 counts a
  36-byte overhead that no cipher has.
- The tree has the shape of RFC 6962, with context strings in place of its prefix bytes.
- FORMAT.md bounds the memory of an open file by 256 chunks. That holds for reading
  (`OpenFiles.OpenFile.Read`); a write that creates chunks adds them without evicting
  (vnmcore/src/fs/fuse.rs:586-589).
- The comment at vnmcore/src/fs/fuse.rs:635-636 says that extending a file fills it with zeros on demand.
  Nothing does: the file is dense afterwards if and only if its chunks already reach the new size, and a
  read stops short or fails otherwise (`Truncation.StretchedIsDense`, `Witnesses.ExtensionFallsShort`).
  What shows in between is what the chunks hold; after a shrink that was not flushed that is what was cut
  off (`Handle.RegrownShows`, `Handle.ShrinkUndone`).

## Findings

- The generation wraps in builds without overflow checks (with them the counter stops the program there).
  Rollback detection is exact below 2^64 saves and fails for every count from there
  (`RollbackRuns.Device.Open`, `Rollback.WrapIsTheLimit`, `RollbackRuns.StaleOpen`).
- A write past the end leaves a sound file if every chunk before the first one written is whole, and if no
  chunk has to leave memory for it only then (`WriteSteps.SparseIff`). Otherwise reads stop short. A write
  that skips a chunk also leaves a hole in the slot map, and the flush then records the chunks behind it one
  place too early; it keeps its place if and only if the chunk is the very next one (`Witnesses.HoleIff`).
  One byte written at 60,000 of an empty file is read at 30,000 after a reopen (`Witnesses.HoleMovesBytes`).
- Unlinking a file with an overflow chain, or truncating it without a handle, leaves the slots that only
  the chain listed in use without an owner; truncation keeps the file readable exactly when the head
  lists every chunk still needed (`DirSteps.UnlinkedAll`, `Truncation.TruncatedIsDense`). In MessagePack a
  head with 4,000 ids fits its slot only beside a short first chunk, as in a file that was written from
  byte 30,000 on: `Witnesses.UnlinkLeavesSlot` and `Witnesses.TruncateLeavesSlot` have it.
- For the same reason a file whose first chunk is full cannot be flushed any more once its ids outgrow
  the rest of the head slot; the flush then keeps file and bytes (`OpenFiles.OpenFile.Flush`).
- A flush frees the old overflow chain before the new one exists. If the new one cannot be written, the
  handle points at slots that are free, lost or reused, though its bytes stay
  (`OpenFiles.OpenFile.RebuildChain`, `OpenFiles.HeadKeeps`). When slots ran out, every slot of the old
  chain holds a block of the abandoned one; a retry frees a free slot, and two allocations then get it,
  only after a block that did not fit (`FlushLimits.RetryMeets`, `FreeList.FreedTwice`).
- Renaming onto a file leaves all its slots but the head behind, and onto a directory whatever was in it
  (`DirSteps.RenamedAll`). If the new parent is no directory, or does not fit one more entry, the node is
  listed nowhere and what had the new name is gone (`DirSteps.HalfRenamed`, `Witnesses.RenameLosesNode`).
  Moved below itself a directory is listed in a circle that no path from the root enters
  (`Reachable.RenamedRooted`, `Witnesses.RenameMakesCircle`).
- When the first header's counts are wiped, `open` takes the counts of a hidden volume's header before
  those of the backup, and with them too few slots (`Lifecycle.CountsOfBackup`).
- An empty text sealed under Triple cannot be opened (`Cipher.SealedOpens`).

## Model

| member | source | states |
|---|---|---|
| OpenFiles.OpenFile.Read | vnmcore/src/fs/fuse.rs:537-561 | a read returns exactly the requested slice of the plain byte sequence; chunks come into memory as the disk holds them and only clean ones leave it, which changes neither the bytes nor, for a read-only handle, the bound of 256 cached chunks |
| OpenFiles.OpenFile.Write | vnmcore/src/fs/fuse.rs:563-615 | a write up to the end of the file splices the data into the byte sequence, also when write-through runs or fails; one past the end keeps the bytes so far and puts the data at its place, and leaves a sound file exactly if the chunks before it are whole; it succeeds if and only if at most 128 continuation chunks are dirty with the data in memory or the lowest of them, all but 64, can be stored; exactly these leave memory for their slots, the least free ones for those without, on a failure only the first of them; on a handle that has only appended, every disk state on the way shows what the disk showed before |
| OpenFiles.OpenFile.WriteIntoCache | vnmcore/src/fs/fuse.rs:568-603 | the write loop, wherever it starts, while the total size is already the final one: each chunk written holds what it held, in memory, on disk or zeros, with its part of the data patched in, the others are as they were; up to the end that splices the data, past the end the bytes so far stay and the data is at its place; exactly the chunks written to become dirty, the slot map grows by unallocated entries up to the last of them, and the head becomes dirty exactly if it or the size did |
| OpenFiles.OpenFile.WriteChunk | vnmcore/src/fs/fuse.rs:574-602 | one round of the write loop, wherever it starts: the chunk comes into memory and is patched, only clean ones leave; inside the file that splices the stretch; past the slot map it fills the map with unallocated entries and patches a chunk of zeros |
| OpenFiles.OpenFile.WriteThroughFlush | vnmcore/src/fs/fuse.rs:293-326 | the n lowest dirty continuation chunks leave memory for their slots just as they were, on a failure only the first of them; no byte changes, nothing is visible to a reader of the disk, the slots taken are the least free ones, and it succeeds if and only if those chunks fit and the ones without slot are no more than the free slots |
| WriteSteps.OneMoreWritten | vnmcore/src/fs/fuse.rs:574-602 | the loop's rounds add up: after n bytes exactly the chunks that these fall into are dirty and patched with their part of the data |
| WriteSteps.OneMoreGone | vnmcore/src/fs/fuse.rs:303-323 | the chunks stored one by one add up: each is in its slot as it was in memory, new slots only for those without one, every other node and entry as before |
| WriteSteps.SparseIff | vnmcore/src/fs/fuse.rs:563-615 | a write past the end leaves a sound file if every chunk before the first one written is whole, and if no chunk has to leave memory for it, only then |
| WriteSteps.DataShown | vnmcore/src/fs/fuse.rs:592-596 | after the loop every byte written is read where it was written |
| OpenFiles.OpenFile.EnsureCached | vnmcore/src/fs/fuse.rs:141-173 | a present chunk is loaded unchanged, at most one clean chunk leaves a full cache, and a chunk past the slot map is an error |
| OpenFiles.OpenFile.EvictOne | vnmcore/src/fs/fuse.rs:164-169 | only clean chunks are dropped, and one is whenever a full cache holds one |
| OpenFiles.OpenFile.SetSize | vnmcore/src/fs/fuse.rs:624-641 | shrinking takes a prefix of the bytes and drops the chunks past the end; a larger size shows exactly what the chunks hold, which starts with the bytes so far, and leaves a dense file if and only if the chunks already reach it |
| OpenFiles.OpenFile.Flush | vnmcore/src/fs/fuse.rs:328-414 | what a flush leaves of the handle, the free list and the lost slots, and exactly when it succeeds: the dirty chunks fit and find slots, then the overflow chain finds its slots in the list with the old chain returned, and the head fits; the same by counting if every index block fits; on success nothing is dirty and a fresh handle reads the same bytes from disk; a failure keeps the bytes, and the whole file unless the overflow chain was being rewritten; a disk reader of an appending file sees the old bytes until the last write of a successful flush |
| Flushes.FlushDone | vnmcore/src/fs/fuse.rs:328-414 | step 1 done, what the rest promises adds up to what the whole flush leaves, shows on the way and keeps, its success decided by the moment after step 1 |
| OpenFiles.OpenFile.FlushDirtyChunks | vnmcore/src/fs/fuse.rs:342-358 | step 1: every dirty continuation chunk in memory reaches its slot without a visible change; it succeeds if and only if the chunks fit and those without slot are no more than the free slots; a failure keeps the file and its bytes |
| OpenFiles.OpenFile.DrainExcessSlots | vnmcore/src/fs/fuse.rs:360-368 | step 2: exactly the slots of entries past the end are freed, one after the other, and the slot map cut |
| OpenFiles.OpenFile.WriteHead | vnmcore/src/fs/fuse.rs:370-409 | step 3: the rewritten head and rebuilt index chain record the whole file; it succeeds if and only if the chain can be written into the free list with the old chain returned and the head fits; a failure to write the head keeps the file, a failure to write the chain its bytes |
| OpenFiles.OpenFile.PutHead | vnmcore/src/fs/fuse.rs:400-409 | with the new chain on disk the head is written if and only if it fits; either way the file keeps its bytes, and a failure leaves the disk as it was |
| OpenFiles.OpenFile.RebuildChain | vnmcore/src/fs/fuse.rs:392-399 | the old chain is freed before the new one is written: a failure leaves every other slot alone, and each slot of the old chain free, lost or holding an index block of the abandoned chain |
| FlushLimits.StoreStep | vnmcore/src/fs/fuse.rs:342-358 | storing one chunk leaves room for exactly the others, in any order of the set |
| FlushLimits.RestDecides | vnmcore/src/fs/fuse.rs:342-409 | counting slots before the flush decides, for every order in which the chunks are stored, whether the rest of it goes through |
| FlushLimits.RoomDecides | vnmcore/src/fs/fuse.rs:385-399 | with every chunk stored, the chain can be rewritten if and only if its blocks are no more than the free slots, the excess slots and the old chain together |
| FlushLimits.RetryMeets | vnmcore/src/fs/fuse.rs:176-198 | after a flush that could not rewrite the chain, a slot of the old chain is free, and a retry frees it a second time, only if a block was too large; when slots ran out it holds a block of the abandoned chain |
| Flushes.HeadKeeps | vnmcore/src/fs/fuse.rs:392-399 | whatever becomes of the overflow chain, the handle still shows its bytes |
| OpenFiles.Extended | vnmcore/src/fs/fuse.rs:635-640 | a larger size is dense if and only if the chunks already hold that many bytes, and shows exactly what they hold |
| OpenFiles.LowestContinuations | vnmcore/src/fs/fuse.rs:298-304 | the n least dirty chunk numbers from 1 on, ascending, or all if there are fewer |
| OpenFiles.LeastUnique | vnmcore/src/fs/fuse.rs:298-304 | which chunks are the n lowest does not depend on the order in which they are looked at |
| Handle.LoadedKeeps | vnmcore/src/fs/fuse.rs:141-173 | loading a chunk and dropping clean ones changes no byte |
| Handle.PatchSplices | vnmcore/src/fs/fuse.rs:592-596 | patching one cached chunk splices exactly those bytes into the file, growing it if needed |
| Handle.NewChunkKeeps | vnmcore/src/fs/fuse.rs:586-589 | a brand-new chunk of zeros past the end changes no byte |
| Handle.ShrunkTakesPrefix | vnmcore/src/fs/fuse.rs:629-641 | a shrunk handle is still dense and shows exactly the prefix |
| Handle.RegrownShows | vnmcore/src/fs/fuse.rs:624-641 | shrinking and growing again before a flush shows what the data slots still hold past the cut, except in the last chunk kept if that was in memory |
| Handle.ShrinkUndone | vnmcore/src/fs/fuse.rs:624-641 | with nothing in memory a shrink undone that way gives every byte back |
| Handle.ChunkWrittenCovers | vnmcore/src/fs/fuse.rs:306-323 | storing a dirty chunk in its slot and forgetting it in memory changes no byte, and the file lacks bytes afterwards exactly if it did before |
| FileState.FileFrame | vnmcore/src/fs/fuse.rs:293-414 | isolation: a file's invariant and bytes depend on its own head, data and index slots only |
| FileState.CleanReopens | vnmcore/src/fs/fuse.rs:507-528 | a clean handle in step with its head is what a fresh open builds, with the same bytes |
| FileState.CleanIsBehind | vnmcore/src/fs/fuse.rs:411-413 | where every lag of the disk starts: a clean handle without overflow chain, of which the disk shows all bytes |
| FileState.BehindShowsPrefix | FORMAT.md:742-753 | since the last flush of a handle that has only appended, the disk shows exactly the prefix of the recorded size |
| FileState.ChunkWrittenInvisible | vnmcore/src/fs/fuse.rs:306-323 | writing a chunk through is invisible to a reader who follows the head block |
| FileState.PatchStaysBehind | vnmcore/src/fs/fuse.rs:592-596 | a patch at or past the recorded size leaves the recorded bytes alone |
| FlushSteps.AllocatedKeepsPositions | vnmcore/src/fs/fuse.rs:385-389 | recording the allocated ids keeps every chunk's position if and only if the slot map has no hole |
| FlushSteps.NoHoles | vnmcore/src/fs/fuse.rs:385-389 | a dense file whose continuation chunks are all on disk has no hole |
| FlushSteps.DrainKeeps | vnmcore/src/fs/fuse.rs:360-368 | cutting the excess changes no byte and gives up exactly the excess slots |
| FlushSteps.HeadWritten | vnmcore/src/fs/fuse.rs:392-409 | after the head is rewritten the disk is in step with the handle: same size, chain and slot map, same bytes |
| FlushSteps.FreePastEndInvisible | vnmcore/src/fs/fuse.rs:361-366 | freeing the slot of a chunk past the recorded size is invisible to a reader of the disk |
| FlushSteps.ExtendsInvisible | vnmcore/src/fs/fuse.rs:188-198 | adding index slots is invisible to a reader of the disk |
| IndexChain.WriteIndexChain | vnmcore/src/fs/fuse.rs:188-198 | the chain is acyclic, holds the ids in order, in ceil(n / 4080) new slots of at most 4080 ids each; it is written if and only if every block finds a slot and fits, taking the least free slots one by one; a failure leaves only index blocks in new slots |
| IndexChain.WriteBlock | vnmcore/src/fs/fuse.rs:191-196 | one block more takes the least free slot and keeps the chain, every earlier node and the order; it fails exactly without a free slot or when the block does not fit |
| IndexChain.ChainFitsWhen | vnmcore/src/fs/fuse.rs:188-198 | if the index blocks of the volume fit a slot, the chain can be written if and only if there are ceil(n / 4080) free slots |
| IndexChain.FreeIndexChain | vnmcore/src/fs/fuse.rs:176-184 | exactly the slots of the chain are freed, in order |
| IndexChain.BuildSlotMap | vnmcore/src/fs/fuse.rs:112-137 | the walk yields size, chain and one entry per id in order; a non-file is EISDIR and a non-index block on the way EIO |
| IndexChain.BlockAdded | vnmcore/src/fs/fuse.rs:191-196 | one more block in front of whole blocks keeps length, order and freshness of the chain |
| Fuse.InodeMap.GetOrAlloc | vnmcore/src/fs/fuse.rs:70-74 | the number a slot already had, or the next one, which was never given out; every other number stays where it was and the two maps stay inverse |
| Fuse.InodeMap.RemoveSlot | vnmcore/src/fs/fuse.rs:76-78 | slot and number are forgotten together, every other number stays, and the next one to be given out too |
| Fuse.NumbersOverRun | vnmcore/src/fs/fuse.rs:54-78 | over any run of operations each of which keeps the numbers as stated, no inode number is ever given to a second slot, and one is lost only when its slot is |
| Fuse.VenomFuse.OpRead | vnmcore/src/fs/fuse.rs:537-561 | ENOENT for an unknown handle, else the exact slice; nothing but the handle's cache changes, and that only by loading chunks and dropping clean ones; a read-only handle keeps to 256 chunks |
| Fuse.VenomFuse.OpWrite | vnmcore/src/fs/fuse.rs:563-615 | up to the end of the file the bytes are spliced even when write-through fails; past the end the state is sound exactly if the filled handle lacks no bytes; success, and what becomes of cache, slot map, free list and lost slots, is exact as for the handle; nothing but this file changes; an append is invisible on disk |
| Fuse.VenomFuse.OpFlush | vnmcore/src/fs/fuse.rs:530-530 | after a flush the disk alone holds the bytes; when it succeeds and what it leaves is exact as for the handle; nothing but this file changes; a failure keeps every file and its bytes and every slot its one owner, unless the overflow chain of this file was being rewritten, and then the other files; slots it frees hold only random bytes |
| Fuse.VenomFuse.OpRelease | vnmcore/src/fs/fuse.rs:531-535 | a flush, and if it goes through the handle is gone and the closed file is as the disk has it, with the bytes it had; a failure keeps the handle and, without overflow chain, everything else |
| Fuse.VenomFuse.OpTruncate | vnmcore/src/fs/fuse.rs:622-641 | through a handle, shrinking takes a prefix, changes nothing but the handle and leaves the others; a larger size shows exactly what the chunks hold, and the state is sound if and only if they already reach it |
| Fuse.VenomFuse.TruncateOnDisk | vnmcore/src/fs/fuse.rs:644-671 | without a handle, shrinking rewrites the head, frees the excess slots and the chain, and is sound if no id was listed in the chain only; a larger size changes only the recorded size, and is sound if and only if the chunks already reach it; it succeeds if and only if the new head fits, and a shrink that fails has freed the slots all the same; every slot freed holds only random bytes |
| Fuse.VenomFuse.OpSetAttrSize | vnmcore/src/fs/fuse.rs:617-671 | whichever path is taken, a given handle's even if it belongs to another inode: ENOENT for a handle or number not known, success through any handle, without one success if and only if the new head fits and EIO otherwise; shrinking shows the prefix, a larger size exactly what the chunks hold, sound if and only if they reach it, and every other file keeps its bytes; slots freed hold only random bytes |
| Fuse.VenomFuse.OpOpen | vnmcore/src/fs/fuse.rs:507-528 | a new handle that is what the disk records; a first one shows the file's bytes, and without overflow chain starts an appending run; a second one shows the bytes last flushed, and two handles of one file are never a sound state; its number is the next one, never given before; ENOENT, EISDIR and EIO otherwise |
| Fuse.VenomFuse.OpLookup | vnmcore/src/fs/fuse.rs:424-432 | exactly the listed node and its number, or why there is none: a slot that has a number gets the one it has, any other the next one, and no number changes |
| Fuse.VenomFuse.NewListed | vnmcore/src/fs/fuse.rs:434-463 | exactly one outcome in the order of the checks: EIO without a free slot or when the node does not fit, ENOTDIR or EEXIST, EIO when the longer directory does not fit, else the least free slot, listed once; the slot is lost exactly when the node did not fit, and any other failure leaves the free list as it was |
| Fuse.VenomFuse.OpMkdir | vnmcore/src/fs/fuse.rs:434-442 | a new empty directory, or the first reason against it: ENOENT, EIO, ENOTDIR, EEXIST, EIO; a failed mkdir leaves the state as it was, and the free list too unless the node did not fit; no inode number changes |
| Fuse.VenomFuse.OpRmdir | vnmcore/src/fs/fuse.rs:444-453 | removes exactly an empty directory and frees its slot if and only if nothing refuses it and the shorter parent fits; each refusal has its own error and changes nothing; the slot holds only random bytes, and its inode number is the only one that goes |
| Fuse.VenomFuse.OpCreate | vnmcore/src/fs/fuse.rs:455-472 | a new empty file with one open handle, the start of an appending run, or the first reason against it as for mkdir; a failed create leaves the state as it was; the handle number is the next one, never given before, and no inode number changes |
| Fuse.VenomFuse.OpUnlink | vnmcore/src/fs/fuse.rs:474-487 | succeeds if and only if the name is listed and the shorter parent fits; of a file exactly the slots that its head and chain account for are freed, any other is left without owner, and the others keep their bytes; every slot freed holds only random bytes; a directory goes too, and the state is sound if and only if it was empty; no inode number goes but its own |
| Fuse.VenomFuse.OpRename | vnmcore/src/fs/fuse.rs:489-505 | the node moves under its new name with its kind, in place of whatever had that name; exactly the head of a replaced file is freed, and the state is sound if and only if that was a closed file of one slot or an empty directory; which failure comes first is exact, and whether it leaves the node unlisted; every inode number stays but that of a replaced node, whose slot holds only random bytes |
| Fs.FileStepSound | vnmcore/src/fs/fuse.rs:293-414 | a step of one file inside its own and free slots keeps every slot owned once and every other file's bytes |
| Fs.AddFileSound | vnmcore/src/fs/fuse.rs:455-463 | a new head in a free slot keeps the disk sound |
| Fs.RemoveFileSound | vnmcore/src/fs/fuse.rs:474-487 | freeing all slots of one file keeps the disk sound and the others' bytes |
| Fs.AddEntrySound | vnmcore/src/fs/fuse.rs:270-275 | listing a new node keeps every directory and file listed exactly once with the right kind |
| Fs.RemoveEntrySound | vnmcore/src/fs/fuse.rs:277-283 | unlisting a leaf keeps the tree sound |
| Fs.MoveEntrySound | vnmcore/src/fs/fuse.rs:489-505 | moving an entry keeps the tree sound |
| FsState.HandleStep | vnmcore/src/fs/fuse.rs:293-414 | an operation through one handle keeps the whole driver state sound and the other files' bytes |
| FsState.CreateStep | vnmcore/src/fs/fuse.rs:455-472 | a created and opened file keeps the driver state sound |
| FsState.UnlinkStep | vnmcore/src/fs/fuse.rs:474-487 | an unlinked file with all its slots freed keeps the driver state sound |
| FsState.RenameStep | vnmcore/src/fs/fuse.rs:489-505 | a renamed node keeps the driver state sound |
| FsState.OpenStep | vnmcore/src/fs/fuse.rs:507-528 | opening a closed file keeps the driver state sound and shows the same bytes |
| FsState.CloseStep | vnmcore/src/fs/fuse.rs:531-535 | closing a clean handle keeps the driver state sound and shows the same bytes |
| DirSteps.UnlinkedAll | vnmcore/src/fs/fuse.rs:474-487 | unlinking a file whose head lists only its own slots orphans exactly the slots it does not account for; without any the state is sound |
| DirSteps.RecordedListsOwn | vnmcore/src/fs/fuse.rs:474-487 | with the recorded slot map these are the slots that only the index blocks list |
| DirSteps.UnlinkedDir | vnmcore/src/fs/fuse.rs:474-487 | unlinking a directory keeps every file, and the state is sound if and only if the directory was empty |
| DirSteps.RenamedAll | vnmcore/src/fs/fuse.rs:489-505 | renaming onto a free name is sound; onto a file it orphans exactly its other slots and is sound if and only if there are none, onto a directory if and only if that is empty; every other file keeps its bytes |
| Reachable.RenamedRooted | vnmcore/src/fs/fuse.rs:489-505 | a rename keeps every listed node reachable from the root if and only if the new parent is neither the moved node nor below it |
| Reachable.MoveKeepsRooted | vnmcore/src/fs/fuse.rs:489-505 | the same on parents alone: moved below itself, a node is on a path that never comes to the root |
| Reachable.AddedRooted | vnmcore/src/fs/fuse.rs:434-463 | a new node is reachable where its directory is |
| Reachable.RemovedRooted | vnmcore/src/fs/fuse.rs:444-487 | a removal that leaves a sound state leaves every listed node reachable |
| DirSteps.ListedNode | vnmcore/src/fs/fuse.rs:424-432 | a listed slot holds a directory or file head, never the root, in its recorded parent |
| DirSteps.FindName | vnmcore/src/fs/fuse.rs:279-279 | the first entry of that name, none exactly if no entry has it |
| DirSteps.SavedSlots | vnmcore/src/fs/fuse.rs:112-137 | a file in step with its head owns exactly the slots listed in head and chain, without repetition |
| Ownership.EverySlotOnce | vnmcore/src/storage/slot_store.rs:182-187 | every slot of the volume is the allocation block's, free, lost, a directory or one file's, and only one of these |
| Truncation.TruncatedIsDense | vnmcore/src/fs/fuse.rs:650-666 | a file truncated on disk is still dense if and only if the head lists every chunk it still needs; then it shows the prefix |
| Truncation.TruncatedAll | vnmcore/src/fs/fuse.rs:644-666 | truncation on disk keeps the other files, orphans exactly the ids the chain listed, and is sound without any |
| Truncation.TwoTruncationsAgree | vnmcore/src/fs/fuse.rs:622-669 | shrinking a fresh handle and flushing it writes exactly the disk that shrinking without a handle writes |
| Truncation.StretchedIsDense | vnmcore/src/fs/fuse.rs:666-670 | a larger size recorded on disk shows exactly what the chunks hold, starting with the bytes so far, and gives a dense file if and only if the chunks already hold that many bytes |
| Truncation.StretchedAll | vnmcore/src/fs/fuse.rs:666-670 | on the whole state: sound if and only if the chunks reach the new size, and every other file keeps its bytes |
| Witnesses.ExtensionFallsShort | vnmcore/src/fs/fuse.rs:635-640 | a file of one byte set to two: not dense, the chunk still ends after one byte |
| Witnesses.HoleIff | vnmcore/src/fs/fuse.rs:385-389 | with every chunk so far allocated, a write into a later chunk keeps its place over a flush if and only if that chunk is the very next one |
| Witnesses.HoleMovesBytes | vnmcore/src/fs/fuse.rs:563-615 | an empty file, one byte written at 60,000, flushed and reopened: it is read at 30,000, and nothing can be loaded where it was written |
| Witnesses.BigSound | vnmcore/src/fs/fuse.rs:392-399 | a sound state with a file of 4,002 whole chunks, one more id than the head lists, for a format in which such a head fits |
| Witnesses.UnlinkLeaks | vnmcore/src/fs/fuse.rs:474-487 | unlinking that file leaves the slot that only its index block lists in use without owner |
| Witnesses.TruncateLeaks | vnmcore/src/fs/fuse.rs:650-666 | cutting its last byte on disk does the same and loses the chunk in that slot |
| Witnesses.UnlinkLeavesSlot | vnmcore/src/fs/fuse.rs:474-487 | with any first chunk, also the empty one of a file written from byte 30,000 on, what unlink frees leaves the last slot in use and no node that names it |
| Witnesses.TruncateLeavesSlot | vnmcore/src/fs/fuse.rs:650-666 | the same after cutting the last byte on disk, and the head lists too few chunks for its size |
| Witnesses.RenameMakesCircle | vnmcore/src/fs/fuse.rs:489-505 | the directory a moved below its own subdirectory: sound before and after, every node listed once, and no path from the root leads to the two any more |
| Witnesses.RenameLosesNode | vnmcore/src/fs/fuse.rs:489-505 | the directory a renamed to a name below a file: ENOTDIR, and a is listed nowhere, though in use and known to the driver |
| Runs.Run | vnmcore/src/fs/fuse.rs:507-641 | over every run of reads, dense writes, flushes and shrinks, whatever fails in it, results and contents are those of a plain byte string and other files keep theirs; every operation takes the driver from moment to moment as its step says, with whether it succeeds and what it leaves of disk, handle and free list; at every moment the state is sound, every slot accounted for and the file holds what it should, and only a flush that fails on a file too long for a head without overflow chain ends the run; dirty chunks stay cached and few while nothing fails, a read-only cache within 256 |
| Runs.OpenAndRun | vnmcore/src/fs/fuse.rs:507-641 | the same from the open on: the first moment is the state before with one new handle, what the disk records of the file, and the bookkeeping of dirty and cached chunks starts there |
| Runs.Session | vnmcore/src/fs/fuse.rs:507-641 | open, run, release: the last moment of the run is the one that the release's flush meets; the closed file holds what the plain byte string says and no handle is left, if and only if that flush goes through |
| Runs.RunOne | vnmcore/src/fs/fuse.rs:530-641 | one operation as one step: its result, its effect on bytes, disk, handle and free list, and exactly when a write or a flush succeeds |
| RunSteps.OneTraced | vnmcore/src/fs/fuse.rs:507-641 | one step in front of a traced run gives a traced run: every moment holds what the operations so far make of the bytes, and whether the run is cut short stays as it was |
| AppendRuns.AppendRun | FORMAT.md:742-753 | over every run of reads, appends and flushes, each a step from moment to moment that fails or not as that moment decides, every disk state recorded, one per slot written or wiped, shows exactly the bytes of the latest flush |
| AppendRuns.OpenAndAppend | FORMAT.md:742-753 | the same for a run that starts with the open of a closed file, which the disk shows whole |
| AppendRuns.AheadShowsPrefix | FORMAT.md:742-753 | what the disk shows in such a run is a prefix of the file |
| Runs.RunRecipients | vnmcore/src/fs/container.rs:426-480 | after every sequence of additions and removals the table holds exactly the recipients that are left, in order, every password slot under the profile of the header |
| Runs.OnlyRecipientsOpen | vnmcore/src/fs/container.rs:595-618 | after any such run exactly the current recipients recover the master key, or a key collision is exhibited, or a recipient's own sealing that is also one under the key that was tried |
| Container.VnmContainer.ReadNode | vnmcore/src/fs/container.rs:484-487 | exactly the node of a slot in use |
| Container.VnmContainer.WriteNode | vnmcore/src/fs/container.rs:488-493 | the least free slot now holds the node; fails exactly without free slot or when the node does not fit, and then the slot is lost; the free list is exactly the old one without its last entry |
| Container.VnmContainer.UpdateNode | vnmcore/src/fs/container.rs:494-497 | the slot now holds the node, all others what they held; fails exactly when it does not fit |
| Container.VnmContainer.FreeNode | vnmcore/src/fs/container.rs:498-498 | the slot is overwritten with the next 32 KiB of random bytes and back in its place in the free list, all other nodes stay |
| Container.VnmContainer.FreedIsWiped | vnmcore/src/storage/slot_store.rs:149-173 | whatever has been written, freed or flushed since, every slot that held a node and is free now holds nothing but random bytes |
| Container.ScrubbedStays | vnmcore/src/storage/slot_store.rs:149-173 | writing, wiping or losing a slot, and saving the list, keep it so for every free slot that ever held a node |
| Container.VnmContainer.Flush | vnmcore/src/fs/container.rs:502-507 | the disk now holds free list, next generation and root beside the nodes: after any slot write the root recorded is that of the slots in use, else the one that was recorded before; fails exactly when the bitmap does not fit its slot |
| Codecs.LawfulIsConsistent | vnmcore/src/storage/vault_fs.rs:1-76 | the laws assumed of node serialisation have an instance |
| Container.FreeListDetermined | vnmcore/src/storage/slot_store.rs:163-187 | which slots hold nodes determines the free list |
| Mount.FlushContainer | vnmcore/src/fs/container.rs:502-514 | flush, then record exactly the new generation as the baseline; with a state file that cannot be written the container is flushed, the old baseline stays and the call fails; the root recorded is as for the flush |
| Mount.CreateVolume | vnmcore/src/fs/container.rs:269-277 | a new volume holds the empty root directory, every other data slot free, generation 1 on disk and in the baseline, no root recorded but the next flush due to compute it, and no byte changed outside the root and the allocation slot |
| Mount.FreshSound | vnmcore/src/fs/container.rs:269-277 | that volume is a sound file system |
| Mount.CreateAndMount | vnmcore/src/fs/fuse.rs:210-218 | a new container mounts with an empty root directory: the initial state of every run |
| Mount.OpenVolume | vnmcore/src/fs/container.rs:349-366 | an intact allocation block is accepted if and only if the stored root matches the used slots and the generation is not below the baseline; a persisted container opens as flushed |
| Mount.AcceptedIsFlushed | vnmcore/src/storage/slot_store.rs:238-248 | an accepted file has, in every used slot, the raw bytes of the flush, or two colliding hash calls are computed |
| Mount.FlushedIsKept | vnmcore/src/storage/slot_store.rs:191-248 | the same for every root that a flush computes, also the zeros of an empty volume: otherwise a collision is computed, or a hash call that answers all zeros |
| Mount.LostSlotRaisesAlarm | vnmcore/src/storage/slot_store.rs:163-166 | a root that fits the used slots does not fit them with one free slot more in use: a slot popped but never written makes it stale, or a collision is computed |
| Mount.LostSlotRun | vnmcore/src/storage/slot_store.rs:105-166 | the run: a container opened, a node too large handed to write_node, a flush: the file records one free slot less under the old root, and the next open is refused for it, or a collision is computed |
| Mount.FlushAndReopen | vnmcore/src/fs/container.rs:502-514 | unmount and mount through the file alone give back every directory and every byte of every file, and never a false alarm; after any slot write the root recorded is that of the slots in use |
| SlotStore.ImageReads | vnmcore/src/storage/slot_store.rs:105-146 | a slot image reads back as its text, except an empty text under Triple |
| SlotStore.OtherSlotsUnchanged | vnmcore/src/storage/slot_store.rs:105-126 | writing one slot leaves every other byte of the file |
| SlotStore.Store.Write | vnmcore/src/storage/slot_store.rs:105-126 | the slot holds the payload sealed under nonces drawn for this write alone, and reads back as the payload; fails exactly when it does not fit, changing no byte |
| SlotStore.Store.Read | vnmcore/src/storage/slot_store.rs:129-146 | exactly what the slot's length prefix and envelope yield |
| SlotStore.Store.Wipe | vnmcore/src/storage/slot_store.rs:149-159 | the whole slot is overwritten with the next 32 KiB of random bytes, no other changes, and the root is marked stale |
| SlotStore.Store.Alloc | vnmcore/src/storage/slot_store.rs:163-166 | the least free slot, and freeing it again restores the list |
| SlotStore.Store.FreeSlot | vnmcore/src/storage/slot_store.rs:168-173 | the list stays strictly descending with exactly that slot added, which holds the next 32 KiB of random bytes |
| SlotStore.UsedSlots | vnmcore/src/storage/slot_store.rs:182-187 | the data slots that are not free, never the allocation slot |
| SlotStore.Store.UpdateMerkleRoot | vnmcore/src/storage/slot_store.rs:191-200 | the cached root is the tree root of the used slots as they are |
| SlotStore.AllocRoundTrip | vnmcore/src/storage/slot_store.rs:211-226 | the allocation block parses back to count, generation, root and bitmap, in both formats |
| SlotStore.Store.SaveFreeList | vnmcore/src/storage/slot_store.rs:258-281 | the allocation slot records list, next generation modulo 2^64 and root, and the root of the used slots stays that; fails exactly when the bitmap does not fit |
| SlotStore.Store.LoadFreeList | vnmcore/src/storage/slot_store.rs:211-255 | what was saved is restored identically, and accepted if and only if the root is current; of any other block what it says is taken over and checked the same way; an unreadable or too short one frees every data slot and changes nothing else |
| SlotStore.Store.RebuildFreeList | vnmcore/src/storage/slot_store.rs:283-289 | every data slot is free, in descending order |
| SlotStore.AllocWriteKeepsRoot | vnmcore/src/storage/slot_store.rs:182-200 | rewriting the allocation slot keeps the root of the used slots, and a current root current |
| FreeList.PopThenInsert | vnmcore/src/storage/slot_store.rs:163-173 | the popped entry is the least, and inserting it again restores the list exactly |
| FreeList.InsertDescends | vnmcore/src/storage/slot_store.rs:168-173 | inserting a slot that is not free keeps the list strictly descending |
| FreeList.FreedTwice | vnmcore/src/storage/slot_store.rs:163-173 | freeing a slot that is already free lists it twice in a row, so two allocations in a row hand it out; no other slot does that |
| FreeList.SaveBitmap | vnmcore/src/storage/slot_store.rs:258-265 | bit i is set exactly for the free slots, for every count |
| FreeList.LoadBitmap | vnmcore/src/storage/slot_store.rs:228-236 | exactly the slots whose bit is set, descending |
| FreeList.SaveThenLoad | vnmcore/src/storage/slot_store.rs:228-265 | saving and loading gives the identical list for every slot count |
| FreeList.EncodedListIsUnique | vnmcore/src/storage/slot_store.rs:228-236 | one strictly descending list per bitmap |
| Merkle.LevelKeepsTree | vnmcore/src/storage/merkle.rs:57-70 | one level with odd carry has the same tree hash as the level below |
| Merkle.SplitPointUnique | vnmcore/src/storage/merkle.rs:15-22 | the split is the only power of two in its interval, as section 2.1 of RFC 6962 asks |
| Merkle.ComputeMerkleRoot | vnmcore/src/storage/merkle.rs:31-73 | the loop computes the recursive tree over the leaf hashes, zeros for no slot, an error exactly for an unreadable one |
| Merkle.Reduce | vnmcore/src/storage/merkle.rs:53-72 | the bottom-up loop ends with the recursive tree hash |
| Merkle.NextLevel | vnmcore/src/storage/merkle.rs:57-70 | pairs are hashed and an odd node carried |
| Merkle.MessagesInjective | vnmcore/src/storage/merkle.rs:39-51 | equal leaf messages mean equal slots with equal raw bytes |
| Merkle.RootBinds | vnmcore/src/storage/merkle.rs:31-73 | equal non-zero roots mean equal slot lists and raw bytes, or a concrete collision is computed |
| Merkle.RootIsAnswer | vnmcore/src/storage/merkle.rs:31-73 | the root of a non-empty list is what one concrete call of the hash answers |
| Cipher.SealedLength | vnmcore/src/crypto/cipher.rs:74-92 | a sealed block is exactly vnmb_overhead longer than its text |
| Cipher.EncryptBlock | vnmcore/src/crypto/cipher.rs:122-127 | the block format under the next nonces of the generator, of exactly that length |
| Cipher.EncryptSingle | vnmcore/src/crypto/cipher.rs:129-174 | the single-layer format |
| Cipher.EncryptTriple | vnmcore/src/crypto/cipher.rs:176-232 | the three-layer format with three derived keys |
| Cipher.OpenTripleIff | vnmcore/src/crypto/cipher.rs:293-353 | three layers open to a text exactly when they are the layers made from it |
| Cipher.OpenBlockIff | vnmcore/src/crypto/cipher.rs:236-353 | a block opens to a text if and only if it is a sealing of it, non-empty for Triple |
| Cipher.SealedOpens | vnmcore/src/crypto/cipher.rs:122-353 | decrypt undoes encrypt for all four ciphers, except an empty text under Triple |
| Cipher.DecryptSingle | vnmcore/src/crypto/cipher.rs:243-291 | the buffer algorithm opens exactly what the format says |
| Cipher.DecryptTriple | vnmcore/src/crypto/cipher.rs:293-353 | the same for three layers peeled in place |
| Cipher.DecryptBlockInto32 | vnmcore/src/crypto/cipher.rs:357-417 | succeeds with p if and only if decrypt_block yields a 32-byte p |
| Cipher.IdealIsConsistent | vnmcore/src/crypto/cipher.rs:122-353 | the laws assumed of the ciphers have an instance |
| Header.BodyOpensFull | vnmcore/src/container/header.rs:76-90 | a body that opens has the full length of its cipher, so no field is cut short |
| Header.EncodeBody | vnmcore/src/container/header.rs:127-139 | every field at its offset, zeros after |
| Header.EncodeHeader | vnmcore/src/container/header.rs:115-150 | 512 bytes: the next random bytes as salt, plaintext fields, body sealed under the next nonces |
| Header.DecodeHeader | vnmcore/src/container/header.rs:157-185 | exactly the fields of the sealed body, or the error of the first check that fails |
| Header.HeaderRoundTrip | vnmcore/src/container/header.rs:115-185 | every field comes back for every cipher, within 512 bytes |
| Header.DecodedIsAuthentic | vnmcore/src/container/header.rs:167-171 | only a body sealed under this key and cipher decodes |
| Header.PlaintextIsUnbound | vnmcore/src/container/header.rs:115-185 | salt and slot counts are not authenticated: replacing them still decodes, with the replaced counts |
| Recipients.EncodePasswordSlot | vnmcore/src/container/recipient.rs:57-72 | a 176-byte slot: salt and nonces the next random bytes, the given KDF profile, the master key sealed under the password's key with that profile |
| Recipients.EncodeKeySlot | vnmcore/src/container/recipient.rs:110-121 | a 1743-byte slot sealing it under the secret encapsulated with the next random bytes |
| Recipients.TryPasswordSlot | vnmcore/src/container/recipient.rs:87-106 | the first cipher in the fixed order that opens the slot to 32 bytes |
| Recipients.TryKeySlot | vnmcore/src/container/recipient.rs:128-145 | the same after decapsulation |
| Recipients.ProbeFinds | vnmcore/src/container/recipient.rs:97-104 | a slot yields its own cipher if and only if none listed earlier opens it |
| Recipients.PasswordRoundTrip | vnmcore/src/container/recipient.rs:57-106 | the right password recovers the master key if and only if no single cipher opens a prefix of the slot |
| Recipients.KeyRoundTrip | vnmcore/src/container/recipient.rs:110-145 | the right private key recovers it if and only if no cipher listed earlier opens the slot |
| Recipients.KeyingIsConsistent | vnmcore/src/container/recipient.rs:110-145 | the laws assumed of key encapsulation have an instance |
| RecipientTable.TailRecovered | vnmcore/src/fs/container.rs:108-127 | the modulus recovers the tail that create chose, hence the backup offset |
| RecipientTable.ContainerFile.Create | vnmcore/src/fs/container.rs:240-267 | both header copies and the first recipient, under the profile of the header and coins of their own, at the offsets create chooses, for given slot counts; every other recipient slot and every data slot keeps its random bytes |
| RecipientTable.ContainerFile.UpdateSlotCounts | vnmcore/src/fs/container.rs:625-639 | both copies are the same new header with only the counts changed, under a new salt and new nonces; nothing else changes |
| RecipientTable.ContainerFile.AddPasswordRecipient | vnmcore/src/fs/container.rs:426-436 | the recipient is appended, its key derived and its slot marked with the profile that the header records, under a salt and nonces of its own; both copies stay identical, the rest of the file stays; refused exactly when eight are in use |
| RecipientTable.ContainerFile.AddKeyRecipient | vnmcore/src/fs/container.rs:439-449 | the same for a key recipient |
| RecipientTable.ContainerFile.RemoveKeyRecipient | vnmcore/src/fs/container.rs:455-480 | exactly that recipient goes, the others keep their order, and the slot vacated at the end holds only random bytes; refused exactly for an index out of range |
| RecipientTable.TryPwSlots | vnmcore/src/fs/container.rs:595-601 | the first of n slots that the password opens, for any n; a slot past the end of the file ends the search |
| RecipientTable.TryKeySlots | vnmcore/src/fs/container.rs:612-618 | the first of n slots that the private key opens |
| RecipientTable.PasswordRecovers | vnmcore/src/fs/container.rs:595-601 | a password recovers the master key if and only if it is a current recipient, and nothing otherwise; an exception hands out two passwords with one key, or a slot whose own sealing is also one under the key tried |
| RecipientTable.KeyRecovers | vnmcore/src/fs/container.rs:612-618 | the same for a private key, with a foreign key that decapsulates to the recipient's secret as the other exception |
| RecipientTable.FindHeader | vnmcore/src/fs/container.rs:334-366 | the first header that decodes, by place and then by cipher |
| RecipientTable.HeaderFound | vnmcore/src/fs/container.rs:334-366 | either copy gives the metadata when nothing looked at earlier decodes |
| RecipientTable.BackupServes | vnmcore/src/fs/container.rs:334-366 | whatever happened to the first 512 bytes, the master key finds the metadata in the backup copy, or something looked at earlier decodes as well |
| Lifecycle.SlotsKeepTable | vnmcore/src/storage/slot_store.rs:105-126 | writing data slots keeps both header copies and every recipient slot |
| Lifecycle.RecipientsKeepVolume | vnmcore/src/fs/container.rs:426-480 | changing recipients keeps the volume as it was flushed |
| Lifecycle.ReadCounts | vnmcore/src/fs/container.rs:308-324 | the slot counts open works with: the first of the three header places whose counts are not both zero |
| Lifecycle.CountsOfBackup | vnmcore/src/fs/container.rs:308-324 | with the first counts wiped they are the backup's, unless the hidden volume's header at the end of the file comes first |
| Lifecycle.FindOuter | vnmcore/src/fs/container.rs:326-345 | credential slots, then headers: the master key and metadata that a credential leads to |
| Lifecycle.RecipientFinds | vnmcore/src/fs/container.rs:326-345 | in a sound container file that is the container's key and metadata exactly for current recipients, or a witness is exhibited |
| Lifecycle.RecipientFindsBackup | vnmcore/src/fs/container.rs:308-345 | the same after the first header was wiped, without a hidden volume |
| Lifecycle.OpenContainer | vnmcore/src/fs/container.rs:296-366 | open from credential to volume: a persisted container opens as flushed if and only if the baseline allows it; a credential that finds nothing is refused; the root slot is the one that the header records |
| Lifecycle.SlotCounts | vnmcore/src/fs/container.rs:102-127 | the one layout that fills the requested size: it fits, one slot more would not, and the hidden volume gets the fewest slots that hold it, two at least, or none; refused exactly below the minimum or when that leaves fewer than two outer slots |
| Lifecycle.FillsOnce | vnmcore/src/fs/container.rs:102-127 | no other layout does that |
| Lifecycle.CreateContainer | vnmcore/src/fs/container.rs:89-294 | create from size to baseline: a file of the largest size that slots can fill, with a sound table of the first recipient, and a persisted volume with an empty directory in the slot recorded as the root's and random bytes in every free slot; refused exactly as the slot counts are |
| Lifecycle.CreateThenOpen | vnmcore/src/fs/container.rs:89-366 | create fails exactly when the size or one of the first two slots is too small; what it made fills the requested size and opens with its password as the volume it was, the root slot that of the empty directory, and with no other, or a witness is exhibited |
| Rollback.RollbackState.Check | vnmcore/src/rollback.rs:54-65 | refused if and only if the generation is below the stored one |
| Rollback.RollbackState.Update | vnmcore/src/rollback.rs:68-91 | only this container's entry changes, and none if the state file cannot be written |
| Rollback.RollbackState.Reset | vnmcore/src/rollback.rs:78-91 | only this container's entry goes, and then every generation passes; none if the state file cannot be written |
| Rollback.OnlyLatestOpens | vnmcore/src/fs/container.rs:502-514 | the protocol as a state machine: in every run without reset and with fewer than 2^64 saves, an open is accepted if and only if the block on disk is the latest one saved |
| Rollback.WrapIsTheLimit | vnmcore/src/storage/slot_store.rs:266-272 | no earlier save passes the check if and only if there were fewer than 2^64 |
| Rollback.StaleAccepted | vnmcore/src/storage/slot_store.rs:266-272 | of the protocol: for every count from 2^64 on there is a run after which a stale block is accepted |
| RollbackRuns.SameBlock | vnmcore/src/storage/slot_store.rs:211-226 | an allocation block records the same list, generation and root whatever the rest of the file is |
| RollbackRuns.Device.LatestBlock | vnmcore/src/fs/container.rs:502-514 | without reset and below 2^64 saves the file holds the latest allocation block, as raw bytes, if and only if the latest save wrote it |
| RollbackRuns.Device.Flush | vnmcore/src/fs/container.rs:502-514 | a flush of the container file never fails here, writes only the allocation slot, and is the next step of the protocol, its block the latest; after any slot write the root in it is that of the slots in use, else the one before |
| RollbackRuns.Device.Restore | vnmcore/src/fs/container.rs:349-352 | any file with an allocation block that some flush wrote is a restored copy to the protocol |
| RollbackRuns.Device.Open | vnmcore/src/fs/container.rs:349-366 | accepted exactly when the recorded root fits and the generation is not below the baseline, which without reset and below 2^64 saves means the latest flush's block; that block never raises the rollback alarm, and any other does if its own root fits |
| RollbackRuns.AcceptedBytes | vnmcore/src/storage/slot_store.rs:238-248 | after such an open every slot in use holds the bytes of the latest flush, if that recorded the root of the slots in use, or a collision or an all-zero hash is computed |
| RollbackRuns.FlushedBytesReturn | vnmcore/src/fs/container.rs:349-514 | in any such run: a slot written or wiped, then a flush before the close, and whatever file is put in its place an open accepted before the next flush finds every slot in use as that flush left it, or the hash is broken |
| RollbackRuns.CreateDevice | vnmcore/src/fs/container.rs:269-277 | a created container is the first world of the protocol, with its first root still to be computed |
| RollbackRuns.RunDevice | vnmcore/src/fs/container.rs:349-514 | over any run of slot writes, allocations, flushes, closes, copies, restores and opens of the container file, every operation takes the device from moment to moment as its step says, and without a reset and below 2^64 saves every open is accepted exactly for the latest block with a fitting root |
| RollbackRuns.StaleOpen | vnmcore/src/storage/slot_store.rs:266-272 | for every count from 2^64 on: the container file itself, copied, flushed until there are that many saves, closed and replaced by the copy, is accepted without a reset |

## Left out

- Runs with writes past the end, after which a file may lack bytes, though each such write is stated exactly; the operations of several handles on one file, where a second open is followed up to the handle it gives.
- Fuse.VenomFuse.OpFlush: when the overflow chain could not be rewritten, the file is not promised to be sound, only its bytes through the handle and the other files' slots, because the program leaves the chain in pieces.
- Fuse.VenomFuse.OpUnlink: not a file whose head lists slots that are no longer its own, as after a flush that freed excess slots and then could not rewrite the head; the program would free them again.
- Fuse.VenomFuse.OpRename: not onto a name under which the new parent lists itself, which needs a cycle made before.
- Fuse.VenomFuse.OpOpen: handle and inode numbers are unbounded, so they never wrap; a second open only while the recorded index chain comes to an end.
- Fuse.VenomFuse.OpRead: offsets are not negative.
- OpenFiles.OpenFile.Write: no bound on cached chunks, because chunks that a write creates are added without evicting.
- Mount.OpenVolume: the allocation block is the one a flush saved or the result is only what the root check implies; the fallback for an unreadable block is stated by `SlotStore.Store.LoadFreeList`.
- Mount.LostSlotRun: the program hands no node to `write_node` that does not fit, so only an I/O error there takes this way.
- Mount.CreateVolume: the state file can be written, as in the runs of `RollbackRuns`; `Mount.FlushContainer` says what happens otherwise. An unreadable state file counts as empty.
- The contents of the hidden volume and its headers, which `open` tries when the outer one is not found; key files and fingerprints, and the listing of recipients.
- The insides of ciphers, password hashing, key encapsulation, hashing and the random generator; locked memory.
- The byte format of nodes, and containers whose free-list bitmap does not fit one slot, beyond the exact failure of flush.
- I/O errors of the container file, crashes between two writes of it, and concurrent use.
- vnmcore/src/fs/winfsp.rs, the mount calls, attributes, directory listing and statistics of the file system traits, the C interface and the frontend.
