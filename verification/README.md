# OS/161 kernel: a Dafny model

This project models the parts of the OS/161 teaching kernel where many pieces of
state must agree at all times, and proves what those parts promise for every
input, every run and every interleaving. `dafny verify dfyconfig.toml` checks
the whole project.

**The SFS file system** (`Layout`, `Bits`, `Bitmap`, `Uio`, `SfsState`, `SfsUpdate`,
`SfsIo`, `SfsTruncate`, `Sfs`, `SfsNode`, `SfsNames`, `SfsSpace`, `SfsDir`, `SfsRun`, `Mksfs`).
A volume is a device of 512-byte blocks, a free map of packed bytes, the loaded
vnodes with their cached inodes, and the dirty flags. One invariant says that
superblock, free map, inode, indirect and data blocks are pairwise different and
are exactly what the free map marks, and that everything clean equals its copy
on the device. Every operation keeps it. On top of it:

- reads, writes and truncations of any range refine a byte string per file
  (`SfsIo.ReadDelivers`, `SfsIo.WriteRefines`, `SfsTruncate.TruncateContent`);
- names are unique and link counts count names, also after failures (`SfsDir`);
- every sequence of system calls is a run of a map from names to byte strings, in
  which calls fail only for a reason (`SfsRun.Run`), and for want of space only if
  the files can fill the volume (`SfsRun.RefusedOnlyIfFull`);
- after every sync and remount of a run the device alone is the volume
  (`SfsNode.CleanDurable`, `SfsRun.Run`, `SfsRun.MountAfterSync`);
- what `mksfs` writes is a volume in this order (`Mksfs.MakeAndMount`).

**The kernel heap** (`KheapState`, `KheapUpdate`, `KheapSteps`, `Kheap`, `Kmem`). Memory is an
array of words, and the free lists live in it, inside the pages they describe.
Live pieces are disjoint, aligned and large enough, no free-list cell is ever
inside one, clients may write what they like into their own pieces, and freeing
everything returns every page. `Kmem` puts it on top of the page allocator of the
paging model.

**Concurrency** (`CatMouse*`, `Synch*`, `Queue`, `Threads`). Semaphores, locks and
condition variables are a state machine over the statements of `synch.c`, with a
preemption possible wherever interrupts are on; the cat and mouse simulation is
one over the statements of `catmouse.c` and `bowls.c`. Both are proved safe in
every interleaving. What callers get is counted off the runs themselves, not by
the primitives: calls, returns, locks and waits in `SynchCalls`, meals and wakeups
in `CatMouseMeals`. The thread lists, ring buffer and scheduler below them are
classes.

**Paging** (`PagingState`, `Paging`, `PagingKernel`, `PagingSpace`, `PagingRun`). Frames,
swap slots and the TLB together refine a flat map from (process, page) to
contents over every run from boot, in which a store goes through if and only if
the page may be written (one case apart, see below), while every statistics counter
says what its name says. Frames and slots are conserved, so a run that halts for want of a
place has filled the machine.

**Library code** (`Pseudorand`, `PseudorandPeriod`, `Printf`, `PrintfLaws`, `Atoi`). The generator's
arithmetic and its full period of 2^31 - 2, the printf state machine, its buffer
and the meaning of its formats, and the round trip from `%d` back through `atoi`. `Sums` and `Options` are
shared helpers.

## How to read the model

Code that changes things in place is a class or a method with loops and
`modifies` clauses. Next to each class there is a value that stands for its
state (`SfsState.State`, `KheapState.Heap`, `PagingState.State`), on which the
invariants are stated and the lemmas proved. Ghost fields (`roles`, `book`, `live`,
`held`, `view`, `rw`, `kruns`, `sent`) only record what a block, page or piece is used
for and what memory and output mean. An assertion or panic of the source that a
caller could trigger is modelled as a result or, where the source makes it the
caller's duty, as a precondition; all others are shown to be unreachable.

## Where the code differs from what it is meant to do

The model follows the code. Each item has a lemma or contract that says exactly
when the intended behaviour is met.

- A write that fails still raises the size to the offset it reached
  (`SfsIo.WriteRefines` states the result by the number of bytes moved).
- `sfs_truncate` to a length other than 0 leaves the tail of the last block, and in
  the indirect range one block more, so old bytes can come back
  (`SfsTruncate.TruncateClearsTail`, `SfsTruncate.TruncateLeavesStaleByte`). The kernel only
  truncates to 0.
- `sfs_rename` asserts that its file is not a directory, and `sfs_link` may have given
  the root directory a name (`SfsDir.Rename`, `SfsRun.RenameOfRoot`).
- `mksfs` rounds the size of its free map up in 32 bits, and past 0xfffff000 blocks
  writes none (`Mksfs.RoundsUp`, `Mksfs.MakeFilesystem`).
- `thread_fork` preallocates room so that a switch cannot fail, but a ring of n holds
  n - 1: with 32 threads, none asleep, a yield needs memory
  (`Threads.ThreadSystem.Stash`, `Threads.YieldFails`).
- `kmalloc` rounds up to pages in 32 bits and asks for 0 pages for sizes close to
  2^32; `alloc_kpages` then answers with a frame that it does not reserve
  (`Kheap.KernelHeap.Kmalloc`, `KheapSteps.NoPages`, `Kmem.WrapsToFreeMemory`).
- `sd_get_by_addr` counts the end address of a segment as part of it, so that a page
  may be refused, or loaded as part of the wrong segment (`Paging.SegOfOwner`,
  `Paging.AnswerMeant`, `Paging.RefusedAtEnd`, `Paging.DataAfterText`).
- `vm_fault` refuses a page at the end of a read-only segment only after it has mapped
  it, so its TLB entry lets stores through until it is replaced (`Paging.SlipsIff`,
  `Paging.Vm.UserWrite`).
- Address 0 marks a slot of the swap file as free, so a page at address 0 does not
  survive there (`PagingState.KeptUnlessZero`).
- Padding with zeros behind the digits (`-` together with `0`) makes `atoi` read a
  different number (`Atoi.RoundTrip`, `Atoi.ZerosBehind`).

## Model

| member | source | states |
|---|---|---|
| `Layout.WordsUnwords` | kern/include/kern/sfs.h:44-51 | 128 words written big-endian into a block are read back unchanged |
| `Layout.UnwordsWords` | kern/include/kern/sfs.h:44-51 | a block read as 128 words and written again is the same block |
| `Layout.InodeRoundTrip` | kern/include/kern/sfs.h:44-51 | every inode survives being written to its block and loaded from it |
| `Layout.InodeLayout` | kern/include/kern/sfs.h:44-51 | the bytes of a block are the fields of struct sfs_inode, in order and big-endian |
| `Layout.ZeroInode` | kern/fs/sfs/sfs_vnode.c:30-35 | a cleared block reads as an inode of invalid type with no blocks |
| `Layout.EntryRoundTrip` | kern/include/kern/sfs.h:56-59 | every directory entry whose name fits survives being written and read |
| `Layout.EntryLayout` | kern/include/kern/sfs.h:56-59 | the bytes of an entry are the inode number, big-endian, and the name up to its NUL |
| `Bitmaps.SetBitMarks` | kern/lib/bitmap.c:108-118 | setting a bit in a byte adds exactly that bit to the marked set |
| `Bitmaps.ClearBitUnmarks` | kern/lib/bitmap.c:121-131 | clearing a bit removes exactly that bit |
| `Bitmaps.MarkedDetermines` | kern/lib/bitmap.c:98-105 | two bitmaps of one length with the same marked bits are the same bytes |
| `Bitmaps.Bitmap.constructor` | kern/lib/bitmap.c:31-64 | no bit below nbits is marked, and every bit of the last byte past nbits is |
| `Bitmaps.Bitmap.Alloc` | kern/lib/bitmap.c:73-94 | the lowest clear bit, always below nbits; no result exactly when every bit is marked |
| `Bitmaps.Bitmap.Mark` | kern/lib/bitmap.c:108-118 | one bit is added; its assertion is the precondition |
| `Bitmaps.Bitmap.Unmark` | kern/lib/bitmap.c:121-131 | one bit is removed; its assertion is the precondition |
| `Bitmaps.Bitmap.IsMarked` | kern/lib/bitmap.c:135-142 | membership in the marked set |
| `Uios.Uio.constructor` | kern/userprog/uio.c:114-123 | a kernel buffer as a transfer of its whole length |
| `Uios.Uio.Move` | kern/userprog/uio.c:12-82 | moves exactly the bytes asked for, or what is left if that is less, and advances memory, offset and residue together |
| `Uios.Uio.MoveZeros` | kern/userprog/uio.c:85-108 | the same as moving that many zeros, in chunks of sixteen |
| `SfsState.BlocksDisjoint` | kern/fs/sfs/sfs_vnode.c:115-261 | in order, no block serves two purposes: data, indirect, inode, superblock and free map blocks of all files are pairwise different |
| `SfsState.FreemapMeaning` | kern/fs/sfs/sfs_vnode.c:60-103 | in order, a block is marked in the free map if and only if it is the superblock, free map, an inode, an indirect or a data block |
| `SfsState.PointerUsable` | kern/fs/sfs/sfs_vnode.c:160-168 | a nonzero block number of a file is in range, allocated and not metadata: the panic on a block marked free cannot happen |
| `SfsState.InodeUsable` | kern/fs/sfs/sfs_vnode.c:1562-1591 | an inode's block is allocated and its type valid: the panics of sfs_loadvnode cannot happen |
| `SfsState.FileOnDevice` | kern/fs/sfs/sfs_vnode.c:117-261 | a file that is not loaded is what the bytes of its inode block, its indirect block and its data blocks on the device say, byte for byte |
| `Sfs.MapBytesOnDisk` | kern/fs/sfs/sfs_fs.c:41-73 | the free map bytes are exactly the map blocks of the device, one after the other |
| `Sfs.ReadMap` | kern/fs/sfs/sfs_fs.c:41-73 | the free map read is exactly the map blocks of the device |
| `Sfs.Volume.Mount` | kern/fs/sfs/sfs_fs.c:210-311 | the mounted state is what the device holds: no vnode loaded, free map read, nothing dirty; a volume larger than its device is mounted too, and is in shape if it fits |
| `Sfs.Volume.WBlock` | kern/fs/sfs/sfs_io.c:66-71 | one block of the device changes; what is clean in memory stays equal to the device unless the block is the superblock or part of the free map |
| `Sfs.Volume.Balloc` | kern/fs/sfs/sfs_vnode.c:62-78 | the lowest free block, marked and cleared, and the map dirty; or no space, and then no block is free |
| `Sfs.Volume.Bfree` | kern/fs/sfs/sfs_vnode.c:85-89 | exactly one block becomes free and the map dirty |
| `Sfs.Volume.Bused` | kern/fs/sfs/sfs_vnode.c:96-103 | whether the map marks the block |
| `Sfs.Volume.BmapDirect` | kern/fs/sfs/sfs_vnode.c:137-169 | the pointer of a direct block; allocating changes one file, by one zero block, and keeps the invariant |
| `Sfs.Volume.NeedIndirect` | kern/fs/sfs/sfs_vnode.c:191-232 | the indirect block, allocated cleared if missing; no file's bytes change even if the next step fails |
| `Sfs.Volume.BmapIndirect` | kern/fs/sfs/sfs_vnode.c:171-261 | the same as BmapDirect through the indirect block |
| `Sfs.Volume.Bmap` | kern/fs/sfs/sfs_vnode.c:117-261 | EINVAL exactly past block 143; ENOSPC only on a full volume for an unmapped block; otherwise the file's block, mapped on demand, with every panic unreachable |
| `Sfs.Volume.PartialIo` | kern/fs/sfs/sfs_vnode.c:279-347 | part of one block: reads deliver the file's bytes, holes as zeros, without change; writes patch one file; failures change nothing |
| `Sfs.Volume.RwBlock` | kern/fs/sfs/sfs_io.c:18-55 | one sector moved between the transfer and one block of one file |
| `Sfs.Volume.BlockIo` | kern/fs/sfs/sfs_vnode.c:354-412 | a whole block, with the same contract as a partial one; its byte offset on the device fits 31 bits |
| `Sfs.Volume.MoveBlock` | kern/fs/sfs/sfs_vnode.c:387-411 | turning the transfer into one for the device and back moves exactly that block of the file |
| `Sfs.Volume.WholeBlocks` | kern/fs/sfs/sfs_vnode.c:475-485 | the block loop of sfs_io continues a transfer that began earlier |
| `Sfs.Volume.MoveAll` | kern/fs/sfs/sfs_vnode.c:447-497 | leading part, whole blocks and trailing part together are one contiguous transfer |
| `Sfs.Volume.AdjustLength` | kern/fs/sfs/sfs_vnode.c:499-506 | the size becomes the larger of the old size and the offset reached, also after a failure |
| `Sfs.Volume.Io` | kern/fs/sfs/sfs_vnode.c:419-513 | any byte range of any file: reads and writes meet ReadDone and WriteDone and keep the volume in order |
| `SfsIo.ReadDelivers` | kern/fs/sfs/sfs_vnode.c:419-513 | a read returns the file's bytes from the offset up to end of file or of request, and succeeds whenever it stays within 143 blocks |
| `SfsIo.WriteContent` | kern/fs/sfs/sfs_vnode.c:499-506 | writing bytes zero-extends the file to their end and overwrites exactly them |
| `SfsIo.WriteRefines` | kern/fs/sfs/sfs_vnode.c:419-513 | a write that moved k bytes, failed or not, has written exactly those k bytes, and no other file changed |
| `SfsIo.WrittenWritten` | kern/fs/sfs/sfs_vnode.c:447-497 | two adjoining writes are one write |
| `Sfs.Volume.TruncateDirect` | kern/fs/sfs/sfs_vnode.c:1089-1100 | exactly the direct blocks from the new end on are dropped and freed |
| `Sfs.Volume.ScanEntries` | kern/fs/sfs/sfs_vnode.c:1120-1133 | the loop over the indirect block drops exactly the entries the code's comparison drops |
| `Sfs.Volume.ReleaseIndirect` | kern/fs/sfs/sfs_vnode.c:1135-1140 | an indirect block without entries is freed; no file's bytes change |
| `Sfs.Volume.TruncateIndirect` | kern/fs/sfs/sfs_vnode.c:1102-1148 | the indirect part as a whole |
| `Sfs.Volume.Truncate` | kern/fs/sfs/sfs_vnode.c:1065-1157 | the new size, the blocks the code keeps, and the invariant; blocks only leave the file |
| `SfsTruncate.TruncateToZero` | kern/fs/sfs/sfs_vnode.c:1065-1157 | at length 0 the file is empty and has no blocks |
| `SfsTruncate.TruncateContent` | kern/fs/sfs/sfs_vnode.c:1065-1157 | at every length the visible bytes are the first len bytes, zero-extended |
| `SfsTruncate.TruncateClearsTail` | kern/fs/sfs/sfs_vnode.c:1111-1124 | every later write, also one of no bytes, zero-extends the file and overwrites only its own bytes if and only if no nonzero byte lies between the new end and the end of what the code keeps |
| `SfsTruncate.TruncateLeavesStaleByte` | kern/fs/sfs/sfs_vnode.c:1065-1157 | a two-byte file cut to one byte and written at offset 2 shows its old second byte |
| `SfsNode.LoadVnode` | kern/fs/sfs/sfs_vnode.c:1547-1651 | one more reference, whether the vnode was loaded or not, and a vnode just loaded is what the device holds; no file changes |
| `SfsNode.MakeObj` | kern/fs/sfs/sfs_vnode.c:763-783 | a new empty file at an inode nobody had, or no space and no change |
| `SfsNode.SyncInodeOf` | kern/fs/sfs/sfs_vnode.c:40-51 | one inode becomes clean; no file changes |
| `SfsNode.FreedExactly` | kern/fs/sfs/sfs_vnode.c:858-924 | reclaiming a file frees exactly its inode, indirect and data blocks, each once |
| `SfsNode.Erase` | kern/fs/sfs/sfs_vnode.c:882-915 | a file without links disappears with exactly its own blocks |
| `SfsNode.Decref` | kern/fs/vfs/vnode.c:74-98 | a removed file keeps its bytes until its last reference is dropped; that drop frees exactly its blocks and its vnode |
| `SfsNode.WriteMap` | kern/fs/sfs/sfs_fs.c:41-73 | the map blocks equal the free map, which becomes clean |
| `SfsNode.SyncVnodes` | kern/fs/sfs/sfs_fs.c:119-124 | every loaded inode becomes clean |
| `SfsNode.Sync` | kern/fs/sfs/sfs_fs.c:82-145 | nothing is dirty and no file has changed |
| `SfsNode.DeviceHasAll` | kern/fs/sfs/sfs_fs.c:82-145 | with nothing dirty the device alone determines every file and the free map |
| `SfsNode.CleanDurable` | kern/fs/sfs/sfs_fs.c:82-145 | a mount of the device of a clean volume sees exactly its blocks, free map and files |
| `SfsNode.SyncAndRemount` | kern/fs/sfs/sfs_fs.c:82-311 | mounting again after a sync gives the same files, names, link counts, sizes, contents and free map |
| `SfsNode.Unmount` | kern/fs/sfs/sfs_fs.c:167-192 | EBUSY exactly while a vnode is loaded; either way the device alone is the volume, and after success it mounts to the same state |
| `SfsNode.DoMount` | kern/fs/sfs/sfs_fs.c:210-311 | EINVAL exactly for a wrong magic number; otherwise the device's own state, clean, and in order if the device was and the volume fits |
| `SfsNames.WriteSlot` | kern/fs/sfs/sfs_vnode.c:558-584 | writing an encoded entry at its slot's offset sets that slot and no other |
| `SfsNames.WholeEntryOrNothing` | kern/fs/sfs/sfs_vnode.c:558-584 | a directory write moves the whole entry or fails without change, with EINVAL exactly at the largest size, so the size stays a multiple of the entry size |
| `SfsNames.AddName` | kern/fs/sfs/sfs_vnode.c:666-703 | filling a free slot adds one name to the directory and keeps names unique |
| `SfsNames.DropName` | kern/fs/sfs/sfs_vnode.c:710-720 | clearing a slot removes exactly its name |
| `SfsNames.NameCount` | kern/fs/sfs/sfs_vnode.c:666-703 | a directory has as many names as occupied slots |
| `SfsNames.LinksFit` | kern/fs/sfs/sfs_vnode.c:1245-1264 | link counts always fit 16 bits |
| `SfsNames.LinkedOk` | kern/fs/sfs/sfs_vnode.c:1245-1264 | a new entry together with the raised link count keeps every count equal to the number of entries naming the file |
| `SfsNames.UnlinkedOk` | kern/fs/sfs/sfs_vnode.c:1271-1297 | the same for a cleared entry and the lowered count |
| `SfsDir.ReadDir` | kern/fs/sfs/sfs_vnode.c:525-550 | entry number slot; nothing changes |
| `SfsDir.WriteDir` | kern/fs/sfs/sfs_vnode.c:558-584 | that slot is set and the slots counted, or the call fails without change: with EINVAL exactly at the largest directory size, otherwise on a full volume |
| `SfsDir.FindName` | kern/fs/sfs/sfs_vnode.c:616-658 | found if and only if the name is there, with its slot and inode; otherwise the last free slot, if any |
| `SfsDir.DirLink` | kern/fs/sfs/sfs_vnode.c:666-703 | EEXIST and ENAMETOOLONG exactly when due, EINVAL exactly with all 1144 slots taken, ENOSPC only on a full volume; success fills a free slot or appends; failures change nothing |
| `SfsDir.DirUnlink` | kern/fs/sfs/sfs_vnode.c:710-720 | the slot is cleared, and this cannot fail |
| `SfsDir.LookOnce` | kern/fs/sfs/sfs_vnode.c:728-752 | the named file with one more reference, or ENOENT |
| `SfsDir.Link` | kern/fs/sfs/sfs_vnode.c:1245-1264 | the name is added and one link counted, or nothing changes, for one of those reasons |
| `SfsDir.CreatNew` | kern/fs/sfs/sfs_vnode.c:1214-1236 | a new file under the name, or everything as before: the half-made file is erased, and after ENOSPC at most its own two blocks are free |
| `SfsDir.Creat` | kern/fs/sfs/sfs_vnode.c:1185-1236 | opens the existing file, fails with EEXIST if exclusive, or makes a new one; every other error has its cause |
| `SfsDir.Remove` | kern/fs/sfs/sfs_vnode.c:1271-1297 | the name goes; the file goes with it only if this was its last link and nobody has it open |
| `SfsDir.Rename` | kern/fs/sfs/sfs_vnode.c:1307-1379 | only the key changes, and failures change nothing and have their cause; the assertion fails if and only if the name is one that link gave the root directory |
| `SfsRun.Do` | kern/fs/sfs/sfs_vnode.c:931-1436 | each system call does to a map of names to byte strings what that call should do, with the exact error, and finds no space only if there is none; sync and remount leave everything on the device |
| `SfsRun.HoldsIsAllowed` | kern/fs/sfs/sfs_vnode.c:931-1436 | whether a call is allowed is visible on the simple file system |
| `SfsRun.Run` | kern/fs/sfs/sfs_vnode.c:931-1436 | every sequence of read, write, truncate to 0, creat, link, remove, rename, lookup, close, sync and remounting is a run of the simple file system on a volume of that many blocks: every moment is a volume in order that stands for the simple one, error codes are exact but for ENOSPC, which comes only when no block is free, or only those of a half-made file; after every sync and remount the device alone is the volume; the run is cut short exactly at rename's assertion |
| `SfsRun.ReadsBack` | kern/fs/sfs/sfs_vnode.c:419-513 | a read of bytes just written returns them, and a read of other bytes of the file what it would have returned before |
| `SfsSpace.UsedCount` | kern/fs/sfs/sfs_vnode.c:117-261 | the blocks in use are at most the metadata and, for every file, an inode, an indirect block and one block for each 512 bytes or part of them |
| `SfsSpace.Crowded` | kern/fs/sfs/sfs_vnode.c:62-78 | metadata, files and free blocks make up the volume |
| `SfsRun.DemandMet` | kern/fs/sfs/sfs_vnode.c:62-78 | the same for every moment of a run, counted on the simple file system |
| `SfsRun.RefusedOnlyIfFull` | kern/fs/sfs/sfs_vnode.c:62-78 | ENOSPC anywhere in a run means that metadata and files, counted by their sizes, can fill the volume, up to two blocks for a creat |
| `SfsRun.DoRemount` | kern/fs/sfs/sfs_fs.c:167-311 | closing the root, unmounting, mounting the device again and opening the root gives another volume with every name, file and count as it was, nothing in memory but the root as it is on the device; EBUSY exactly while anything else is open; either way the device alone is the volume |
| `SfsRun.DoSync` | kern/fs/sfs/sfs_fs.c:82-145 | sync changes nothing the callers see, and then the device alone is the volume |
| `SfsRun.MountAfterSync` | kern/fs/sfs/sfs_fs.c:82-311 | mounting the device as any sync of a run left it gives the same names, and the same bytes, kinds and link counts of every file, whatever was open |
| `SfsRun.RenameOfRoot` | kern/fs/sfs/sfs_vnode.c:1307-1379 | link "a" to the root directory and rename it to "b": if the link succeeds, the assertion fails |
| `Mksfs.SuperBlockOk` | sbin/mksfs/mksfs.c:41-56 | the superblock written is one the kernel accepts, and the C string in it is the volume name |
| `Mksfs.LayoutsAgree` | sbin/mksfs/mksfs.c:77-84 | mksfs and the kernel's bitmap put a bit in the same place |
| `Mksfs.TooSmall` | sbin/mksfs/mksfs.c:88-114 | a bit is marked twice if and only if the disk is too small for its own metadata |
| `Mksfs.DoAllocBit` | sbin/mksfs/mksfs.c:77-84 | one bit is added to the map |
| `Mksfs.MarkBits` | sbin/mksfs/mksfs.c:88-108 | exactly the metadata and the bits past the end are marked |
| `Mksfs.WriteBitmap` | sbin/mksfs/mksfs.c:88-114 | the map blocks of the device hold exactly those bits |
| `Mksfs.VolumeName` | sbin/mksfs/mksfs.c:132-147 | one colon at the end is dropped; a colon elsewhere or a slash is refused |
| `Mksfs.MakeFilesystem` | sbin/mksfs/mksfs.c:117-165 | a fresh image that bears the stripped name, or refusal exactly for an illegal name, or a name or a device that is too large; past 0xfffff000 blocks, where the size of the free map wraps around, no map is written |
| `Mksfs.FreshInv` | sbin/mksfs/mksfs.c:41-114 | a fresh image mounts in order, with an empty root directory and nothing else |
| `Mksfs.MakeAndMount` | sbin/mksfs/mksfs.c:117-165 | making, mounting and opening the root gives a volume ready for any run |
| `Mksfs.MakeAndRun` | sbin/mksfs/mksfs.c:117-165 | any calls on a new file system are such a run on a volume of the device's size, from an empty root directory |
| `Mksfs.RoundsUp` | kern/include/kern/sfs.h:19-25 | rounding up to whole map blocks in 32 bits gives 0 exactly past 0xfffff000 blocks |
| `Mksfs.FirstCreat` | sbin/mksfs/mksfs.c:117-165 | on a new file system with five blocks beside its metadata the first creat succeeds |
| `KheapState.LiveDisjoint` | kern/lib/kheap.c:352-460 | two allocated pieces never overlap |
| `KheapState.CellsNotLive` | kern/lib/kheap.c:382-400 | no free-list cell lies in an allocated piece |
| `KheapState.NothingLiveNoPages` | kern/lib/kheap.c:518-534 | with nothing allocated the heap holds no page and no page record |
| `KheapUpdate.TakeBlock` | kern/lib/kheap.c:382-405 | taking a block off its page's free list keeps lists, counts, bitmap and free-list links in agreement |
| `KheapUpdate.GiveBlock` | kern/lib/kheap.c:518-526 | so does putting a block back |
| `KheapUpdate.DropPageLists` | kern/lib/kheap.c:309-330 | so does unlinking a page record from both lists |
| `Kheap.BlockType` | kern/lib/kheap.c:334-348 | the smallest size class that fits |
| `Kheap.KernelHeap.constructor` | kern/lib/kheap.c:104-108 | an empty heap in order |
| `Kheap.KernelHeap.AllocPageRef` | kern/lib/kheap.c:112-133 | a record not in use, now in use; none exactly when all are |
| `Kheap.KernelHeap.FreePageRef` | kern/lib/kheap.c:137-148 | one record goes out of use; its assertion is the precondition |
| `Kheap.KernelHeap.FirstWithRoom` | kern/lib/kheap.c:372-378 | a page of the class with a free block; none exactly when all are full |
| `Kheap.KernelHeap.DoAlloc` | kern/lib/kheap.c:380-405 | a free block becomes a live piece of its class's size, naturally aligned; the assertions hold |
| `Kheap.KernelHeap.ThreadPage` | kern/lib/kheap.c:440-450 | the free list of a new page links all its blocks from the last to the first |
| `Kheap.KernelHeap.SubpageKmalloc` | kern/lib/kheap.c:352-460 | a new piece of the smallest fitting class; NULL exactly when no page of the class has room and no record or page can be had; a page is taken only if needed |
| `Kheap.KernelHeap.FindPage` | kern/lib/kheap.c:481-498 | the page that has the address, none exactly when no page has it |
| `Kheap.KernelHeap.FillDeadbeef` | kern/lib/kheap.c:8-16 | every word of the block is overwritten, no other |
| `Kheap.KernelHeap.FindBefore` | kern/lib/kheap.c:309-330 | the record before a given one on either list |
| `Kheap.KernelHeap.DropPage` | kern/lib/kheap.c:528-534 | an entirely free page leaves both lists and the bitmap and is given back |
| `Kheap.KernelHeap.PushBlock` | kern/lib/kheap.c:507-526 | the piece is no longer allocated, its words are dead, its first word links the old free list |
| `Kheap.KernelHeap.SubpageKfree` | kern/lib/kheap.c:464-540 | -1 exactly for a multi-page piece; otherwise the piece is freed, the alignment panic cannot happen, and the page is released if nothing in it is allocated |
| `KheapSteps.PagesEnough` | kern/lib/kheap.c:552-553 | kmalloc's 32-bit page count covers the request if and only if rounding up does not wrap around |
| `KheapSteps.NoPages` | kern/lib/kheap.c:552-553 | it is 0 exactly for the last 4095 sizes (and for 0, which is never asked for in pages) |
| `KheapSteps.WrapsAround` | kern/lib/kheap.c:552-553 | 0xfffff001 bytes become 0 pages, one byte less 0xfffff pages |
| `Kheap.KernelHeap.Kmalloc` | kern/lib/kheap.c:546-563 | for every size: the bytes given suffice if and only if rounding up to pages does not wrap around; what is given is a new aligned piece, NULL comes only without pages or records; what other pieces hold is unchanged, and pages taken are accounted for exactly |
| `Kheap.KernelHeap.Kfree` | kern/lib/kheap.c:566-577 | exactly that piece is freed, NULL is ignored, what other pieces hold is unchanged, pages given back are accounted for exactly |
| `Kheap.KernelHeap.Store` | kern/lib/kheap.c:382-400 | a client that writes inside its own piece cannot damage the heap |
| `Kheap.KernelHeap.PiecesApart` | kern/lib/kheap.c:546-577 | between calls, allocated pieces are pairwise disjoint and none is NULL |
| `Kheap.KernelHeap.Drained` | kern/lib/kheap.c:566-577 | once everything is freed every page has been given back and no record is in use |
| `Kmem.Start` | kern/lib/kheap.c:97-108 | at boot the heap holds nothing and the page allocator has given out nothing |
| `Kmem.GetPages` | kern/vm/pt.c:127-161 | alloc_kpages as the heap uses it: a run nobody has, 0 exactly without one; asked for no pages it answers with a free frame and reserves nothing |
| `Kmem.Kmalloc` | kern/lib/kheap.c:546-563 | kmalloc on top of alloc_kpages: the heap holds exactly the runs of frames given out, before and after; the pieces are as above |
| `Kmem.Kfree` | kern/lib/kheap.c:566-577 | kfree on top of free_kpages keeps that |
| `Kmem.AllReturned` | kern/lib/kheap.c:566-577 | once every piece is freed every frame is back with the page allocator |
| `Kmem.WrapsToFreeMemory` | kern/lib/kheap.c:546-563 | kmalloc(0xfffff001) answers with the address of a frame that nobody holds and that stays free |
| `CatMouseSafe.EnterKept` | kern/asst1/catmouse.c:160-170 | every step of the entry section keeps the invariant; its two assertions hold |
| `CatMouseSafe.ChooseKept` | kern/asst1/catmouse.c:89-111 | every step of getOpenBowl keeps it, sleeping and rescanning included |
| `CatMouseSafe.StartKept` | kern/asst1/bowls.c:180-213 | no panic or assertion at the start of cat_eat or mouse_eat fires |
| `CatMouseSafe.StopKept` | kern/asst1/bowls.c:219-235 | nor at the end |
| `CatMouseSafe.ReturnKept` | kern/asst1/catmouse.c:175-178 | every step of giving a bowl back keeps the invariant |
| `CatMouseSafe.LeaveKept` | kern/asst1/catmouse.c:180-187 | every step of the exit section keeps it, the reset of Serving included |
| `CatMouseSafe.DriveKept` | kern/asst1/catmouse.c:387-411 | forking the animals and waiting for them keeps it |
| `CatMouseSafe.InitInv` | kern/asst1/catmouse.c:373-380 | it holds at the start |
| `CatMouseSafe.AllOver` | kern/asst1/catmouse.c:407-421 | the bowls are cleaned up only once every animal has finished |
| `CatMouseInv.NoOtherEats` | kern/asst1/catmouse.c:160-170 | while an animal is inside, none of the other species eats |
| `CatMouseInv.BowlFree` | kern/asst1/catmouse.c:89-111 | a bowl just taken has nobody at it |
| `CatMouseInv.SignalsStep` | kern/asst1/catmouse.c:175-178 | while an animal sleeps on BowlSignal, woken animals and pending signals are at least as many as open bowls |
| `CatMouseSafe.EveryRunSafe` | kern/asst1/catmouse.c:87-273 | in every interleaving of any number of cats, mice and bowls: no panic or assertion, cats and mice never eat together, no bowl has two eaters, the records of bowls.c and catmouse.c are who eats where, who has which bowl and who is inside, each lock section has one animal, one species comes in between resets in order 0, 1, 2, ..., and no bowl is forgotten while an animal sleeps |
| `CatMouseMeals.MealsEven` | kern/asst1/catmouse.c:141-190 | counted off any run: an animal has had one meal in every round it finished, and one in the present round once it is past eating |
| `CatMouseMeals.EveryoneFed` | kern/asst1/catmouse.c:385-421 | the bowls are cleaned up only after every cat and every mouse has had NumLoops meals |
| `CatMouseMeals.NextIsCalled` | kern/asst1/catmouse.c:160-170 | an animal that raises Serving has woken all sleepers of its own species before it gives up EatingMutex |
| `CatMouseMeals.OthersAreCalled` | kern/asst1/catmouse.c:180-187 | the animal that sets Serving back has woken all sleepers of the other species before it gives up EatingMutex |
| `SynchSafe.PKept` | kern/thread/synch.c:64-84 | every statement of P keeps the invariant; the assertion holds |
| `SynchSafe.VKept` | kern/thread/synch.c:87-96 | every statement of V keeps it |
| `SynchSafe.AcquireKept` | kern/thread/synch.c:141-158 | every statement of lock_acquire keeps it; the assertion holds |
| `SynchSafe.ReleaseKept` | kern/thread/synch.c:161-175 | every statement of lock_release keeps it; the assertions hold for a holder |
| `SynchSafe.WaitKept` | kern/thread/synch.c:227-242 | every statement of cv_wait keeps it |
| `SynchSafe.SignalsKept` | kern/thread/synch.c:245-276 | every statement of cv_signal and cv_broadcast keeps it |
| `SynchSafe.EveryRunSafe` | kern/thread/synch.c:63-276 | in every interleaving, preemption between any two statements with interrupts on: no assertion fails, no count is negative, nobody sleeps on a positive semaphore or a free lock, no two threads are inside one lock |
| `SynchInv.WaiterSleeps` | kern/thread/synch.c:227-242 | a thread that has let go of its lock in cv_wait and does not run is asleep on the condition variable |
| `SynchSafe.NoLostSignal` | kern/thread/synch.c:245-276 | a broadcast wakes every thread that has let go of its lock to wait, a signal one of them if there is one |
| `SynchCalls.Accounts` | kern/thread/synch.c:63-276 | every call of a primitive is under way or has returned |
| `SynchCalls.EveryRunKept` | kern/thread/synch.c:63-276 | counted off any run: a count is the initial count plus the Vs called minus the Ps called, those apart that have yet to take effect; a thread that got a lock and has not given it up is its holder; a thread that waits has let go of its lock and is asleep whenever another runs; whoever sleeps, sleeps on what it called |
| `SynchCalls.QuietCount` | kern/thread/synch.c:63-96 | with nobody inside V, nor inside P past its wait, a count is the initial count plus the Vs that returned minus the Ps that returned |
| `SynchCalls.ReturnedLocks` | kern/thread/synch.c:140-242 | whoever returns from lock_acquire or cv_wait holds the lock, and whoever returns from lock_release does not |
| `SynchCalls.SignalReturns` | kern/thread/synch.c:245-276 | a broadcast that returns has woken every thread that waited, a signal one of them if there was one |
| `SynchCalls.WaitReturns` | kern/thread/synch.c:227-242 | a cv_wait that returns let go of its lock and was woken by a signal or a broadcast of another thread on its condition variable |
| `Queues.Queue.constructor` | kern/lib/queue.c:54-68 | an empty queue |
| `Queues.Queue.Empty` | kern/lib/queue.c:85-88 | whether the queue is empty |
| `Queues.Queue.Grow` | kern/lib/queue.c:19-51 | the same queue in a larger ring, or ENOMEM and no change |
| `Queues.Queue.AddTail` | kern/lib/queue.c:91-108 | first in, first out across wrap-around and growth; the ring grows exactly when it holds size - 1 elements |
| `Queues.Queue.Preallocate` | kern/lib/queue.c:71-81 | room for the given size, the same queue |
| `Queues.Queue.RemHead` | kern/lib/queue.c:111-121 | the first element, and the queue without it |
| `Threads.Arr.Preallocate` | kern/lib/array.c:43-65 | the same elements with room for at least the given number |
| `Threads.Arr.SetSize` | kern/lib/array.c:68-89 | the kept elements stay; shrinking a large array to nothing frees its room |
| `Threads.Arr.Add` | kern/lib/array.c:100-114 | one element more at the end |
| `Threads.Arr.Remove` | kern/lib/array.c:117-127 | the element at the index goes, the order stays |
| `Threads.FilterParts` | kern/thread/thread.c:739-766 | waking splits the sleepers without losing or doubling a thread |
| `Threads.FilterMeaning` | kern/thread/thread.c:739-766 | those woken are exactly the sleepers on the address |
| `Threads.MatchingAppend` | kern/thread/thread.c:739-766 | a thread that fell asleep last is woken last |
| `Threads.OthersAppend` | kern/thread/thread.c:739-766 | and those that sleep on keep their order |
| `Threads.ThreadSystem.constructor` | kern/thread/thread.c:227-282 | one running thread, nothing else |
| `Threads.ThreadSystem.Fork` | kern/thread/thread.c:357-405 | the new thread is ready and counted, and all three lists have been sized for one more; or nothing changes |
| `Threads.ThreadSystem.Stash` | kern/thread/thread.c:584-603 | the running thread goes on exactly one list; without memory this fails if and only if that list has no room, which for the ring is when all threads are ready and as many as its size; the ring grows in exactly that case |
| `Threads.ThreadSystem.Schedule` | kern/thread/scheduler.c:88-105 | the thread that has been ready longest runs |
| `Threads.ThreadSystem.MiSwitch` | kern/thread/thread.c:551-633 | stashing, scheduling and burying the zombies: every thread stays in exactly one state; it fails and the ring grows exactly as above; while the processor idles it returns at once |
| `Threads.YieldFails` | kern/thread/thread.c:584-603 | with 32 threads, none asleep, a thread that yields needs memory although thread_fork preallocated |
| `Threads.ThreadSystem.RoomToSleep` | kern/thread/thread.c:360-367 | with more than one thread the list of sleepers always has room |
| `Threads.ThreadSystem.Exorcise` | kern/thread/thread.c:123-137 | the zombies go; the running thread is not among them |
| `Threads.ThreadSystem.Sleep` | kern/thread/thread.c:724-732 | the running thread is the last of the sleepers, at its address; it fails exactly when the list of sleepers has no room and there is no memory |
| `Threads.ThreadSystem.Wakeup` | kern/thread/thread.c:739-766 | exactly the sleepers on the address become ready, in the order they fell asleep, despite removal during the loop; without memory this fails if and only if the processor idles, the ring is one short of all threads and the last sleeper is woken |
| `Threads.ThreadSystem.WakeupOne` | kern/thread/thread.c:774-798 | the first such sleeper becomes ready, or nothing changes |
| `PagingState.EvictOk` | kern/vm/swapfile.c:133-172 | moving a page from a frame to a free slot keeps flat memory and leaves each page in one place |
| `PagingState.KeptUnlessZero` | kern/vm/swapfile.c:133-218 | a page that is swapped out is still in the swap file after the next one has been if and only if its address is not 0 |
| `PagingState.RestoreOk` | kern/vm/swapfile.c:82-128 | moving a page from its slot to a frame does too |
| `PagingState.FillOk` | kern/vm/addrspace.c:109-170 | giving a frame to a page that did not exist adds that page to flat memory |
| `Paging.Vm.constructor` | kern/vm/coremap.c:27-83 | at boot no process has a page and the counters are balanced |
| `Paging.Vm.GetFreePage` | kern/vm/coremap.c:122-142 | the lowest free frame, now a process's; none exactly when all are in use |
| `Paging.Vm.GetFifoPage` | kern/vm/coremap.c:96-119 | a frame of a process stamped no later than any other, never the kernel's |
| `Paging.Vm.GetFrame` | kern/vm/pt.c:89-111 | the frame of the page an address is in, none exactly when it is in no frame |
| `Paging.Vm.SwapSearch` | kern/vm/swapfile.c:188-200 | the slot of a page, none exactly when it is in no slot |
| `Paging.Vm.SwapFindFree` | kern/vm/swapfile.c:204-218 | the lowest free slot, none exactly when all are used |
| `Paging.Vm.SwapOut` | kern/vm/swapfile.c:133-172 | a free slot now holds the frame's contents under its page; panics exactly when there is none |
| `Paging.Vm.AllocPage` | kern/vm/pt.c:62-83 | the lowest free frame, or else the one stamped first after its page is swapped out, set aside for the page; flat memory is unchanged, slots in use stay, the TLB never names the frame's old page, the counters say what happened; a panic exactly with all frames and slots in use |
| `Paging.Vm.TakeOldest` | kern/vm/pt.c:62-83 | the frame stamped first, after its page is swapped out, with no TLB entry left; a panic exactly when no slot is free |
| `Paging.Vm.SwapIn` | kern/vm/swapfile.c:82-128 | the page is in a frame and in no slot, and may be written from now on; flat memory is unchanged, even if another page had to be evicted in between |
| `Paging.Vm.TlbInvalidate` | kern/vm/vm_tlb.c:123-137 | no entry is valid |
| `Paging.Vm.TlbWrite` | kern/vm/vm_tlb.c:39-87 | the first free entry, or else the next victim in turn, now maps the page to its frame, still the only one of its page; one fault counted, as free or as replace accordingly |
| `Paging.Vm.TlbUpdate` | kern/vm/vm_tlb.c:89-104 | every entry of the page gets the new permission, the others stay as they are |
| `Paging.Vm.SetReadOnly` | kern/vm/vm_tlb.c:110-121 | the entry loses its permission exactly if it lies in the segment |
| `Paging.Vm.ReadOnlyFault` | kern/vm/addrspace.c:74-84 | the page becomes dirty and its entries let stores through if and only if it is writeable; nothing else changes |
| `Paging.Vm.FindSeg` | kern/vm/segments.c:40-69 | the first segment that has the address, its end included; it is another than the one the address belongs to exactly at the end of a segment before that one |
| `Paging.SegOfOwner` | kern/vm/segments.c:57-68 | that condition, for every list of segments |
| `Paging.AnswerMeant` | kern/vm/addrspace.c:105-156 | vm_fault treats a first touch as the address space promises, except exactly at the end of a read-only segment whose page belongs to another segment or the stack, and at the end of a writeable one whose page belongs to nothing |
| `Paging.RefusedAtEnd` | kern/vm/addrspace.c:109-149 | a page of a writeable segment is refused on its first touch exactly when the first segment to end at its address is read-only |
| `Paging.DataAfterText` | kern/vm/addrspace.c:109-149 | data right after read-only text: the first page of the data is refused |
| `Paging.SlipsIff` | kern/vm/addrspace.c:136-149 | a page slips, that is, its first touch is refused while its TLB entry already lets stores through, if and only if it starts at the end of the read-only segment that answers for it |
| `Paging.Vm.LoadPage` | kern/vm/addrspace.c:111-149 | a new page with the contents read, mapped, writeable exactly if its segment is, and its TLB entry lets stores through exactly if it is writeable or the answer is EFAULT; flat memory changes in that page only; a panic exactly with all frames and slots in use |
| `Paging.Vm.StackPage` | kern/vm/addrspace.c:150-170 | a new page of zeros, mapped and writeable; a panic exactly with all frames and slots in use |
| `Paging.Vm.VmFault` | kern/vm/addrspace.c:63-181 | flat memory changes at most by one page touched for the first time, with exactly the answer of Answer; a page that exists is always found again; no address space is EFAULT; a panic exactly when the page needs a frame and there is no place for it, or above the user stack; every counter rises exactly if the kind of fault says so; the TLB has at most one entry of a page, each right |
| `Paging.Vm.UserRead` | kern/vm/addrspace.c:63-181 | a process reads back exactly what flat memory holds, and is refused exactly when Answer says so |
| `Paging.Vm.UserWrite` | kern/vm/addrspace.c:63-181 | a store goes through if and only if the page may be written, with a page that slipped as the one exception; it then changes exactly one page of flat memory, and otherwise none |
| `Paging.Vm.Activate` | kern/vm/addrspace.c:274-284 | a switch leaves no entry of the other process |
| `PagingKernel.FindRun` | kern/vm/coremap.c:145-172 | the first run of n free frames, none exactly when there is no such run; for n = 0 the start of the last stretch of free frames |
| `PagingKernel.AllocKpages` | kern/vm/pt.c:127-161 | the first run of frames nobody uses, disjoint from every run held; no process notices; for n = 0 nothing is set aside |
| `PagingKernel.FreeKpage` | kern/vm/pt.c:290-312 | exactly the run that starts at the address is free again; nothing changes if there is none |
| `PagingKernel.RunsKept` | kern/vm/pt.c:62-83 | page faults never touch the kernel's frames |
| `PagingRun.Run` | kern/vm/addrspace.c:63-284 | every run of reads, writes, switches and kernel allocations is a run of flat memory on that machine: every moment is a state in order that stands for it, the kernel's frames are those of boot and of its runs, a run of frames is refused only if there is none, a store goes through if and only if its page may be written, slipped pages apart, and the run ends early exactly when a page that needs a frame finds no place; at its end the counter identities hold |
| `PagingRun.Boot` | kern/vm/coremap.c:27-83 | from boot, for any processes and any operations: such a run from empty memory, with that many frames and 2304 swap slots |
| `PagingRun.HaltedOnlyIfFull` | kern/vm/pt.c:62-83 | a run that halts for want of a place has pages and kernel frames that equal frames and slots together, or a kernel that has every frame |
| `PagingRun.TextStays` | kern/vm/addrspace.c:74-84 | a page that may not be written and has not slipped keeps its contents in every run for as long as it is not swapped out |
| `PagingRun.PageKept` | kern/vm/addrspace.c:63-181 | in every run a page keeps its contents until it is written, through evictions, swaps, switches and kernel allocations |
| `PagingRun.ReadsLastWrite` | kern/vm/addrspace.c:63-181 | in every run a process reads what it last wrote |
| `PagingRun.FirstRead` | kern/vm/addrspace.c:105-170 | the first read of a page returns what the file holds, or zeros on the stack, or is refused, exactly as the segment found says |
| `PagingRun.Barren` | kern/vm/addrspace.c:63-284 | with every frame the kernel's an access halts exactly if it needs a frame, and is refused as usual otherwise |
| `PagingSpace.Conservation` | kern/vm/pt.c:62-83 | pages, kernel frames, free frames and free swap slots always make up the whole machine |
| `PagingSpace.FullIff` | kern/vm/swapfile.c:204-218 | no place is left if and only if pages and kernel frames equal frames and slots |
| `Pseudorand.Generator.constructor` | kern/dev/generic/pseudorand.c:51-69 | starts at 305824, a legal seed |
| `Pseudorand.Generator.Random` | kern/dev/generic/pseudorand.c:21-39 | 16807 times the seed modulo 2^31 - 1, without overflowing 32 bits, always a legal seed again |
| `Pseudorand.NeverZero` | kern/dev/generic/pseudorand.c:21-39 | no legal seed leads to 0 |
| `Pseudorand.Injective` | kern/dev/generic/pseudorand.c:21-39 | different seeds have different successors |
| `Pseudorand.Onto` | kern/dev/generic/pseudorand.c:21-39 | every legal seed is a successor: the generator permutes 1 .. 2^31 - 2 |
| `PseudorandPeriod.HomeIff` | kern/dev/generic/pseudorand.c:21-39 | seed 1 comes again after n numbers if and only if n is a multiple of 2^31 - 2 |
| `PseudorandPeriod.Period` | kern/dev/generic/pseudorand.c:21-39 | the same for every seed |
| `PseudorandPeriod.FullPeriod` | kern/dev/generic/pseudorand.c:21-39 | from any seed every seed is drawn within 2^31 - 2 numbers, exactly once |
| `Printf.DigitsValue` | lib/libc/__printf.c:380-456 | the decimal digits of a number denote it |
| `Printf.BufferSuffices` | lib/libc/__printf.c:54 | digits of a 32-bit number in base 8 or more and a NUL fit the 12-byte buffer |
| `Printf.FieldWidth` | lib/libc/__printf.c:332-369 | a field is as wide as asked or as its text |
| `Printf.Snp.Send` | lib/libc/snprintf.c:46-64 | the buffer holds the longest prefix that fits of everything sent, and nothing is written past it |
| `Printf.Pf.Modifier` | lib/libc/__printf.c:151-206 | the effect of one modifier character on the flags |
| `Printf.Pf.PrintStuff` | lib/libc/__printf.c:332-369 | the field: padding in front, between prefix and digits, or behind |
| `Printf.Pf.Convert` | lib/libc/__printf.c:391-424 | the digits written from right to left are the number in its base, within the buffer |
| `Printf.Pf.SendInteger` | lib/libc/__printf.c:489-499 | an integer conversion prints sign, prefix and digits of its argument |
| `Printf.Pf.SendChar` | lib/libc/__printf.c:463-528 | one character of the format |
| `Printf.Pf.Vprintf` | lib/libc/__printf.c:536-553 | everything the format prints is sent, and its length returned |
| `Printf.Vsnprintf` | lib/libc/snprintf.c:70-112 | the longest prefix that fits, a NUL, nothing past the given length, and the length of the whole text as section 7.19.6.5 of ISO/IEC 9899:1999 asks |
| `PrintfLaws.PlainText` | lib/libc/__printf.c:466-476 | a format without a % prints itself |
| `PrintfLaws.RenderParts` | lib/libc/__printf.c:536-553 | a format in two parts prints one part after the other, the second with the arguments and flags the first leaves |
| `PrintfLaws.DigitsRead` | lib/libc/__printf.c:391-424 | the digits printed in any base are a numeral without zeros in front that denotes the number, read by a digit table of its own |
| `PrintfLaws.FieldPadded` | lib/libc/__printf.c:332-369 | the text stands at the right or the left of a field of the width asked for, and the rest is padding |
| `PrintfLaws.ShowsString` | lib/libc/__printf.c:500-508 | %s prints the string, or (null), padded |
| `PrintfLaws.ShowsChar` | lib/libc/__printf.c:509-526 | %c prints the character, padded |
| `PrintfLaws.ShowsLetter` | lib/libc/__printf.c:509-526 | %% prints %, and any unknown letter itself |
| `PrintfLaws.ShowsSigned` | lib/libc/__printf.c:489-499 | %d prints the signed value in decimal |
| `PrintfLaws.ShowsUnsigned` | lib/libc/__printf.c:489-499 | %u, %x, %o and %p print the value in base 10, 16, 8 and 16, with their prefixes |
| `PrintfLaws.DirectiveRenders` | lib/libc/__printf.c:463-528 | a directive with any flags, width and number of l prints its conversion and takes its argument |
| `PrintfLaws.FormatRenders` | lib/libc/__printf.c:536-553 | any format of text and directives prints its pieces in order, each with its own argument |
| `PrintfLaws.Print` | lib/libc/snprintf.c:70-112 | the same in a buffer: the longest prefix that fits, a NUL, nothing past it, and the whole length |
| `Atoi.Atoi` | lib/libc/atoi.c:21-72 | blanks, a sign and digits, in 32-bit arithmetic, are read as the number they denote |
| `Atoi.ReadNumber` | lib/libc/atoi.c:21-72 | spaces and tabs, a minus, a plus or neither, digits and whatever follows are read as the digits say |
| `Atoi.ReadNothing` | lib/libc/atoi.c:21-72 | without a digit the answer is 0 |
| `Atoi.RoundTrip` | lib/libc/atoi.c:21-72 | atoi of a printed number is the number for every 32-bit number, width and flags, if and only if it is not padded with zeros behind the digits |
| `Atoi.ZerosBehind` | lib/libc/__printf.c:332-369 | 5 printed with %-05d is 50000 and read as 50000 |
| `Atoi.PrintAndRead` | lib/libc/snprintf.c:70-112 | the same through vsnprintf and atoi on a format string |

## Left out

- I/O errors of the device and failures of kmalloc inside SFS and swap: those paths leak or lose data in the source, so the invariants do not hold there.
- Faults on user memory inside uiomove: transfers are between kernel buffers.
- Sfs.Volume.Io: requires a transfer's offset plus length to be at most 2^31 - 1, as the signed off_t can hold; the overflow past that is not modelled.
- Sfs.Volume.Mount: promises a volume in shape only if it fits its device and has at most 2^22 blocks, and requires at most 0xfffff000, past which the size of the free map wraps around; accesses past the device are I/O errors, and byte offsets past 2^31 do not fit off_t.
- SfsNode.DoMount: requires the same bound of 0xfffff000 blocks, past which the 32-bit size of the free map wraps around.
- Sfs.Volume.RwBlock: the retries after an I/O error, which a device that does not fail never needs.
- Uios.Uio.Move: a request for more than the residue while the iovec is longer still, where the unsigned residue wraps around; no caller in SFS does this.
- Uios.Uio.MoveZeros: the same request past the residue.
- Mksfs.MakeFilesystem: requires a device with room for its own metadata, and Mksfs.MakeAndMount and Mksfs.MakeAndRun one of at most 0xfffff000 blocks; Mksfs.TooSmall says exactly when the assertion in doallocbit would fail. Devices with another block size are refused by the source and not modelled.
- Concurrency inside SFS and swap: their static buffers are unprotected; these parts are sequential here.
- The order of the vnode table and the addresses of vnodes: vnodes are kept by inode number.
- The opencount of vnodes, ioctl, stat, fsync of single files, and directories other than the root, which SFS does not support.
- SfsRun.Run: truncation to other lengths than 0 is not a step of a run, because it does not refine a byte string; SfsTruncate.TruncateContent and SfsTruncate.TruncateClearsTail cover it for every length.
- Device drivers, the LAMEbus, the console, traps, interrupt levels and context-switch assembly: an interrupts-off section is one step.
- Boot-time memory (ram_stealmem) and the size of the tables set up at boot: models start from an initialised state.
- Kheap.KernelHeap.Kfree: requires a live piece or NULL; a double kfree or a foreign pointer is not modelled.
- The debug printing and the checksubpage checks of the heap, beyond the assertions on the path of an allocation.
- SynchSafe.EveryRunSafe: semaphore counts are unbounded, because a wrap-around needs 2^32 calls of V.
- SynchSafe.EveryRunSafe: the scheduler may pick any ready thread, which includes the first-in-first-out choice proved of Threads.ThreadSystem.Schedule.
- CatMouseSafe.EveryRunSafe: safety only; with cats alone, waiters are not woken when Serving is reset, so the simulation can stall.
- Threads.ThreadSystem.MiSwitch: whether the next thread is a new one, which does not bury the zombies, is a parameter.
- Stacks, file descriptors, process identifiers and address spaces in thread_fork and thread_exit.
- Fork, exit and the reuse of process identifiers in paging: pt_copymem copies resident pages only and pt_free_pages leaves swap slots behind.
- The TLB when an address space is reused.
- The exit of a process that stores into a read-only page: the fault is refused and nothing changes.
- Paging.Vm.LoadPage: the bytes load_segment reads from the executable are a parameter, and the read does not fail.
- Paging.Vm.AllocPage: requires a page address other than 0, and with it Paging.Vm.VmFault and PagingRun.Run require address spaces without page 0; PagingState.KeptUnlessZero shows what goes wrong there.
- Paging.Vm.GetFifoPage: requires a frame of a process; without one the source uses an index it never set. PagingRun.Run stops there if the page needs a frame.
- Paging.Vm.VmFault: requires that a load or a store faults only if the TLB has no entry for its page, as the processor guarantees.
- PagingKernel.FreeKpage: requires an address that is not inside a run; the source would free the rest of that run. kfree never passes one.
- Kmem.Kmalloc: the words of the heap and the contents of process frames are two arrays, so nothing is said about kernel memory seen through a process's frame.
- Wrap-around of the statistics counters and of the coremap's time stamps.
- printf arguments that are missing, field widths past 2^31, long long and floating point conversions.
- pseudorand_read, which packs the generator's results into bytes.
- emufs, path names and the device list of the VFS, execv, the file-descriptor calls, waitpid, dumbvm, the stoplight stubs, and all user programs but mksfs.
