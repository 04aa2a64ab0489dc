# OS/161 in Dafny

A model of the hard parts of the OS/161 teaching kernel and of two pthread programs beside it, with proofs.
`dafny verify dfyconfig.toml` checks everything.

- **SFS, the file system** (`SfsFormat`, `Bitmap`, `Uio`, `SfsVolume`, `SfsBlocks`, `Sfs`, `SfsIo`, `SfsTrim`,
  `SfsTruncate`, `SfsVnodes`, `SfsNames`, `SfsRoom`, `SfsDir`, `SfsMount`, `SfsModel`,
  `SfsRuns`). A volume is its blocks, the free map in
  memory and the loaded inodes. `Owned` gives every block in use one role: reserved, an inode, data block `fb` of a
  file, or the indirect block of a file. A file is an unbounded map from positions to bytes, zero where nothing is
  mapped, and a size. `Linked` ties the slots of the root directory to the link counts.
  `SfsModel` is the file system as its users see it, and every run of SFS is one of that. `VnodeRefs` is the life of
  vnodes when threads interleave.
- **The kernel heap** (`Heap`, `HeapLemmas`, `HeapPages`, `KHeap`). `State` is what the code keeps, memory words
  included; `Shape` is what it stands for; `Inv` ties them together.
- **Threads, scheduler and synchronization** (`Queue`, `PtrArray`, `Kernel`, `KernelRuns`, `KernelLaws`,
  `ThreadSystem`). A section
  with interrupts off is one step of a machine, up to a context switch. `ThreadSystem` is the code over the ring and
  the arrays, equal to the functions of the machine.
- **Two bounded-buffer programs** (`CondThreads`, `Rings`, `ProducerConsumer`, `TurnOrder`). A step is one section
  under the mutex. Waiting threads are unsignalled or signalled; spurious wakeups are steps of their own.
- **Arithmetic and text** (`Words`, `Pseudorand`, `Random`, `RandomSums`, `RandomDraws`, `RandomStart`,
  `Printf`, `Atoi`, `RoundTrip`, `PrintfLaws`).

Where the code and its comments disagree the model follows the code:

- Comments in thread.c and scheduler.c say list additions cannot fail after the preallocation in thread_fork. For the
  run queue `KernelRuns.PreallocationIsExact` says exactly when they allocate, and `RunQueueGrows` shows a run; for the
  zombies `KernelRuns.ExitAllocates` and `ExitGrowsZombies` do.
- The comment on setstate says it may be called with the state in use. `Random.SetCurrentAfter` says exactly when that
  keeps the generator, `RandomDraws.SetCurrentNumbers` exactly when it keeps the numbers to come.
- sfs_io computes the end of a read in 32 bits, so a request that reaches 2^31 is not cut at the end of the file
  (`SfsIo.Read`, `SfsIo.UncutRequest`).
- kmalloc rounds up to pages in 32 bits, so the largest sizes ask for no page at all (`KHeap.PagesCover`).
- sfs_link accepts the root directory, so the assertion on the file type in sfs_rename can fail (`SfsDir.Rename` says
  when, `SfsRuns.RenameRoot` does it).
- sfs_truncate neither clears the rest of the last block (`SfsTruncate.TailIsClear`) nor unmaps the indirect entry whose
  index is exactly the new number of blocks (`SfsTruncate.NoBlockLeft`, `SfsRuns.KeptBlock`).
- A kmalloc of exactly 2048 bytes takes a whole page although there is a class of that size.

## Model

| member | source | states |
|---|---|---|
| SfsRuns.Session | os161/sbin/mksfs/mksfs.c:117-165 | from formatting a volume on, for any sequence of create, look up, link, remove, rename, read, write, truncate, open, close, sync and remount: every operation answers as a plain model of names, byte maps and open counts does after the operations before it, and in the end names, sizes, bytes and open files are those of the model; the volume stays sound, with one owner per used block, names and link counts in agreement and the free map right; formatting succeeds exactly for volumes of 3 to 131072 blocks with a name below 32 bytes |
| SfsRuns.Perform | os161/kern/fs/sfs/sfs_vnode.c:1185-1379 | every operation, on success and on every error, keeps the volume sound, whether or not the root directory is loaded, answers as the model may, and changes names, files and open counts exactly as the model says |
| SfsModel.RemoveAgrees | os161/kern/fs/sfs/sfs_vnode.c:1271-1297 | removing a name takes the file away if and only if no other name leads to it and it is not open, and no other name or file changes |
| SfsModel.CloseAgrees | os161/kern/fs/vfs/vnode.c:74-98 | closing takes the file away if and only if it was open once and has no name |
| SfsModel.GrownAgrees | os161/kern/fs/sfs/sfs_vnode.c:1185-1236 | a new file is empty, open once and has one name |
| SfsModel.WriteAgrees | os161/kern/fs/sfs/sfs_vnode.c:419-513 | a write changes the bytes and the size of that file in the model and nothing else |
| SfsModel.TruncateAgrees | os161/kern/fs/sfs/sfs_vnode.c:1065-1157 | so does a truncation |
| SfsModel.OneLink | os161/kern/fs/sfs/sfs_vnode.c:1271-1297 | an inode has one link if and only if no second name leads to it |
| SfsModel.NoLinks | os161/kern/fs/sfs/sfs_vnode.c:858-924 | and none if and only if no name does |
| SfsVolume.PointersDistinct | os161/kern/fs/sfs/sfs_vnode.c:62-261 | over all inodes, every inode number, indirect block number and nonzero direct or indirect pointer names a block inside the volume that is marked in use, and no two of them name the same one |
| SfsVolume.Local | os161/kern/fs/sfs/sfs_vnode.c:117-261 | a change to one file that is right for that file keeps the ownership of all blocks of all files |
| Sfs.Fs.Balloc | os161/kern/fs/sfs/sfs_vnode.c:62-78 | the block handed out is inside the volume, is not block 0, was not marked in use and is now zero, and one block fewer is free; ENOSPC exactly when none is |
| Sfs.Fs.Bused | os161/kern/fs/sfs/sfs_vnode.c:96-103 | reads the mark of a block |
| Sfs.Fs.CheckBlock | os161/kern/fs/sfs/sfs_vnode.c:163-167 | a mapped block is marked in use, so the panic is not reached |
| Sfs.Fs.Bmap | os161/kern/fs/sfs/sfs_vnode.c:117-261 | never changes the contents or size of any file, keeps ownership even when the volume fills up between the indirect block and the data block, returns the mapped block, which is marked in use, 0 for a hole; EINVAL exactly past 143 blocks, ENOSPC exactly when fewer blocks are free than the mapping takes: none, one, or two with the indirect block |
| Sfs.Fs.MapDirect | os161/kern/fs/sfs/sfs_vnode.c:140-169 | the direct case: the pointer, or a fresh block attached as exactly that file block |
| Sfs.Fs.NeedIndirect | os161/kern/fs/sfs/sfs_vnode.c:191-223 | a new indirect block maps no file block and changes no file |
| Sfs.Fs.MapEntry | os161/kern/fs/sfs/sfs_vnode.c:224-261 | an indirect entry: the pointer, or a fresh block attached as exactly that file block |
| Sfs.Fs.MapIndirect | os161/kern/fs/sfs/sfs_vnode.c:171-261 | indirect block and entry together: allocated if and only if enough blocks are free |
| SfsBlocks.AttachIndirect | os161/kern/fs/sfs/sfs_vnode.c:203-223 | attaching a cleared block as indirect block keeps ownership, all pointers and all files |
| SfsBlocks.EnterKeeps | os161/kern/fs/sfs/sfs_vnode.c:117-261 | entering a cleared block in an inode or indirect block gives the file that block and changes no bytes of any file |
| Sfs.RecordAway | os161/kern/fs/sfs/sfs_fs.c:41-73 | writing a block that belongs to a file touches neither the superblock nor the free map on disk |
| SfsIo.Write | os161/kern/fs/sfs/sfs_vnode.c:419-513 | the file is a byte map: exactly the transferred bytes change, the size becomes the maximum of the old size and the end of the write, other files are untouched; a short write stops between blocks, with EINVAL past 143 blocks or ENOSPC on a full volume; inside one block it fails exactly when that block cannot be mapped |
| SfsIo.Read | os161/kern/fs/sfs/sfs_vnode.c:419-513 | delivers exactly bytes of the map, holes as zeros, leaving the rest in uio_resid; at most what the 32-bit computation of the end grants, also on an error, and no byte past the end of the file if and only if the request starts past it, ends below 2^31, or the file is of the largest size |
| SfsIo.EndPosition | os161/kern/fs/sfs/sfs_vnode.c:431-445 | the end of a request that starts inside the file is right below 2^31 and never past the size from there on |
| SfsIo.UncutRequest | os161/kern/fs/sfs/sfs_vnode.c:431-445 | a request for 2^31 bytes of a ten-byte file is not cut |
| SfsIo.PartialWrite | os161/kern/fs/sfs/sfs_vnode.c:279-347 | part of a block: the bytes given change, the others stay, whether or not the block was mapped; fails exactly when it cannot be mapped |
| SfsIo.PartialRead | os161/kern/fs/sfs/sfs_vnode.c:279-347 | part of a block, a hole reading as zeros |
| SfsIo.BlockWrite | os161/kern/fs/sfs/sfs_vnode.c:354-412 | a whole block; fails exactly when it cannot be mapped |
| SfsIo.BlockRead | os161/kern/fs/sfs/sfs_vnode.c:354-412 | a whole block, a hole by uiomovezeros |
| SfsIo.WriteData | os161/kern/fs/sfs/sfs_vnode.c:446-513 | leading part, whole blocks and trailing part together write one contiguous region |
| SfsIo.ReadData | os161/kern/fs/sfs/sfs_vnode.c:446-513 | leading part, whole blocks and trailing part together read one contiguous region |
| Uio.Transfer.Move | os161/kern/userprog/uio.c:12-82 | moves all of a kernel buffer in one direction and advances offset, residue and iovec by its length |
| Uio.Transfer.MoveZeros | os161/kern/userprog/uio.c:85-108 | writes that many zeros, sixteen at a time |
| Uio.Transfer.constructor | os161/kern/userprog/uio.c:114-123 | one buffer, offset and length as given |
| SfsTruncate.Truncate | os161/kern/fs/sfs/sfs_vnode.c:1065-1157 | unmaps every file block past the new end except the one indirect block entry with exactly that index, frees exactly those blocks, keeps all other bytes; length 0 leaves no block at all |
| SfsTruncate.TrimDirect | os161/kern/fs/sfs/sfs_vnode.c:1089-1100 | the direct pointers past the end: freed and cleared, no other file affected |
| SfsTruncate.TrimIndirect | os161/kern/fs/sfs/sfs_vnode.c:1102-1148 | the indirect entries past the end: freed and cleared, the indirect block itself freed exactly when it is left empty |
| SfsTruncate.FreeTable | os161/kern/fs/sfs/sfs_vnode.c:1120-1133 | a pointer table from a block number on: exactly its blocks lose their marks |
| SfsTrim.TrimKeeps | os161/kern/fs/sfs/sfs_vnode.c:1065-1157 | freeing some blocks of a file keeps ownership; the file reads as zeros there and as before elsewhere |
| SfsTruncate.TailIsClear | os161/kern/fs/sfs/sfs_vnode.c:1065-1157 | the bytes past the new end read as zeros if and only if they already did wherever a block stays mapped: the code does not clear them |
| SfsTruncate.NoBlockLeft | os161/kern/fs/sfs/sfs_vnode.c:1102-1148 | no block past the new end stays mapped if and only if the first of them is a direct block or was not mapped |
| SfsRuns.KeptBlock | os161/kern/fs/sfs/sfs_vnode.c:1102-1148 | on a volume just formatted: a byte written in file block 15, the file cut to 15 blocks; the volume is sound and block 15 still mapped |
| SfsRuns.StaleTail | os161/kern/fs/sfs/sfs_vnode.c:1065-1157 | on a volume just formatted: ten bytes written to a new file, cut to five, then one byte written at 20; the volume is sound and byte 7 still has its old value |
| SfsVnodes.SyncInode | os161/kern/fs/sfs/sfs_vnode.c:40-51 | the copy on disk becomes current and no file changes |
| SfsVnodes.LoadVnode | os161/kern/fs/sfs/sfs_vnode.c:1547-1651 | the inode in memory with one more reference, or a fresh copy of the one on disk; its block is always marked in use, so neither panic is reached |
| SfsVnodes.IsLoaded | os161/kern/fs/sfs/sfs_vnode.c:1556-1577 | finds the inode if and only if it is loaded |
| SfsVnodes.MakeObj | os161/kern/fs/sfs/sfs_vnode.c:763-783 | a new inode in a block nothing used, with no links, no blocks and size 0; ENOSPC exactly when no block is free |
| SfsVnodes.Discard | os161/kern/fs/sfs/sfs_vnode.c:858-924 | reclaiming a file without links gives back its inode and exactly its blocks; no other file changes |
| SfsVnodes.Decref | os161/kern/fs/vfs/vnode.c:74-98 | one reference less; with the last one the inode leaves memory, and the disk too exactly when it has no links |
| SfsVnodes.EraseKeeps | os161/kern/fs/sfs/sfs_vnode.c:896-899 | freeing the inode block of a file without blocks keeps ownership of the rest |
| SfsVnodes.CreateKeeps | os161/kern/fs/sfs/sfs_vnode.c:763-783 | a new inode keeps ownership and all files |
| SfsFormat.InodeRoundTrip | os161/kern/include/kern/sfs.h:45-52 | an inode written to a block and read back is the same |
| SfsFormat.EntryRoundTrip | os161/kern/include/kern/sfs.h:57-60 | a directory entry written and read back is the same, for names up to 59 bytes |
| SfsNames.SlotWritten | os161/kern/fs/sfs/sfs_vnode.c:558-584 | writing an encoded entry at its place in the directory file changes exactly that slot |
| SfsNames.SlotMapped | os161/kern/fs/sfs/sfs_vnode.c:710-720 | a slot in use lies in a mapped block |
| SfsNames.LinksBound | os161/kern/include/kern/sfs.h:45-60 | no directory has more than 1144 slots, so link counts stay far below 16 bits |
| SfsDir.ReadDir | os161/kern/fs/sfs/sfs_vnode.c:525-550 | the entry in the slot; never short |
| SfsDir.WriteDir | os161/kern/fs/sfs/sfs_vnode.c:558-584 | all of the entry is written or nothing is; fails exactly when the block of the slot is past the limit or cannot be mapped, so overwriting a slot in use cannot fail |
| SfsDir.FindName | os161/kern/fs/sfs/sfs_vnode.c:616-658 | the slot and inode of the name if and only if it is there, and the last empty slot; the name is met only once |
| SfsDir.DirLink | os161/kern/fs/sfs/sfs_vnode.c:666-703 | EEXIST, then ENAMETOOLONG, then EINVAL or ENOSPC, each exactly when due; else the name is entered in the last empty slot, or at the end if there is none, and every other name is unchanged; on an error no name has changed |
| SfsRoom.EnterTells | os161/kern/fs/sfs/sfs_vnode.c:666-703 | a new name that is short enough is refused with EINVAL if and only if all 1144 slots are taken, and with ENOSPC if and only if its slot lies in a block that is not there and too few blocks are free to map it |
| SfsDir.DirUnlink | os161/kern/fs/sfs/sfs_vnode.c:710-720 | cannot fail, takes away that name and no other |
| SfsDir.LookOnce | os161/kern/fs/sfs/sfs_vnode.c:728-752 | the inode the name leads to, with one more reference and at least one link |
| SfsDir.Creat | os161/kern/fs/sfs/sfs_vnode.c:1185-1236 | opens an existing file or makes an empty one whose only link is this name, with each error exactly when due, the block for the new inode counted; on any error directory, inodes, links and references are as before |
| SfsDir.Link | os161/kern/fs/sfs/sfs_vnode.c:1245-1264 | one more name and one more link for that inode, or nothing, with each error exactly when due |
| SfsDir.Remove | os161/kern/fs/sfs/sfs_vnode.c:1271-1297 | the name is gone and the link count one less; the inode itself goes if and only if that was its only name and it is not open |
| SfsDir.Rename | os161/kern/fs/sfs/sfs_vnode.c:1307-1379 | the new name leads where the old one did and the old one is gone, every link count and reference as before; or no name has changed, with each error, ENOSPC and EINVAL included, exactly when due; the assertion on the file type fails if and only if the old name leads to the root directory |
| SfsRuns.RenameRoot | os161/kern/fs/sfs/sfs_vnode.c:1307-1332 | on a volume just formatted: the root directory is given a name, and renaming that fails the assertion |
| SfsDir.Rebind | os161/kern/fs/sfs/sfs_vnode.c:1333-1355 | between lookup and release: fails exactly as entering the new name does; unlinking the old name never fails, so the undo code is not reached |
| SfsDir.Release | os161/kern/fs/vfs/vnode.c:74-98 | in terms of names: an inode disappears if and only if it has neither a name nor a reference left |
| SfsNames.LinkKeeps | os161/kern/fs/sfs/sfs_vnode.c:1220-1231 | after a name is entered, exactly that inode is one link short |
| SfsNames.UnlinkKeeps | os161/kern/fs/sfs/sfs_vnode.c:1284-1291 | after a name is erased, exactly that inode has one link too many |
| SfsDir.WriteKeepsNames | os161/kern/fs/sfs/sfs_vnode.c:943-948 | writing to a file leaves directory and link counts alone |
| SfsDir.TruncateKeepsNames | os161/kern/fs/sfs/sfs_vnode.c:1065-1157 | so does truncating it |
| SfsMount.WriteMap | os161/kern/fs/sfs/sfs_fs.c:41-73 | the map blocks hold the map bytes and no other block changes |
| SfsMount.ReadMap | os161/kern/fs/sfs/sfs_fs.c:41-73 | the map bytes are those of the map blocks |
| SfsMount.Sync | os161/kern/fs/sfs/sfs_fs.c:82-145 | every loaded inode and the free map are on disk and no file has changed, whether or not the map was dirty |
| SfsMount.Mount | os161/kern/fs/sfs/sfs_fs.c:210-311 | EINVAL exactly for a wrong magic number; else a well-formed volume in the state the disk describes, also on a device larger than the volume |
| SfsMount.Remount | os161/kern/fs/sfs/sfs_fs.c:167-192 | sync, unmount and mount again: EBUSY exactly when something is loaded, else the same names, files and free blocks; the volume is sound either way |
| SfsMount.RemountKeeps | os161/kern/fs/sfs/sfs_fs.c:82-145 | after a sync the disk alone gives back all files, even with files open |
| SfsMount.RemountNames | os161/kern/fs/sfs/sfs_fs.c:82-145 | and the names; link counts agree with them if and only if no open file was unlinked |
| SfsMount.DoAllocBit | os161/sbin/mksfs/mksfs.c:77-84 | sets one bit; fails exactly when it was set |
| SfsMount.WriteBitmap | os161/sbin/mksfs/mksfs.c:88-114 | the map on disk marks exactly superblock, root, the map itself and everything past the end; gives up exactly when the 32-bit size of the map is over 32 blocks or the volume has fewer than 3; a size that wraps writes nothing |
| SfsMount.Format | os161/sbin/mksfs/mksfs.c:117-165 | accepts exactly 3 to 131072 blocks, or so many that the size of the map wraps; below that what is written can be mounted and holds an empty directory, there no map is written |
| SfsMount.FormatKeeps | os161/sbin/mksfs/mksfs.c:41-114 | such a disk is a well-formed volume |
| SfsMount.BitBlocksFit | os161/kern/include/kern/sfs.h:19-25 | the 32-bit size of the map is right if and only if rounding up does not wrap, is 0 if it does, and passes the limit of mksfs exactly up to 131072 blocks and where it wraps |
| Bitmap.BitArray.constructor | os161/kern/lib/bitmap.c:31-64 | all bits clear, the leftover bits of the last byte set |
| Bitmap.BitArray.Alloc | os161/kern/lib/bitmap.c:73-94 | the least clear index, which is set; fails exactly when all are set |
| Bitmap.BitArray.Mark | os161/kern/lib/bitmap.c:108-118 | sets one bit |
| Bitmap.BitArray.Unmark | os161/kern/lib/bitmap.c:121-131 | clears one bit |
| Bitmap.BitArray.IsSet | os161/kern/lib/bitmap.c:135-142 | reads one bit |
| VnodeRefs.AlwaysOneVnode | os161/kern/fs/sfs/sfs_vnode.c:1547-1651 | in every run of interleaved incref, decref, load and reclaim: one vnode per inode, the count is the references with a pending reclaimer as one, at most one reclaimer is pending, a referenced vnode is loaded |
| VnodeRefs.StepKeeps | os161/kern/fs/vfs/vnode.c:60-98 | every step keeps that |
| VnodeRefs.KilledAlone | os161/kern/fs/sfs/sfs_vnode.c:869-882 | a vnode is killed only when no thread has a reference and no other reclaimer is pending |
| VnodeRefs.ReferenceStays | os161/kern/fs/vfs/vnode.c:60-98 | while a reference is kept the vnode stays loaded and is the same file |
| VnodeRefs.EventEffects | os161/kern/fs/vfs/vnode.c:60-98 | an incref or a load gives one reference, to the loaded vnode of the inode if there is one; a decref takes one, the last one leaves a reclaimer, and only a reclaimer that is alone unloads the vnode |
| VnodeRefs.ReferencesBalance | os161/kern/fs/vfs/vnode.c:60-98 | over every run the references to a vnode are those the events gave less those they dropped |
| VnodeRefs.Vnodes.IncRef | os161/kern/fs/vfs/vnode.c:60-66 | one step of the machine |
| VnodeRefs.Vnodes.DecRef | os161/kern/fs/vfs/vnode.c:74-89 | the locked section, one step of the machine |
| VnodeRefs.Vnodes.ReclaimVnode | os161/kern/fs/sfs/sfs_vnode.c:858-924 | one step of the machine; the vnode is always found in the table |
| VnodeRefs.Vnodes.LoadVnode | os161/kern/fs/sfs/sfs_vnode.c:1547-1651 | one step of the machine |
| Heap.LiveApart | os161/kern/lib/kheap.c:352-460 | live allocations never overlap |
| Heap.FreeOutsideLive | os161/kern/lib/kheap.c:352-460 | no byte of a free block lies in a live allocation |
| Heap.ClientStoreKeeps | os161/kern/lib/kheap.c:167-230 | a store inside a live allocation keeps the whole heap invariant, and a word stored there shares no byte with any free block |
| Heap.BlockFits | os161/kern/lib/kheap.c:50-56 | a block lies inside its page and is aligned to its size |
| HeapLemmas.FreePlusLive | os161/kern/lib/kheap.c:167-199 | free and live blocks of a page add up to PAGE_SIZE divided by the block size |
| HeapLemmas.TakeKeeps | os161/kern/lib/kheap.c:380-405 | taking the head of a free list keeps the invariant and yields a block that was not live |
| HeapLemmas.GiveKeeps | os161/kern/lib/kheap.c:507-526 | putting a block back keeps the invariant |
| HeapPages.AddKeeps | os161/kern/lib/kheap.c:431-456 | a new page joins both lists with all its blocks free |
| HeapPages.DropKeeps | os161/kern/lib/kheap.c:309-330 | a wholly free page leaves both lists |
| KHeap.OwnersKeepData | os161/kern/lib/kheap.c:352-460 | nothing an owner has stored changes when memory is allocated |
| KHeap.OthersKeepData | os161/kern/lib/kheap.c:464-540 | nothing another owner has stored changes when memory is freed |
| KHeap.BlockTypeFor | os161/kern/lib/kheap.c:332-347 | the smallest class that is large enough |
| KHeap.ClassIsTight | os161/kern/lib/kheap.c:332-347 | the block is less than twice as large as asked, or of 16 bytes |
| KHeap.Allocator.AllocPageRef | os161/kern/lib/kheap.c:112-133 | a page reference not in use, or none exactly when all are |
| KHeap.Allocator.ThreadPage | os161/kern/lib/kheap.c:440-450 | the free list of a new page: every block of it once, last block first |
| KHeap.Allocator.NewPage | os161/kern/lib/kheap.c:414-456 | a page of free blocks of the class on both lists, or nothing changed; none exactly when there is no page or no page reference to be had |
| KHeap.Allocator.FindFree | os161/kern/lib/kheap.c:365-406 | a page of the class with a free block, or none exactly when there is none |
| KHeap.Allocator.SubpageKmalloc | os161/kern/lib/kheap.c:352-460 | a block that was free and is at least as large as asked; 0, with nothing changed, exactly when no page of its class has a free block and no new page can be made |
| KHeap.Allocator.Unhook | os161/kern/lib/kheap.c:309-330 | the page reference is gone from both lists and nothing else is |
| KHeap.Allocator.ReleasePage | os161/kern/lib/kheap.c:529-534 | the page of a page reference without live blocks is released |
| KHeap.Allocator.FillDeadbeef | os161/kern/lib/kheap.c:8-16 | every word of the block becomes 0xdeadbeef, and nothing outside it changes |
| KHeap.Allocator.FindPage | os161/kern/lib/kheap.c:481-498 | the page reference whose page holds the address, if and only if there is one |
| KHeap.Allocator.SubpageKfree | os161/kern/lib/kheap.c:464-540 | frees a block of one of our pages; -1 exactly for whole-page allocations |
| KHeap.Allocator.Kmalloc | os161/kern/lib/kheap.c:546-563 | for a size that rounds up without wrapping, an allocation of at least the size asked that overlaps nothing live; 0 exactly when alloc_kpages returns 0, or for a small size when its class has no free block and no new page can be made; for a larger one whatever alloc_kpages returns, with no memory behind it; everybody else's data untouched |
| KHeap.PagesCover | os161/kern/lib/kheap.c:548-559 | the pages asked for cover the size if and only if rounding up does not wrap, and are none if it does |
| KHeap.WrapsToNothing | os161/kern/lib/kheap.c:548-559 | 0xfffff001 bytes are 0 pages |
| KHeap.NoPagesNoMemory | os161/kern/arch/mips/mips/ram.c:63-77 | 0 pages are given an address that is not 0, and the next page gets the same one |
| KHeap.Allocator.Kfree | os161/kern/lib/kheap.c:566-577 | exactly that allocation is gone, by the path that made it; the data of the others is untouched |
| Kernel.RunKeeps | os161/kern/thread/thread.c:373-628 | in every state of every run: each live thread is in exactly one of curthread, run queue and sleepers, no zombie is in any; nobody sleeps on a semaphore above 0 or a free lock; counts balance; a lock has an owner exactly while held |
| Kernel.StepKeeps | os161/kern/thread/synch.c:63-254 | every step of every thread and interrupt keeps that |
| Kernel.WakeupKeeps | os161/kern/thread/thread.c:548-575 | a wakeup moves exactly the sleepers on its address to the run queue |
| Kernel.ForkKeeps | os161/kern/thread/thread.c:268-366 | a fork makes room first, so its own enqueue never grows the ring |
| Kernel.SleepKeeps | os161/kern/thread/thread.c:533-541 | going to sleep with a reason keeps the invariant and does not allocate after a fork |
| KernelRuns.PreallocationIsExact | os161/kern/thread/thread.c:406-425 | outside fork the run queue grows if and only if the step makes all threads runnable with a ring of exactly that many slots; sleepers never grow after a fork |
| KernelRuns.RunQueueGrows | os161/kern/thread/scheduler.c:112-118 | a run of 31 forks and a yield in which it does |
| KernelRuns.ExitAllocates | os161/kern/thread/thread.c:414-425 | outside fork only an exit adds a zombie, and its addition allocates if and only if the zombies array is full |
| KernelRuns.ForkSpares | os161/kern/thread/thread.c:308-325 | after a fork every thread could exit without an allocation if and only if the array also has room for the zombies still waiting |
| KernelRuns.SpareStep | os161/kern/thread/thread.c:102-116 | that room is kept by every other step if and only if disposing of the zombies does not release their array |
| KernelRuns.ZombiesFit | os161/kern/thread/thread.c:414-425 | over whole runs: from such a state on, without forks and releases, no exit allocates |
| KernelRuns.ExitGrowsZombies | os161/kern/thread/thread.c:414-425 | a run of two forks and three exits in which the last exit allocates |
| KernelRuns.OwnerKeepsLock | os161/kern/thread/synch.c:137-165 | a lock stays with its owner until that thread releases or waits, and goes to the thread that runs |
| KernelRuns.StepSleeper | os161/kern/thread/thread.c:548-607 | a sleeper wakes when its address is woken and not otherwise |
| KernelRuns.SleepsUntilWoken | os161/kern/thread/thread.c:533-607 | over whole runs |
| KernelRuns.CvWaitMissesNothing | os161/kern/thread/synch.c:215-228 | when the lock given up becomes free the waiter is already asleep, it stays so while nobody signals, and the next broadcast wakes it |
| KernelRuns.SignalWakesFirst | os161/kern/thread/synch.c:231-241 | a signal with somebody asleep on the variable takes exactly the longest sleeper there off the sleepers and appends it to the run queue, everybody else staying in order; with nobody it changes nothing |
| KernelRuns.RoundRobin | os161/kern/thread/scheduler.c:88-105 | the thread at position p of the run queue is run by exactly the (p+1)-th scheduler call from then on, whatever is enqueued meanwhile |
| KernelLaws.ListsAfter | os161/kern/thread/thread.c:373-607 | after any event, read off the event: who is asleep, who is in the run queue, who runs and on which address the current thread sleeps, each list in order |
| KernelLaws.WakeupIs | os161/kern/thread/thread.c:548-575 | a wakeup appends all sleepers on the address to the run queue in order and leaves the others in order |
| KernelLaws.WakeOneIs | os161/kern/thread/thread.c:582-607 | waking one appends the first of them |
| KernelLaws.QueueAfter | os161/kern/thread/thread.c:533-607 | those asleep on an address are a queue: a wakeup empties it, a signal takes its first, whoever goes to sleep there is its last, and nothing else changes it |
| KernelLaws.SignalOrder | os161/kern/thread/synch.c:231-241 | over every run the waiter at position p of a condition variable is woken by exactly signal number p+1 |
| KernelLaws.WaitIsSignalled | os161/kern/thread/synch.c:215-241 | so a thread in cv_wait is woken by the signal after as many as there were waiters before it |
| KernelLaws.WaitReturns | os161/kern/thread/synch.c:215-228 | over every run a thread that waits is on its way to that lock, and back in its own code only when it runs and holds it |
| KernelLaws.ContAfter | os161/kern/thread/synch.c:63-228 | where every thread continues after any event |
| KernelLaws.SemsAfter | os161/kern/thread/synch.c:63-95 | a V adds one to its semaphore, a P that completes takes one, nothing else touches a semaphore |
| KernelLaws.SemCounts | os161/kern/thread/synch.c:63-95 | over every run the count is the initial one plus the V events minus the P events that completed, which are never more |
| KernelLaws.ZombiesExact | os161/kern/thread/thread.c:97-116 | after any event outside fork: an exit adds one zombie, and all are disposed of, with an array of more than 16 slots, if and only if the thread picked ran before |
| KernelRuns.SwitchTakes | os161/kern/thread/thread.c:373-458 | with somebody in the run queue its head is run by exactly these steps: yield, exit, cv_wait, the end of idling, and sleeping on a semaphore at 0 or a held lock |
| ThreadSystem.Threads.MakeRunnable | os161/kern/thread/scheduler.c:112-118 | appends to the run queue |
| ThreadSystem.Threads.Wakeup | os161/kern/thread/thread.c:548-575 | equal to the function on states; its loop that removes while it iterates skips nobody; fails only where the function grows the ring |
| ThreadSystem.Threads.WakeupOne | os161/kern/thread/thread.c:582-607 | equal to the function on states; fails only where the function grows the ring |
| ThreadSystem.Threads.HasSleepers | os161/kern/thread/thread.c:614-628 | true exactly when some thread sleeps on the address |
| ThreadSystem.Threads.Dispatch | os161/kern/thread/scheduler.c:88-105 | equal to the function on states; a thread that ran before disposes of the zombies, which cannot fail |
| ThreadSystem.Threads.LieDown | os161/kern/thread/thread.c:414-420 | equal to the function on states; fails only when the sleepers array is full |
| ThreadSystem.Threads.P | os161/kern/thread/synch.c:63-83 | equal to the function on states; fails only where going to sleep allocates, and never once a thread was forked |
| ThreadSystem.Threads.V | os161/kern/thread/synch.c:86-95 | equal to the function on states; fails only where the function grows the ring, so in reachable states only in an interrupt that wakes every thread of an idle system |
| ThreadSystem.Threads.Acquire | os161/kern/thread/synch.c:137-151 | equal to the function on states; fails only where going to sleep allocates, and never once a thread was forked |
| ThreadSystem.Threads.Release | os161/kern/thread/synch.c:154-165 | equal to the function on states; never fails in a reachable state |
| ThreadSystem.Threads.CvWait | os161/kern/thread/synch.c:215-228 | equal to the function on states; never fails in a reachable state once a thread was forked |
| ThreadSystem.Threads.CvSignal | os161/kern/thread/synch.c:231-241 | equal to the function on states; never fails in a reachable state |
| ThreadSystem.Threads.CvBroadcast | os161/kern/thread/synch.c:244-254 | equal to the function on states; never fails in a reachable state |
| ThreadSystem.Threads.Yield | os161/kern/thread/thread.c:510-519 | equal to the function on states; fails only where the function grows the ring, so in reachable states only with nobody asleep and one slot per thread |
| ThreadSystem.Threads.Exit | os161/kern/thread/thread.c:465-504 | equal to the function on states; fails only when the zombies array is full |
| ThreadSystem.Threads.Preallocate | os161/kern/thread/thread.c:308-325 | room for one more thread in all three lists; on a failure the steps before it stay done |
| ThreadSystem.Threads.Fork | os161/kern/thread/thread.c:268-366 | equal to the function on states; once there is room the enqueue cannot fail |
| Queue.Ring.Grow | os161/kern/lib/queue.c:19-51 | keeps the sequence while it moves it; the calls of q_addtail inside never grow again, which is why the mutual recursion ends |
| Queue.Ring.AddTail | os161/kern/lib/queue.c:91-108 | appends; allocates only when size - 1 elements are in |
| Queue.Ring.RemHead | os161/kern/lib/queue.c:111-121 | takes the first |
| Queue.Ring.Preallocate | os161/kern/lib/queue.c:71-81 | at least that many slots, same sequence |
| Queue.Ring.Empty | os161/kern/lib/queue.c:85-88 | true exactly for the empty sequence |
| PtrArray.Vec.Preallocate | os161/kern/lib/array.c:43-65 | at least that many slots, same contents |
| PtrArray.Vec.SetSize | os161/kern/lib/array.c:68-89 | truncates or extends; releases the storage of a large array cut to a small size |
| PtrArray.Vec.Add | os161/kern/lib/array.c:100-114 | appends |
| PtrArray.Vec.Remove | os161/kern/lib/array.c:117-127 | removes one element and keeps the order of the others |
| ProducerConsumer.RunKeepsInv | hw2/producer_consumer.c:36-100 | in every state of every run, spurious wakeups included: items leave in the order they came, and no wakeup is lost |
| ProducerConsumer.ItemsInOrder | hw2/producer_consumer.c:36-100 | over every run each item is the number of the producer that put it, and what has been taken is the first of these, one for each section that takes |
| ProducerConsumer.NoDeadlock | hw2/producer_consumer.c:36-100 | in every unfinished state of every run some thread can take a step |
| ProducerConsumer.RunsFinish | hw2/producer_consumer.c:36-100 | without spurious wakeups every run ends within a stated number of steps, with all threads finished and exactly the items asked for delivered in order |
| ProducerConsumer.StepShrinks | hw2/producer_consumer.c:36-100 | every step lowers the measure |
| ProducerConsumer.Ring.ProducerSection | hw2/producer_consumer.c:43-66 | one locked section: waits, ends or appends one item |
| ProducerConsumer.Ring.ConsumerSection | hw2/producer_consumer.c:76-99 | one locked section: waits, ends or takes the oldest item |
| TurnOrder.RunKeepsInv | hw2/data_to_kernel.c:25-78 | in every state of every run the served ids followed by the buffered ones are 1, 2, 3 and so on, and nobody who could go on is left waiting |
| TurnOrder.SomeoneCanStep | hw2/data_to_kernel.c:25-78 | no run gets stuck, although producers never signal not_full |
| TurnOrder.RunsFinish | hw2/data_to_kernel.c:25-78 | every run without spurious wakeups ends within a stated number of steps with all producers served in order |
| TurnOrder.Packets.ProducerSection | hw2/data_to_kernel.c:30-46 | one locked section: waits, or fills a packet in turn |
| TurnOrder.Packets.ConsumerSection | hw2/data_to_kernel.c:56-77 | one locked section: waits, ends or serves the oldest id |
| Pseudorand.Schrage | os161/kern/dev/generic/pseudorand.c:15-33 | no intermediate value leaves 32 bits and the result is 16807 times the seed modulo 2^31 - 1 |
| Pseudorand.StepStays | os161/kern/dev/generic/pseudorand.c:34-38 | the seed stays between 1 and 2^31 - 2 |
| Pseudorand.StepInjective | os161/kern/dev/generic/pseudorand.c:15-33 | different seeds lead to different seeds |
| Pseudorand.PureCycle | os161/kern/dev/generic/pseudorand.c:15-33 | the first seed to come round again is the one the run started from |
| Pseudorand.Softc.Random | os161/kern/dev/generic/pseudorand.c:21-39 | one step, a value from 0 to randmax |
| Random.PointersStep | os161/lib/libc/random.c:426-440 | the front pointer is (rear + sep) mod deg after every call and both never wrap at once |
| Random.Recurrence | os161/lib/libc/random.c:122-145 | from any state on, every number drawn is half of a sum that equals, in 32 bits, the sums deg and sep draws before: the trinomial of the type |
| Random.DrawnRear | os161/lib/libc/random.c:415-442 | the rear pointer after k draws |
| Random.SeededRear | os161/lib/libc/random.c:232-247 | seeding ends with the rear pointer at 0 |
| Random.Resume | os161/lib/libc/random.c:282-394 | leave a buffer by initstate or setstate, do anything with other buffers, srandom included, and setstate back: the generator goes on exactly where it was |
| Random.SetCurrentAfter | os161/lib/libc/random.c:344-394 | after any draws and reseedings, setstate with the buffer in use leaves the same generator state if and only if the rear pointer is where it was when the buffer was last saved |
| Random.SetCurrentDraws | os161/lib/libc/random.c:344-394 | with draws only: if and only if they are a whole number of rounds |
| RandomSums.SameSums | os161/lib/libc/random.c:415-442 | two generators of one type produce the same sums forever, or for one round, if and only if their tables read from the rear pointer are equal |
| RandomSums.SetCurrentSums | os161/lib/libc/random.c:344-394 | setstate with the buffer in use changes no later 32-bit sum if and only if the table read from the saved and from the present rear pointer is the same |
| RandomDraws.SameNumbers | os161/lib/libc/random.c:415-442 | the same for the numbers random returns, which leave out the lowest bit of the sums: two generators draw the same numbers forever if and only if their tables read from the rear pointer are equal |
| RandomDraws.SetCurrentNumbers | os161/lib/libc/random.c:344-394 | setstate with the buffer in use changes no later number if and only if the table read from the saved and from the present rear pointer is the same |
| RandomDraws.SameLow | os161/lib/libc/random.c:415-442 | generators that draw the same numbers agree in the lowest bits that are not shown |
| RandomSums.SetCurrentDisturbs | os161/lib/libc/random.c:170-216 | with the table a program starts with, setstate after one draw changes the next number |
| Random.SetCurrent | os161/lib/libc/random.c:353-394 | it leaves the same generator state if and only if the tag in the buffer is up to date |
| Random.Generator.constructor | os161/lib/libc/random.c:170-216 | the generator and table a program starts with |
| Random.Generator.Draw1 | os161/lib/libc/random.c:415-442 | one draw of the generator in use |
| Random.Generator.Srandom | os161/lib/libc/random.c:232-247 | the table filled by the linear congruential generator and warmed up by ten rounds of draws |
| RandomStart.StartIsSeeded | os161/lib/libc/random.c:186-247 | seeding type 3 with 1 gives exactly the table and pointers the program starts with, as the comment says |
| RandomStart.InitIsStart | os161/lib/libc/random.c:186-332 | so initstate with seed 1 and 128 bytes leaves everything as when the program starts |
| RandomStart.LinearDraw | os161/lib/libc/random.c:415-425 | below 32 bytes of state the next number is 1103515245 times the last plus 12345 in 31 bits, and its lowest bit alternates |
| Random.Generator.InitState | os161/lib/libc/random.c:282-332 | saves the generator in use and seeds one in the buffer; NULL exactly below eight bytes |
| Random.Generator.SetState | os161/lib/libc/random.c:354-394 | saves the generator in use and takes up the one in the buffer |
| RoundTrip.PrintParse | os161/lib/libc/__printf.c:149-456 | for every 32-bit integer, every width and every choice of the flags - and 0, atoi of what %d prints is the number if and only if not both flags pad it, or it is 0 |
| RoundTrip.WidthIsRead | os161/lib/libc/__printf.c:151-206 | a decimal width in a format is read as that width |
| RoundTrip.PercentPrints | os161/lib/libc/__printf.c:463-553 | what such a format prints |
| Atoi.Parse | os161/lib/libc/atoi.c:21-72 | skips blanks, takes a sign and the digits up to the first other character, in 32 bits |
| Atoi.AtoiMeans | os161/lib/libc/atoi.c:14-72 | blanks, an optional sign, the decimal digits of any number and anything that is not a digit give that number, modulo 2^32 |
| Atoi.ZerosChange | os161/lib/libc/atoi.c:42-63 | appending zeros changes every value but 0, even modulo 2^32 |
| Printf.WordDigits | os161/lib/libc/__printf.c:46-54 | a word in base 8, 10 or 16 has at most 11 digits, so they fit the buffer of 12 |
| Printf.OctalIsTight | os161/lib/libc/__printf.c:46-54 | and 11 are needed |
| Printf.DigitsMean | os161/lib/libc/__printf.c:400-424 | the digits printed are the number in the base, without leading zeros |
| Printf.Printer.Convert | os161/lib/libc/__printf.c:380-432 | the digits, most significant first, never outside the buffer |
| Printf.Printer.PrintStuff | os161/lib/libc/__printf.c:332-369 | prefixes, text and padding in their order |
| Printf.Printer.GetNum | os161/lib/libc/__printf.c:215-276 | magnitude and sign together are the argument: the signed value of the word for %d, the word itself otherwise |
| Printf.Printer.Send | os161/lib/libc/__printf.c:463-528 | one character of the format, with what each conversion prints as stated by the laws below |
| Printf.Printer.Vprintf | os161/lib/libc/__printf.c:536-553 | the text of the whole format, and its length |
| Printf.Snp.Send | os161/lib/libc/snprintf.c:46-64 | stores what fits and drops the rest |
| Printf.Vsnprintf | os161/lib/libc/snprintf.c:70-112 | the first len - 1 characters and a NUL, nothing past it, and the length of the whole text returned |
| PrintfLaws.NumberPrints | os161/lib/libc/__printf.c:215-432 | %d prints the signed value in decimal, %u the word in decimal, %o in octal, %x and %p in hexadecimal, with the sign, 0 or 0x where due, for any flags, width and size, anywhere in a format |
| PrintfLaws.TextPrints | os161/lib/libc/__printf.c:500-510 | %s prints its text, or (null) |
| PrintfLaws.CharPrints | os161/lib/libc/__printf.c:511-527 | %c prints the low byte of its argument |
| PrintfLaws.OtherPrints | os161/lib/libc/__printf.c:511-527 | %% and illegal characters print themselves and take no argument |
| PrintfLaws.PlainPrints | os161/lib/libc/__printf.c:468-475 | the rest of the format is printed as it is |
| PrintfLaws.DirectivePrints | os161/lib/libc/__printf.c:151-206 | flags, width and size are read as such and the format goes on as from the start after the conversion |
| PrintfLaws.ShortFormats | os161/lib/libc/__printf.c:290-305 | without flags and width: the numerals of a word in hexadecimal, octal and decimal, and the prefixes of the # flag and of %p |
| PrintfLaws.NumeralUnique | os161/lib/libc/__printf.c:400-424 | a number has only one numeral in a base |

## Left out

- SfsMount.Mount: a disk with the right magic number holds a volume in good order that is no larger than the device; the source prints a warning about a larger one and mounts it.
- SfsRuns.Session: leaves out volumes for which the size of the free map wraps around; `SfsMount.Format` says that mksfs writes no map there.
- SfsVnodes.LoadVnode: the table of loaded vnodes is a map by inode number there; that the array holds one vnode per inode is `VnodeRefs.AlwaysOneVnode`.
- SfsRuns.Perform: requests on files that are not open do nothing; the VFS layer never passes them down. The model leaves open whether a request is refused with ENOSPC or EINVAL, which the contracts in `SfsDir` and `SfsIo` say, and what reading the root directory as a file returns, which `SfsIo.Read` says.
- VnodeRefs.Vnodes.ReclaimVnode: the whole of sfs_reclaim is one step; vn_opencount is not modelled.
- KHeap.Allocator.Kmalloc: what alloc_kpages returns is a parameter, either 0 or pages that overlap nothing live; the word that packs page address and block type is kept as two columns and the bitmap of page references as booleans.
- KHeap.Allocator.Kfree: takes NULL or a live allocation, since the source leaves double frees unchecked.
- Random.Generator.SetState: takes buffers that initstate or setstate has saved; a rear pointer outside the table is undefined in the source.
- Random.Generator.Draw1: the locks around the generator are not part of this model.
- Printf.Printer.Send: field widths and the count of characters are unbounded; arguments must be of the kind the format asks for, and string arguments hold no NUL.
- Kernel.StepKeeps: semaphore counts are unbounded; in the source V asserts that the 32-bit count stays positive.
- ProducerConsumer.RunsFinish: assumes at least one producer, one consumer and one slot; the statistics n_sleeps and n_contribs are left out.
- I/O errors, the retry in sfs_rwblock, running out of kernel memory in SFS, and crashes between syncs: block I/O succeeds here.
- Concurrent access to SFS: its static buffers have no lock, so operations are sequential; only the vnode counts are modelled under interleaving.
- Subdirectories, emufs and the VFS name tables: SFS has one directory.
- Context switches, interrupt levels, traps, device drivers, virtual memory, ELF loading, user programs and the menus: hardware effects, or code that would only add easy members.
- thread_killall and the panic paths of thread.c: they run only when the system goes down.
