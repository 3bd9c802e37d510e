# MasterOS storage, memory and console

A Dafny model of three parts of MasterOS, with proofs about all inputs, states and runs.

**The FAT12 file system** (`masterOS/src/drivers/fs/fat.c`).
`FatTable`, `Names`, `Layout` and `Directory` model the packed table, 8.3 names, the regions of the disk and the slot searches.
`FatSpec` gives every operation as a function from a state (disk, current directory, stale end of the table buffer) to a return code, the ordered list of single-sector writes and the new state.
`Volume` states what a well-formed volume is: a ghost `Shape` lists the live directories (with a number that grows from parent to child), the cluster chain of every directory and file, and the one slot that owns each chain.
The FAT copies behind the first, which the code never reads, may hold anything; `Copies` proves when they agree.
`Removal`, `Allocation`, `Addition`, `Operations`, `Subdirectories` and `Runs` prove that every operation keeps it, whatever it returns; `Tree` draws the conclusions for directories reachable from the root.
`Reading`, `WriteRead`, `RoundTrip`, `Frame`, `Accounting` and `Renaming` prove what is read after what was written, what stays unchanged, and how many clusters are used.
`Interruption` and `Deletion` prove what survives when an operation is stopped after any number of its single-sector writes, and that the machine can start again.
`Formats`, `Attributes` and `Entries` say in plain arithmetic on bytes what lies where on the disk, which slots a search wants, and what the operations leave in a directory; `Room` says when `fat_write` has enough room.
`NewDirectories` is about `fat_mkdir` as a whole, `Leaks` about clusters that are in use but cannot be reached any more, and `Departures` gives volumes on which the code does not do what is intended.
`FatDriver` is the driver as a class over `Device`, a sector array behind `ata_read` and `ata_write`: statics, buffers and loops as in the source. Every operation is proved to return and to write, in order, what `FatSpec` says, and to leave a well-formed volume; `Boot` starts it on every well-formed disk, among them those an interrupted write leaves, so the results carry over to the code.

**Physical frames and page mapping** (`masterOS/src/memory/memory.c`, `kmalloc.c`, `exec.c`).
`Frames` models the bitmap allocator, `Paging` the two-level tables in the frames of physical memory, and the mapping loops of the heap and of programs; `Access` is about the flags of the stored words and about addresses byte by byte.

**The text console** (`masterOS/src/drivers/vga/vga.c`).
`Console` proves the in-place screen to be a window on a page that only grows, `Lines` what control characters do on it and where the lines of a text come to lie.

## Domain, and where the code departs from its intent

- Volumes are FAT12 with 512-byte sectors, at least one sector per cluster and FAT copy, and at most 17 sectors per FAT: with 18, all the table buffer holds, the search for a free cluster looks past it, and larger FATs are cut to that. The device ends before the first cluster without an entry of its own or with a number from 0xFF0 on. The driver decodes 12-bit entries only, although `masterOS/makefile:50` formats FAT16; the model follows the driver.
- `fat_find_free_cluster` looks at two entries past the table (fat.c:99). The model keeps this, together with the stale bytes of the buffer there.
- `fat_mkdir` clears one sector of the new cluster (fat.c:397-414). `MkdirExact` says exactly when the volume stays well-formed; with one sector per cluster it always does. `StaleSlotShows` is a volume on which it does not.
- Clusters are lost, but never shared, in these ways: `fat_write` and `fat_mkdir` in a full directory return -1 after the table was saved, and so does `fat_mkdir` if the cluster is not on the device; `fat_write`, `fat_mkdir` and `fat_rename` with a name that begins with 0xE5 return 0 and leave a slot that reads as deleted; `fat_rmdir` of a directory with content forgets the chains inside. `Leaks` proves that these are all, and that nothing comes back; `LeakingWrite` is one of them. The invariant holds all the same.
- Names that do not fit 8.3 are cut, and a base longer than 8 loses its extension. `NameRoundTrip`, `StoredMatches`, `WriteThenRead`, `RenameThenReadIs` and `MkdirThenCd` are therefore if-and-only-if statements, and `LostFile` shows a file that is lost.
- `fat_delete` saves the table before it marks the slot (fat.c:263-285), and `fat_write` of an existing name deletes first. `HalfRemoved` says when a stop in between leaves a volume that is not well-formed; other names are never affected.
- `memory.c:126` stores `1 << i` where a bitmap needs to keep the other bits. The functions take a parameter `keep`: false is the code as it is, true the design. Results named `Code...` say exactly how far the code meets the intent; results named `Kept...` are about the design. `ProgramTableInHeap` is what the calls at kernel.c:44-60 do: the page table that the console and every program use lies in the frame of the heap page.
- `memory.c:100` ors the new word into the old one, so `MapPageExact` has a condition, and `MappedTwice` is a case that fails it. Running out of frames returns 0, which `memory.c:87` does not check; the results about runs ask for enough frames, except `CodeExecReady`, which says how far the code gets.
- The frame bitmap covers 512 MB (memory.c:15). As coded the scan never leaves its first byte, so more memory changes nothing; the design is about the part that the bitmap covers. With fewer than 8 frames the end of the scan would wrap below zero; `PmmOk` excludes that.

## Model

| member | source | states |
|---|---|---|
| FatTable.Set | masterOS/src/drivers/fs/fat.c:88-97 | setting a packed 12-bit entry makes that entry the value modulo 4096 and leaves every other entry, also one that shares a byte, as it was |
| FatTable.SameEntries | masterOS/src/drivers/fs/fat.c:82-97 | two table buffers with the same entries are equal byte for byte, so the packed table refines an array of 12-bit values both ways |
| FatTable.MixedEntry | masterOS/src/drivers/fs/fat.c:82-87 | a byte-wise mixture of two tables agrees with both on every entry on which they agree, even where the entry straddles two bytes |
| FatTable.FindFree | masterOS/src/drivers/fs/fat.c:98-102 | first fit: the result is the lowest zero entry of the range, 0 exactly if there is none |
| FatTable.FindFreeCluster | masterOS/src/drivers/fs/fat.c:98-102 | the scan loop, over the two entries past the table too, returns that first fit |
| FatTable.NextCluster | masterOS/src/drivers/fs/fat.c:82-87 | the two-byte read with its shift or mask gives the 12-bit entry |
| Formats.EntryAt | masterOS/src/drivers/fs/fat.c:82-87 | entry c is the upper or the lower twelve bits of the little-endian number at byte c + c / 2 |
| Formats.EntriesOfTable | masterOS/src/drivers/fs/fat.c:98-101 | the search covers spf * 512 * 2 / 3 entries, which are those that lie in the table, and two more |
| Formats.WalkStops | masterOS/src/drivers/fs/fat.c:226-243 | reading and freeing go on from 2 up to 0xFEF, directories up to 0xFF7, and stop at every other number |
| FatTable.SetCluster | masterOS/src/drivers/fs/fat.c:88-97 | the two masked byte stores in place turn the buffer into the table with that entry set |
| FatTable.WalkIsChain | masterOS/src/drivers/fs/fat.c:126-130 | following the table from the head of a complete chain visits exactly its clusters |
| FatTable.FollowChain | masterOS/src/drivers/fs/fat.c:281 | following k links without looking for an end mark reaches cluster k of a complete chain |
| FatTable.Freed | masterOS/src/drivers/fs/fat.c:263-268 | freeing from any cluster of any table, cyclic ones included, ends (the number of non-zero entries drops) and only clears entries |
| FatTable.FreeChain | masterOS/src/drivers/fs/fat.c:263-268 | the freeing loop in place does that on every table content |
| FatTable.FreedChain | masterOS/src/drivers/fs/fat.c:505-510 | freeing a complete chain clears exactly the entries of the chain |
| FatTable.FreedCount | masterOS/src/drivers/fs/fat.c:263-268 | the set of free clusters grows by exactly the clusters of the chain, its size by the length of the chain |
| Names.StrCmpNoCase | masterOS/src/drivers/fs/fat.c:41-49 | the comparison loop returns zero exactly on equality up to case |
| Names.MakeName | masterOS/src/drivers/fs/fat.c:57-68 | the readable name never needs more than 12 bytes and a NUL |
| Names.MakeNameInto | masterOS/src/drivers/fs/fat.c:57-68 | the copy loops leave that name and a NUL in a 13-byte buffer |
| Names.SplitInto | masterOS/src/drivers/fs/fat.c:69-81 | the loops fill the two buffers with the padded upper-case name and extension; a base longer than 8 loses its extension |
| Names.NameRoundTrip | masterOS/src/drivers/fs/fat.c:57-81 | split_83 followed by make_name gives the upper-cased name if and only if the name fits 8.3 |
| Names.StoredMatches | masterOS/src/drivers/fs/fat.c:41-81 | a stored name compares equal to the given name if and only if the name fits 8.3 |
| Names.RawRoundTrip | masterOS/src/drivers/fs/fat.c:57-81 | make_name followed by split_83 gives back every padded upper-case raw name |
| Names.SplitFirst | masterOS/src/drivers/fs/fat.c:69-76 | the first byte stored for a name is never an end marker nor a dot |
| Formats.SameNames | masterOS/src/drivers/fs/fat.c:38-49 | two names are taken for the same if and only if they have the same length and every two bytes are equal or the same letter in both cases |
| Formats.ReadableName | masterOS/src/drivers/fs/fat.c:57-68 | the readable name is the bytes before the first space of the eight and, unless the three are all spaces, a dot and the bytes before their first space |
| Formats.StoredBase | masterOS/src/drivers/fs/fat.c:69-76 | the first eight bytes stored are those before the first dot, in capitals, and then spaces |
| Formats.StoredExtension | masterOS/src/drivers/fs/fat.c:77-81 | the last three are those behind the dot, if at most eight come before it, and else spaces |
| Layout.CopyStartFormula | masterOS/src/drivers/fs/fat.c:110 | the start of each FAT copy is fat_start + f * sectors_per_fat |
| Layout.ClusterStartFormula | masterOS/src/drivers/fs/fat.c:131 | the start of each cluster is data_start + (cluster - 2) * sectors_per_cluster |
| Formats.Regions | masterOS/src/drivers/fs/fat.c:131-142 | the copies, the root directory and the clusters as runs of sectors, with the products of the source |
| Layout.ClustersApart | masterOS/src/drivers/fs/fat.c:138-142 | the sectors of distinct clusters are disjoint and lie behind the root directory |
| Layout.CopyInFat | masterOS/src/drivers/fs/fat.c:108-115 | every FAT copy lies between fat_start and root_start |
| Layout.SaveTable | masterOS/src/drivers/fs/fat.c:108-115 | a complete save makes all FAT copies equal to the table in memory, whatever they held, and changes no sector outside the FATs |
| Formats.FatWriteAt | masterOS/src/drivers/fs/fat.c:108-115 | write f * spf + s of a save puts the 512 bytes of the table from 512 * s on into sector fat_start + f * spf + s, and there are no others |
| Layout.PartialSave | masterOS/src/drivers/fs/fat.c:108-115 | after any part of the save the first copy is a mixture of the old and the new table |
| Formats.SlotFields | masterOS/src/drivers/fs/fat.c:18-28 | slot i is the 32 bytes from 32 * i on, with the name in the first eleven, the cluster in bytes 26 and 27 and the size in 28 to 31 |
| Formats.JudgedFile | masterOS/src/drivers/fs/fat.c:209-220 | a slot is the wanted file if and only if its first byte is neither 0 nor 0xE5, the attribute bits 0x08 and 0x10 are clear and the name matches |
| Formats.JudgedSubdir | masterOS/src/drivers/fs/fat.c:457-466 | it is the wanted directory if and only if bit 0x10 is set, it is in use, it does not begin with a dot and the name matches |
| Formats.JudgedVacant | masterOS/src/drivers/fs/fat.c:363-366 | it can be filled if and only if its first byte is 0 or 0xE5 |
| Attributes.OtherAttributes | masterOS/src/drivers/fs/fat.c:213-214 | whatever the other six attribute bits of a slot are, every name in every directory reads and leads where it did |
| Directory.FindUnaffected | masterOS/src/drivers/fs/fat.c:209-221 | overwriting a slot that a search does not want by another such slot changes nothing for that search, even if the old slot was the end marker |
| Directory.ChainLbasAt | masterOS/src/drivers/fs/fat.c:123-132 | sector s of a chain is sector s % spc of its cluster s / spc |
| Directory.LbasApart | masterOS/src/drivers/fs/fat.c:131 | chains without a common cluster have no common sector |
| Directory.SlotsUpdated | masterOS/src/drivers/fs/fat.c:373-378 | writing one changed slot back changes that slot of the directory and no other |
| Volume.DirLbasAre | masterOS/src/drivers/fs/fat.c:116-133 | read_dir_sector delivers the sectors of the directory's own chain, for every table in memory that has that chain |
| Volume.WriteBackAgrees | masterOS/src/drivers/fs/fat.c:274-283 | the sector written back is the one that was scanned at index s, for every table in memory that still has the directory's chain |
| Volume.DirApart | masterOS/src/drivers/fs/fat.c:131 | a sector of one directory belongs to no other directory and no file |
| Volume.Unnoticed | masterOS/src/drivers/fs/fat.c:338-357 | free entries and free sectors may change without the volume noticing |
| Volume.SlotWriteKeeps | masterOS/src/drivers/fs/fat.c:365-378 | storing a slot that fits keeps the volume well-formed |
| Removal.FreedKeepsDir | masterOS/src/drivers/fs/fat.c:263-283 | freeing what a slot refers to leaves the chain of the directory that holds the slot, and every other chain |
| Removal.RemoveOutcome | masterOS/src/drivers/fs/fat.c:245-289 | what fat_delete and fat_rmdir write, in order: the changed table to every copy, then the scanned sector with its slot marked |
| Removal.RemoveKeeps | masterOS/src/drivers/fs/fat.c:486-528 | fat_delete and fat_rmdir keep the volume well-formed, also when the removed directory was not empty |
| Allocation.AllocWritesFree | masterOS/src/drivers/fs/fat.c:336-356 | every sector the allocation loop writes belongs to a cluster that was free, whether or not the loop succeeds |
| Allocation.AllocTable | masterOS/src/drivers/fs/fat.c:336-356 | a successful allocation takes the lowest free clusters in increasing order, links them into one end-marked chain and changes no other entry |
| Allocation.AllocCarries | masterOS/src/drivers/fs/fat.c:345-354 | the sectors written are the first ones of the chain; they carry the data and behind them zeros up to the end of the sector, and the last cluster is needed |
| Allocation.AllocEndMark | masterOS/src/drivers/fs/fat.c:344 | the last cluster gets the mark 0xFFF |
| Addition.DataAndTable | masterOS/src/drivers/fs/fat.c:338-357 | after data in free clusters and a complete save the old volume is still there, with the new table in memory |
| Addition.AddSlotKeeps | masterOS/src/drivers/fs/fat.c:358-383 | filling the first vacant slot with a slot that owns a new chain keeps the volume well-formed |
| Operations.StoreKeeps | masterOS/src/drivers/fs/fat.c:331-384 | the second half of fat_write keeps the volume well-formed whatever it returns |
| Operations.FailedAllocKeeps | masterOS/src/drivers/fs/fat.c:340-351 | running out of clusters or off the device leaves the old volume as it was |
| Subdirectories.MadeSector | masterOS/src/drivers/fs/fat.c:397-412 | the first sector fat_mkdir writes holds two dot entries with their cluster numbers and no other slot in use |
| Subdirectories.MadeSectorBytes | masterOS/src/drivers/fs/fat.c:397-412 | every byte of it: the names . and .., the attribute 0x10, the two clusters, size 0, and zeros |
| Entries.MadeEntry | masterOS/src/drivers/fs/fat.c:395-440 | after fat_mkdir returned 0 the first vacant slot holds, byte by byte, the entry of a directory with the lowest free cluster, which has the mark 0xFFF and those two entries of itself and its parent |
| Subdirectories.MadeDirectory | masterOS/src/drivers/fs/fat.c:397-414 | a cluster that begins with the sector fat_mkdir writes is a directory with an end if and only if the sectors that fat_mkdir does not clear start no slot |
| NewDirectories.MkdirSucceeds | masterOS/src/drivers/fs/fat.c:385-441 | fat_mkdir returns 0 if and only if there is a free cluster, it is on the device, and the directory has a vacant slot |
| NewDirectories.MkdirExact | masterOS/src/drivers/fs/fat.c:385-441 | a fat_mkdir that returned 0, for a name not beginning with 0xE5, leaves a well-formed volume if and only if, before the call, the sectors of the lowest free cluster behind the first one were on the device and started no slot |
| Departures.StaleSlotShows | masterOS/src/drivers/fs/fat.c:397-414 | a well-formed volume with two sectors per cluster on which fat_mkdir returns 0 and leaves a volume that is not well-formed |
| NewDirectories.MkdirFrame | masterOS/src/drivers/fs/fat.c:385-441 | fat_mkdir, whether it succeeds or not, leaves every other name, in every directory, as it was |
| NewDirectories.MkdirThenCd | masterOS/src/drivers/fs/fat.c:385-485 | after fat_mkdir of a new name fat_cd enters the new cluster if and only if the name can be found |
| NewDirectories.MkdirEmpty | masterOS/src/drivers/fs/fat.c:397-414 | nothing can be read in the new directory, and it has no way out but .. |
| Subdirectories.OneSectorClear | masterOS/src/drivers/fs/fat.c:397-414 | with one sector per cluster fat_mkdir always meets that condition |
| Runs.MkdirKeeps | masterOS/src/drivers/fs/fat.c:385-441 | fat_mkdir keeps the volume well-formed under that condition, whatever it returns |
| Runs.RenameKeeps | masterOS/src/drivers/fs/fat.c:290-327 | fat_rename keeps the volume well-formed, with the same chains |
| Runs.CdKeeps | masterOS/src/drivers/fs/fat.c:442-485 | fat_cd goes to the root or to a live directory |
| Runs.WriteKeeps | masterOS/src/drivers/fs/fat.c:328-384 | fat_write keeps the volume well-formed whatever it returns |
| Runs.FreshVolume | masterOS/src/drivers/fs/fat.c:134-145 | a formatted volume with an empty root directory is well-formed, so runs have somewhere to begin |
| Runs.RunKeeps | masterOS/src/drivers/fs/fat.c:245-528 | every state of every run of write, delete, rename, mkdir, rmdir and cd is a well-formed volume: chains complete, disjoint and owned once, directories with an end, the current directory live; nothing is asked of the FAT copies behind the first |
| Runs.RunExists | masterOS/src/drivers/fs/fat.c:245-528 | with one sector per cluster every sequence of calls is such a run |
| Copies.PerformCopies | masterOS/src/drivers/fs/fat.c:108-115 | FAT copies that agree go on agreeing, whatever a call returns; after a write, delete, mkdir or rmdir that returned 0 they agree whatever they were before |
| Copies.RunCopies | masterOS/src/drivers/fs/fat.c:108-115 | in every run FAT copies that agreed at the beginning agree at the end |
| Tree.ReachableChain | masterOS/src/drivers/fs/fat.c:245-528 | in a well-formed volume every entry with a cluster, of every directory reachable from the root, has a complete chain without repetition; a file fits in it, and a directory lies on the device |
| Tree.ReachableEmpty | masterOS/src/drivers/fs/fat.c:245-528 | an entry without a cluster is no subdirectory, and as a file it is empty |
| Tree.ReachableChains | masterOS/src/drivers/fs/fat.c:245-528 | two different entries with clusters, of directories reachable from the root, share no cluster |
| Tree.RunReachable | masterOS/src/drivers/fs/fat.c:442-485 | in every run the current directory stays reachable from the root |
| Reading.ReadWhole | masterOS/src/drivers/fs/fat.c:224-243 | fat_read gives min(file size, buffer size) bytes, that prefix of the data of the chain |
| Reading.ReadUpToChain | masterOS/src/drivers/fs/fat.c:224-243 | whatever size the slot says, the data of the chain, cut to the size and the buffer: a chain that is too short ends the file early |
| Reading.ReadSame | masterOS/src/drivers/fs/fat.c:198-244 | what the result of reading a name depends on |
| WriteRead.ReadHeld | masterOS/src/drivers/fs/fat.c:224-243 | reading a chain whose sectors hold the data gives the data, cut to the buffer |
| RoundTrip.StoreSucceeds | masterOS/src/drivers/fs/fat.c:338-383 | the second half of fat_write returns 0 if and only if the clusters sufficed and the directory has a vacant slot |
| Room.AllocSucceeds | masterOS/src/drivers/fs/fat.c:336-356 | the allocation succeeds if and only if there are as many free clusters as the data need whose sectors, as many as the last one must have, are on the device |
| Room.WriteSucceeds | masterOS/src/drivers/fs/fat.c:328-384 | fat_write returns 0 if and only if, after the delete, there is room in that sense or no data, and the directory has a vacant slot |
| Entries.WrittenEntry | masterOS/src/drivers/fs/fat.c:358-383 | then the first vacant slot holds, byte by byte, the entry of a file without attributes, with the lowest free cluster, or 0 without data, and the size |
| RoundTrip.WriteThenRead | masterOS/src/drivers/fs/fat.c:328-384 | after fat_write returned 0, for new and existing names, every size, cluster size and table, fat_read of the name gives exactly the data cut to the buffer; for a name that was not there otherwise, if and only if the name fits 8.3 and does not begin with 0xE5 |
| Departures.LostNames | masterOS/src/drivers/fs/fat.c:69-81 | two kinds of names that are not found again: a base longer than 8, and a first byte 0xE5 |
| Departures.LostFile | masterOS/src/drivers/fs/fat.c:328-384 | on a well-formed volume fat_write under any such name returns 0, and fat_read of the name finds nothing |
| Leaks.StoreLost | masterOS/src/drivers/fs/fat.c:331-384 | the second half of fat_write loses exactly the clusters it took, if the allocation succeeded and it does not return 0 or the name begins with 0xE5; otherwise none |
| Leaks.DeleteLost | masterOS/src/drivers/fs/fat.c:245-289 | fat_delete loses no cluster |
| Leaks.RenameLost | masterOS/src/drivers/fs/fat.c:290-327 | fat_rename loses exactly the clusters of the file, if the new name begins with 0xE5; otherwise none |
| Leaks.MkdirLost | masterOS/src/drivers/fs/fat.c:385-441 | under the condition of MkdirExact, fat_mkdir loses exactly the cluster it took, if it does not return 0 or the name begins with 0xE5; otherwise none |
| Leaks.RmdirLost | masterOS/src/drivers/fs/fat.c:486-528 | fat_rmdir loses no cluster if and only if the directory it removes refers to none |
| Leaks.PerformLost | masterOS/src/drivers/fs/fat.c:245-528 | no operation gets a lost cluster back, and each loses another one if and only if its condition on the state before and the return code fails |
| Leaks.RunLost | masterOS/src/drivers/fs/fat.c:245-528 | the same over every run: nothing lost comes back, and nothing more is lost if and only if every step meets its condition |
| Leaks.RunNoLoss | masterOS/src/drivers/fs/fat.c:245-528 | at the end of a run every cluster in use belongs to something reachable from the root, if and only if that was so at its beginning and every step meets its condition |
| Leaks.FreshNoLoss | masterOS/src/drivers/fs/fat.c:134-145 | on a volume with no cluster in use none is lost |
| Departures.LeakingWrite | masterOS/src/drivers/fs/fat.c:328-384 | a well-formed volume without a lost cluster on which fat_write of any name beginning with 0xE5 returns 0 and loses one |
| RoundTrip.DeleteUndoesWrite | masterOS/src/drivers/fs/fat.c:245-384 | fat_write of a new name and then fat_delete give back the table byte for byte, make every FAT copy equal to it, and change no slot but the one used |
| Frame.RemoveFrame | masterOS/src/drivers/fs/fat.c:245-289 | removing a name leaves every other name in the directory and everything in every other directory as it was |
| Frame.WriteFrame | masterOS/src/drivers/fs/fat.c:328-384 | fat_write, whether it succeeds, runs out of clusters or finds the directory full, leaves every other name in the directory and everything in every other directory as it was |
| Interruption.MixtureKeepsUsed | masterOS/src/drivers/fs/fat.c:108-115 | while the table is being saved, every entry in use reads the same, even one that straddles two FAT sectors |
| Interruption.InterruptedWrite | masterOS/src/drivers/fs/fat.c:339-379 | writing a new name and stopping after any proper prefix of the single-sector writes leaves a well-formed volume on which every existing file and directory is found and read as before |
| Interruption.InterruptedRestart | masterOS/src/drivers/fs/fat.c:134-145 | from there the machine can start again, whatever its table buffer holds: the volume is well-formed from the root on, so every run goes on, and shows what it showed |
| Interruption.InterruptedMkdir | masterOS/src/drivers/fs/fat.c:385-441 | stopping after any proper prefix of the writes of fat_mkdir leaves a well-formed volume on which everything is as before |
| Interruption.InterruptedMkdirRestart | masterOS/src/drivers/fs/fat.c:134-145 | from there, too, the machine can start again, whatever its table buffer holds |
| Interruption.FailedMkdir | masterOS/src/drivers/fs/fat.c:385-441 | a fat_mkdir that fails leaves the volume well-formed and everything in it as it was |
| Deletion.InterruptedRemove | masterOS/src/drivers/fs/fat.c:245-289 | fat_delete or fat_rmdir, stopped before its last write, leaves every other name, in every directory, as it was |
| Deletion.EarlyRemoved | masterOS/src/drivers/fs/fat.c:263-285 | as long as the table on the disk still has the entries of what is removed, and always if that has no cluster, the stop leaves a well-formed volume with everything as it was |
| Deletion.HalfRemoved | masterOS/src/drivers/fs/fat.c:263-285 | from the moment the first FAT copy is written until the slot is, a stop leaves a well-formed volume if and only if what is removed had no cluster: otherwise the slot is still there, on a freed chain |
| Deletion.DeleteForgets | masterOS/src/drivers/fs/fat.c:245-289 | after fat_delete the name cannot be deleted again, if and only if no other slot of the directory had it, and then it cannot be read |
| Deletion.RmdirForgets | masterOS/src/drivers/fs/fat.c:486-528 | the same for fat_rmdir, and fat_cd |
| Deletion.InterruptedOverwrite | masterOS/src/drivers/fs/fat.c:328-384 | fat_write of an existing name, stopped before its last write, leaves every other name, in every directory, as it was |
| Accounting.WriteTakesLowest | masterOS/src/drivers/fs/fat.c:336-356 | a successful fat_write of a new name takes exactly ceil(size / cluster size) clusters, the lowest free ones in increasing order, and free space falls by that number |
| Accounting.RemoveFrees | masterOS/src/drivers/fs/fat.c:263-289 | fat_delete and fat_rmdir free exactly the clusters of the chain of the name, and free space rises by their number |
| Entries.RenamedEntry | masterOS/src/drivers/fs/fat.c:290-327 | fat_rename returns 0 if and only if the old name is found, and then nothing in the directory changes but that slot |
| Formats.RenamedBytes | masterOS/src/drivers/fs/fat.c:309-313 | of which it replaces the first eleven bytes and no other |
| Renaming.RenameThenRead | masterOS/src/drivers/fs/fat.c:290-327 | after fat_rename to a name that is not there and can be found, the new name reads what the old one read, and the table is the same |
| Renaming.RenameThenReadIs | masterOS/src/drivers/fs/fat.c:290-327 | after fat_rename to a name that is not there, the new name reads what the old one read if it can be found, and nothing if it cannot |
| Renaming.RenameForgetsOld | masterOS/src/drivers/fs/fat.c:309-313 | the old name is no longer found, if it was unique and the new one differs |
| Renaming.RenameFrame | masterOS/src/drivers/fs/fat.c:290-327 | every third name, in every directory, is left alone |
| Device.AtaDisk.Read | masterOS/src/drivers/fs/ata.c:85 | one sector per call; a sector that is not on the device gives an error and changes nothing |
| Device.AtaDisk.Write | masterOS/src/drivers/fs/ata.c:111 | one sector per call, replaced as a whole; a sector that is not on the device gives an error and changes nothing |
| FatDriver.Driver.LoadFat | masterOS/src/drivers/fs/fat.c:103-107 | the loop fills the buffer with the first FAT copy and leaves what is behind it |
| FatDriver.Driver.WriteFat | masterOS/src/drivers/fs/fat.c:108-115 | the nested loops write the table to every copy, sector by sector in order |
| FatDriver.Driver.ReadDirSector | masterOS/src/drivers/fs/fat.c:116-133 | the sector of the directory for index s is read, or 1 returned past the end |
| FatDriver.Driver.FindSlot | masterOS/src/drivers/fs/fat.c:251-273 | the nested search loops find the first wanted slot before the end marker, with its sector in the buffer |
| FatDriver.Driver.WriteBack | masterOS/src/drivers/fs/fat.c:274-285 | the second walk over the changed table, and the write |
| FatDriver.Driver.FatInit | masterOS/src/drivers/fs/fat.c:134-145 | from the numbers in the boot sector: the copies begin behind the reserved sectors, the root directory behind them, the clusters behind the sectors of its entries, each at its product; if the volume is well-formed, whatever the other FAT copies hold, the driver is ready |
| FatDriver.Boot | masterOS/src/drivers/fs/fat.c:134-145 | with fresh statics fat_init makes the driver ready, in the root directory, on every volume that is well-formed there |
| FatDriver.InterruptedBoot | masterOS/src/drivers/fs/fat.c:134-145 | after an interrupted fat_write of a new name the disk is such a volume, with the same geometry, and everything on it shows as before |
| FatDriver.Driver.ReadClusters | masterOS/src/drivers/fs/fat.c:228-243 | the read loop ends on every table, delivers what ReadChain says and never stores at or past the buffer size |
| FatDriver.Driver.FatRead | masterOS/src/drivers/fs/fat.c:198-244 | the result and the buffer are those of ReadFile on the state before; no byte of the buffer at or past its given size, or past what was read, changes, and no state does |
| FatDriver.Driver.WriteCluster | masterOS/src/drivers/fs/fat.c:347-354 | the sector loop of one cluster writes the next part of the data, and as much of it as the device has room for on failure |
| FatDriver.Driver.Allocate | masterOS/src/drivers/fs/fat.c:336-356 | the allocation loop leaves exactly the table, the data writes and the first cluster of AllocChain |
| FatDriver.Driver.FatWrite | masterOS/src/drivers/fs/fat.c:328-384 | return code, disk, order of the writes and statics are those of WriteFile; the volume stays well-formed; FAT copies that agreed agree, and after a 0 they agree in any case |
| FatDriver.Driver.FatDelete | masterOS/src/drivers/fs/fat.c:245-289 | the same for Delete |
| FatDriver.Driver.FatRename | masterOS/src/drivers/fs/fat.c:290-327 | the same for Rename |
| FatDriver.Driver.FatMkdir | masterOS/src/drivers/fs/fat.c:385-441 | the same for Mkdir on every volume, except that it stays well-formed under the condition of MkdirExact |
| FatDriver.Driver.FatRmdir | masterOS/src/drivers/fs/fat.c:486-528 | the same for Rmdir |
| FatDriver.Driver.FatCd | masterOS/src/drivers/fs/fat.c:442-485 | the same for Cd |
| Frames.ScannedIs | masterOS/src/memory/memory.c:113-114 | a frame is scanned if and only if all eight frames of its byte lie in [pageFrameMin, pageFrameMax), and it is not the last such byte before an odd end |
| Frames.FramesInMemory | masterOS/src/memory/memory.c:19-25 | in addresses: the scanned pages after pmm_init are those that share a byte of the bitmap only with pages in [memLow, memHigh), but for that byte |
| Frames.FrameIsLowestFree | masterOS/src/memory/memory.c:112-136 | a frame is returned if and only if a scanned one is free; it is the lowest free one and lies in [pageFrameMin, pageFrameMax) |
| Frames.CodeRun | masterOS/src/memory/memory.c:122-131 | as coded, the calls after pmm_init return the first two scanned frames in turn |
| Frames.CodeNeverTwice | masterOS/src/memory/memory.c:126 | as coded, no frame is handed out twice if and only if there are at most two calls |
| Frames.CodeTotal | masterOS/src/memory/memory.c:126-127 | as coded, totalAlloc is the number of set bits if and only if there was at most one call |
| Frames.KeptNeverTwice | masterOS/src/memory/memory.c:112-136 | with the other bits of the byte kept, no frame is ever handed out twice, from any state on |
| Frames.KeptRun | masterOS/src/memory/memory.c:112-136 | with the other bits kept, the calls after pmm_init return all scanned frames one after the other, and then 0 |
| Frames.KeptTotal | masterOS/src/memory/memory.c:15 | with the other bits kept, totalAlloc is the number of set bits in every run |
| Frames.KeptExhausted | masterOS/src/memory/memory.c:135 | with the other bits kept, calls succeed exactly as often as there are free frames |
| Frames.FrameAllocator.PmmInit | masterOS/src/memory/memory.c:19-25 | the bounds are the first whole page from memLow on and the last one before memHigh; bitmap and count are cleared |
| Frames.FrameAllocator.PmmAllocPageFrame | masterOS/src/memory/memory.c:112-136 | the nested loops return the address of that frame and store its bit alone |
| Paging.OrCovers | masterOS/src/memory/memory.c:100 | or-ing adds nothing if and only if every bit is there already |
| Paging.MapPageRefines | masterOS/src/memory/memory.c:70-110 | memMapPage maps the page to the given frame or-ed into the stored bits; every other page, also when a new table is made and zeroed, keeps its translation; the tables stay apart |
| Access.MapPageWord | masterOS/src/memory/memory.c:100 | every bit of the stored word: 1 if and only if it is the present bit or set in the physical address, in the flags or in the word before |
| Access.MapPageOthers | masterOS/src/memory/memory.c:70-110 | every other page keeps its word, or has none |
| Access.DirectoryWord | masterOS/src/memory/memory.c:86-98 | every bit of the directory word: a new table is present, writable and the owner's, with the flags asked for, an old one gets at most the user bit; the other words stay |
| Access.MapPageAccess | masterOS/src/memory/memory.c:70-110 | a page mapped writable can be read and written, and so can all that could before |
| Paging.MapPageExact | masterOS/src/memory/memory.c:100 | the page translates to exactly the given frame if and only if the stored bits are bits of it |
| Paging.MappedTwice | masterOS/src/memory/memory.c:100 | a page mapped to frame 1 and then to frame 2 ends in frame 3 |
| Paging.SharedTable | masterOS/src/memory/memory.c:86-93 | a new table in the frame of another table: that one's pages are lost |
| Paging.GuardedMap | masterOS/src/memory/memory.c:70-110 | with the allocator's other bits kept, the paging structures stay out of the allocator's reach |
| Paging.HeapMaps | masterOS/src/memory/kmalloc.c:10-20 | every heap page is mapped to the frame it was given, and no other page changes |
| Access.HeapAccess | masterOS/src/memory/kmalloc.c:18 | every heap page can be read and written |
| Access.HeapWords | masterOS/src/memory/kmalloc.c:18 | the words of heap pages not mapped before have exactly the low bits 3 |
| Access.PagesCounted | masterOS/src/memory/memory.c:101 | mem_num_vpages counts the pages of the heap and of the programs |
| Paging.KeptHeap | masterOS/src/memory/kmalloc.c:10-31 | with the allocator's other bits kept and enough frames, every step of a heap of any size finds a frame for its page and a fresh one for its table |
| Paging.KeptHeapApart | masterOS/src/memory/kmalloc.c:16-19 | with the other bits kept, the frames handed out for the heap pages are pairwise distinct |
| Paging.KeptHeapMapped | masterOS/src/memory/kmalloc.c:10-20 | with the other bits kept, every page of a heap not mapped before is mapped to exactly the frame it was given, and no two pages to the same frame |
| Paging.HeapCalls | masterOS/src/memory/kmalloc.c:16-19 | with the other bits kept, a new heap of n pages takes n + ceil(n / 1024) frames |
| Paging.CodeHeapApart | masterOS/src/memory/kmalloc.c:16-19 | as coded, they do if and only if the heap has one page, or two if the table was there before |
| Paging.ExecMaps | masterOS/src/drivers/device/exec.c:22-26 | if every step finds its table or a fresh frame for one, each page of the program is mapped to itself or-ed into the stored bits, and no other page changes |
| Access.ExecAccess | masterOS/src/drivers/device/exec.c:22-26 | every page of a program can be read and written |
| Access.ExecWords | masterOS/src/drivers/device/exec.c:25 | the words of program pages not mapped before have exactly the low bits 3 |
| Paging.ExecIdentity | masterOS/src/drivers/device/exec.c:22-31 | then every page translates to itself if and only if no page had a foreign bit stored |
| Paging.KeptExec | masterOS/src/drivers/device/exec.c:8-31 | with the allocator's other bits kept and a free frame for every new table, every step of a program of any size, across any number of tables, finds a fresh frame, and takes no other one |
| Paging.KeptExecIdentity | masterOS/src/drivers/device/exec.c:8-31 | so a program of any size is mapped to itself if and only if no foreign bit was stored |
| Paging.KernelProgram | masterOS/src/kernel.c:40-60 | with the other bits kept, after initMemory, kmallocInit(0x1000) and the mapping of the console a program of any size below the kernel is mapped to itself, with console and heap page where they were, if there are frames for the tables |
| Paging.CodeExecReady | masterOS/src/drivers/device/exec.c:8-31 | as coded, after that start every step of a program finds a fresh frame for its table if and only if the program has at most 256 pages |
| Paging.CodeExecOverHeap | masterOS/src/drivers/device/exec.c:22-26 | as coded, with one page more the table of the heap is overwritten and the heap page is mapped to the last page of the program |
| Paging.ExecOneTable | masterOS/src/drivers/device/exec.c:8-26 | for the programs exec_run accepts the state before the call decides whether a table can be made |
| Paging.ProgramTableInHeap | masterOS/src/kernel.c:40-60 | as coded, after initMemory and kmallocInit(0x1000) the mapping of the console takes the frame of the heap page for its page table; the table stays there in every program that is run, which takes no frame and is mapped to itself |
| Access.InitVmWords | masterOS/src/memory/memory.c:33-43 | initMemory clears word 0 of the directory, makes word 1023 the directory itself with the low bits 3, and leaves the others |
| Access.CodeKernel | masterOS/src/kernel.c:40-60 | as coded, from initMemory on: heap page, console and a program of up to 256 pages can be read and written, with the low bits 3; console and program are at their own addresses, byte by byte, with their page table in the frame of the heap page |
| Access.KeptKernel | masterOS/src/kernel.c:40-60 | with the other bits kept, the same for a program of any size below the kernel, if there are frames for its tables, with the heap page in a frame of its own |
| Paging.KernelStart | masterOS/src/memory/memory.c:33-43 | initMemory on the boot directory meets what these results ask for |
| Paging.KernelHeap | masterOS/src/memory/kmalloc.c:22-31 | with the other bits kept, kmallocInit of any size after initMemory maps all pages to pairwise distinct frames, if there are n + ceil(n / 1024) free frames |
| Paging.Mmu.InitMemory | masterOS/src/memory/memory.c:33-43 | the boot directory, the allocator and the count after initMemory |
| Paging.Mmu.MemMapPage | masterOS/src/memory/memory.c:70-110 | the code, with its zeroing loop, does what MapPage says |
| Paging.Mmu.ChangeHeapSize | masterOS/src/memory/kmalloc.c:10-20 | the loop does what HeapRun says |
| Paging.Mmu.KmallocInit | masterOS/src/memory/kmalloc.c:22-31 | the heap after kmallocInit |
| Paging.Mmu.MapProgram | masterOS/src/drivers/device/exec.c:22-26 | the mapping loop does what ExecRun says |
| Console.PlainText | masterOS/src/drivers/vga/vga.c:110-116 | plain text fills consecutive cells of the page, whatever rows it wraps around, and nothing before it changes |
| Lines.NewlineIs | masterOS/src/drivers/vga/vga.c:31-39 | a newline puts the cursor at the start of the next row and changes no cell; below the last row a row of blanks is added |
| Lines.ReturnIs | masterOS/src/drivers/vga/vga.c:86-88 | a return puts the cursor at the start of its row and changes no cell |
| Lines.BackspaceIs | masterOS/src/drivers/vga/vga.c:89-98 | a backspace goes one cell back, also into the row above, and blanks that cell alone; at the first visible cell it does nothing |
| Lines.TabIs | masterOS/src/drivers/vga/vga.c:99-109 | a tab goes to the next multiple of four, blanks the cells it passes and changes no other |
| Lines.LinesAre | masterOS/src/drivers/vga/vga.c:80-120 | of lines of plain text with a newline, or a return and a newline, after each, every one begins in the row behind the line before, which takes a row for every eighty characters begun, and fills the cells from there on |
| Lines.ShownCells | masterOS/src/drivers/vga/vga.c:8-17 | cell k of the 4000 on the screen is cell k of the last fifty rows |
| Console.PrintKeepsHistory | masterOS/src/drivers/vga/vga.c:80-120 | rows that were scrolled out are never touched again, by backspaces neither |
| Console.BackAfterPut | masterOS/src/drivers/vga/vga.c:89-98 | a backspace after a plain character blanks its cell and puts the cursor back |
| Console.Vga.SetColor | masterOS/src/drivers/vga/vga.c:45-48 | every colour that can be set has the zero low byte that printing asks for, and setting one changes no cell |
| Console.Vga.Reset | masterOS/src/drivers/vga/vga.c:19-29 | all 4000 cells are blanks of the current colour, and the cursor is at the first one |
| Console.Vga.ScrollUp | masterOS/src/drivers/vga/vga.c:50-60 | the copy loops move every row up by one and blank the last one |
| Console.Vga.NewLine | masterOS/src/drivers/vga/vga.c:31-39 | the screen shows the page with the cursor in the next row |
| Console.Vga.Backspace | masterOS/src/drivers/vga/vga.c:89-98 | the screen shows the page with one cell taken back, never above the first visible row |
| Console.Vga.Tabulate | masterOS/src/drivers/vga/vga.c:99-109 | the screen shows the page with blanks up to the next multiple of four |
| Console.Vga.Print | masterOS/src/drivers/vga/vga.c:80-120 | for every string the screen is the window on the last rows of the page on which the text was laid out without scrolling; line < 50 and column <= 80 |

## Left out

- `fat_list`, `fat_get_total_kb`, `fat_get_used_kb`, `fat_set_current`: they add a loop over the same slots, or getters.
- The text of the current path in `fat_cd`: string bookkeeping without a bound. Only the current cluster is modelled.
- One table buffer stands for the static buffers of the separate functions. They differ only in the stale bytes behind the table, which are arbitrary in every result, but the model lets the second half of `fat_write` see those that its delete left; the buffers of the searches and of the data are shared likewise.
- Byte counts at or above 2 GiB: the 32-bit sum and the `int` result of `fat_read` would wrap. Data given to `fat_write` is below 4 GiB.
- FAT16, long file names, dates, and growing a directory beyond its chain: the code does not have them.
- Port-level ATA: a call of `ata_read` or `ata_write` succeeds exactly for a sector of the device.
- `invlpg`, control registers, the TLB and `syncPageDirs`: no effect on the tables (`pageDirsUsed` is never set).
- The copy loop of `exec_run` and the jump to the program: the contents of mapped frames are modelled as table words only.
- The four-megabyte pages of the boot directory are kept in the translation, but `memMapPage` inside them is not covered.
- The heap ends below the part of the address space in which the tables show themselves, and so does a program.
- VGA registers, fonts, GDT, IDT, timers, the shell and its commands: device registers and user interface.
- Console characters are ASCII and colours have a zero low byte, as `set_color` makes them, so or-ing is adding.
