# YozOs: verified models of the file system, process memory, scheduler and descriptors

These Dafny modules model the parts of the YozOs kernel that hold its hardest promises and prove them for all inputs and
all runs.

- **FAT16 engine** (`fs/fat.c`): `Disk`, `Fat`, `Directory`, `Names`, `WellFormed`, `Tree`, `FileData`, `FileSystem`,
  `Namespace`, `Subdirs`, `Allocation`, `ChainIO`, `CrashSafety`, `Files`, `Growing`, `Appending`, `Runs`, `Paths`,
  `Formatted`. A volume is an 512-byte sectors behind `ata_read` and `ata_write`; every write is recorded. Each C function is a method over those
  sectors. Its contract speaks about a tree of directories and files, which is proved to be what the sectors say.
- **Frames, page tables, process images** (`memory/frame_alloc.c`, `memory/paging.c`, `elf/elf.c`, the loader half of
  `cpu/user_mode.c`): `Frames`, `PageTables`, `Paging`, `ProcessMemory`, `Elf`, `Loader`, `InitialStack`, `Processes`,
  `FlatImage`, `ProgramFiles`, `UserMemory`, `Isolation`. Physical memory is an array of pages; page directories and tables live in it.
- **Scheduler** (`task/task.c`): `Ring`, `Scheduler`, `SchedulerRuns`. Tasks are objects in a ring of `next` pointers.
- **Handles and descriptors** (`fs/vfs.c`, the descriptor functions of `cpu/user_mode.c`): `Vfs`, `VfsRuns`, `Descriptors`.

`Bytes`, `Sequences` and `Limits` hold shared definitions. `Folding` holds the names for a device used throughout: a large
predicate is passed on under a quantifier, so that a method that does not need its parts does not see them.

How the parts lean on each other: `WellFormed.StepWellFormed`, `WellFormed.StepFree` and `Tree.StepTree` prove once that
changing one entry together with its chain keeps the volume well formed, accounts for every cluster and changes the tree in
one place. Every FAT operation is brought into that form. `Runs` quantifies over sequences of operations, `Vfs` builds
handles on top, `Descriptors` ownership of handles. In memory, `ProcessMemory.Loading` describes a process under
construction; each allocation, write and mapping keeps it, a finished one joins the table in `Isolation`, and clearing it
undoes it.

Formats are pinned to bytes: `Formatted`, `Directory.EntryRaw`, `FileData.ContentByte` and `FileData.SlotBytes` for the disk,
`ProgramFiles` for program files, `PageTables.Walk` for page tables, `Names.StoredForm` for names, `Paths` for paths.

## Preconditions

- Sectors have 512 bytes, there is at least one FAT, FATs have 1 to 255 sectors and clusters 1 to 128 sectors.
- The disk may be smaller than its FAT says (`Disk.BackedIff` gives the clusters it has). An operation that takes clusters
  asks that those `fat_find_free` gives it have sectors, or that there are too few free slots for it anyway
  (`WellFormed.Backs`); `Runs.EnoughServed` is the account a caller can keep.
- A file's chain is as long as its size takes; directories are one region each; entries that are hidden, long-name or volume
  entries own no chains.
- Sizes and lengths handed in are 32-bit values and ELF images are smaller than 2 GiB. No program header of an ELF image
  starts in the last 32 bytes below 4 GiB (`Elf.HeadersReadable`): there the sum in `elf32_program_headers_ok` wraps, and
  what the code reads is not in the image (`Elf.HeaderInside` states it both ways). Tables that wrap in other places are
  included.
- Operations are atomic; the only states in between that are modelled are the disks between sector writes.

## Findings

Places where the code does not keep a promise one would expect of it, or where code and documentation differ. The code is
modelled as it is; each bullet names the lines, the exact condition and the input that shows it.

- **Frame 0 can be handed out** (memory/frame_alloc.c:11-28). `init_frames` cuts frame numbers to 32 bits. A usable range
  that starts at a multiple of 16 TiB, rounded up to a page, and does not end in that page gives frame 0 to the allocator,
  whose result 0 means failure. `Frames.FrameZeroUsed` states exactly when, `Frames.FrameZeroGiven` shows such a range.
- **The disk that is built is too small for its FAT** (fs/fat.c:519-528, Makefile:102-105). `fat_find_free` is bounded by
  the FAT only. `Disk.BackedIff` states exactly which clusters have sectors; of the built disk's 2046 clusters 999 have
  (`Disk.ShippedDisk`). As the first free slots are taken first, nothing goes wrong before those are used up
  (`WellFormed.FreesBacked`).
- **A write to a file that has clusters is not atomic** (fs/fat.c:791-793), in this sense: a disk *reads as* a tree when its
  first FAT copy and its regions hold a volume of that tree in which every chain ends and is as long as its size takes
  (lost clusters allowed). `fat_write_file` frees the old chain before it rewrites the entry. `Files.FatWriteFile` states
  that every disk on the way reads as the old or as the new tree if and only if the write fails or the file had no clusters.
  Otherwise the disk after the first freed link reads as no tree (`CrashSafety.TornDisk`); `Runs.TornWrite` is such a run.
- **A dead process can hold a handle** (cpu/user_mode.c:1042-1058). `user_fd_open_current` uses the process that began last,
  whatever its state, and neither `schedule` nor `user_process_kill_pid` changes it. `Descriptors.StrayExact` and
  `Descriptors.StrayOrigin` state that this happens exactly by an open that works while the process is dead and still
  current; `Descriptors.OpenAfterKill` is such a run. The handle is closed when the slot is reaped, once another process has
  begun or the run has ended.
- **A seek to 2 GiB or beyond is reported as an error** (fs/vfs.c:298-299, cpu/user_mode.c:1161-1182). `vfs_lseek` moves the
  position and returns it as an int. `Vfs.SeekReports` states exactly when the report is right; `Vfs.SeekMisreported` shows
  two seeks that move and are reported as an I/O error and as invalid.
- **O_RDONLY with O_CREATE is not readable** (fs/vfs.c:9-11): `Vfs.ReadOnlyReadable` states it both ways.
- **`init_paging` does not look whether it got its two frames** (memory/paging.c:71-87). `Paging.InitPaging` states that it
  makes a kernel space if and only if two are free; `Paging.InitOneFrame` is the memory with one.
- **`create_task` does not look whether it got its frame** (task/task.c:81). `Isolation.ProcessTable.KernelStack` states
  that the stack goes to frame 0 exactly when no frame is free.
- **Idle can be killed** (task/task.c:284-296), and the next task to exit with nobody ready stays current
  (task/task.c:41-48). `Scheduler.Exit` and `SchedulerRuns.Apply` state exactly when that happens, `SchedulerRuns.NeverHalts`
  that it does not as long as idle is left alone, `SchedulerRuns.HaltedRun` is such a run.
- **`fat_rmdir` on a directory that is not empty returns FAT_ERR_NO_SPACE** (fs/fat.c:1270-1271), where its
  caller looks for FAT_ERR_NOT_EMPTY (fs/fat.c:1290): `Subdirs.FatRmdir` states the code for every case.

## Model

| member | source | states |
|---|---|---|
| `Disk.LbaInjective` | fs/fat.c:413-417 | Two sectors of regions (root directory or data clusters) lie on the same disk sector only if they are the same sector: the layout arithmetic `data_start + (c - 2) * sec_per_clus + k` is injective |
| `Disk.LaidOut` | fs/fat.c:182-194 | The volume has no gap: the FAT copies, 256 slots to a sector, then the root directory, then the clusters from number 2 on, sector after sector |
| `Disk.ReadSector` | fs/fat.c:129-158 | ata_read of a region's sector gives that sector of the image; it only needs the first FAT copy and the regions to be as the image says |
| `Disk.WriteSector` | fs/fat.c:583-598 | ata_write of a region's sector changes that sector of the image and no FAT copy; the disk after it is added to the trace |
| `Disk.FatEntry` | fs/fat.c:273-278 | Reads the slot from the first FAT copy |
| `Disk.FatSetEntry` | fs/fat.c:507-517 | All FAT copies stay identical and exactly one slot changes. Of the disks in between, one for each copy, every one already reads as the new table |
| `FileData.SlotBytes` | fs/fat.c:273-278 | Slot c of a FAT copy is the little-endian word at byte 2c of the copy's sectors |
| `Disk.BackedIff` | fs/fat.c:519-528 | A cluster fat_find_free can return has its sectors on the disk if and only if its number is below `2 + (sectors - data_start) / sec_per_clus` |
| `Disk.ShippedDisk` | Makefile:102-105 | For the disk the Makefile has formatted the FAT has 2048 slots and only clusters up to 1000 have sectors |
| `Formatted.BootGeometry` | tools/fat16_mkfs.py:39-64 | The boot sector the tool writes, byte by byte, gives fs_init that geometry, for every disk size |
| `Fat.ChainNoDup` | fs/fat.c:600-606 | A chain that ends in an end mark is acyclic |
| `Fat.ChainUnique` | fs/fat.c:600-606 | Table and first cluster determine the chain |
| `Fat.ChainWords` | fs/fat.c:413-434 | In the words of the table: each link names the next, the last one holds a mark from 0xFFF8 on |
| `Fat.FatFindFree` | fs/fat.c:519-528 | The first free slot; 0 exactly when the free count is 0 |
| `Fat.CountFreeClusters` | fs/fat.c:530-540 | The exact number of free slots |
| `Fat.FreeChain` | fs/fat.c:600-606 | On any table with in-range links, cyclic ones included, it ends; the table it leaves and the number of sector writes it makes are those of the walk |
| `Fat.FreeWalkChain` | fs/fat.c:600-606 | On an entry's chain the walk clears exactly the chain's slots, in as many steps, and the free count rises by exactly the chain length |
| `Fat.FreeListTake` | fs/fat.c:519-528 | Claiming the first free slot takes exactly it from the free list |
| `Fat.FreeListRelease` | fs/fat.c:600-606 | Releasing a used slot raises the free count by exactly one |
| `Directory.DirFindInRegion` | fs/fat.c:129-158 | Where the scan stops is the function Find: first visible entry with the name before the end marker, with its sector and index |
| `Directory.FindExact` | fs/fat.c:129-158 | In a well-formed directory the scan finds an entry exactly when a visible entry has the name |
| `Directory.FindFreeSlotInRegion` | fs/fat.c:542-563 | The first end marker or deleted slot, and no slot exactly when there is none |
| `Directory.RoomFound` | fs/fat.c:542-563 | The search finds a slot exactly when the number of reusable slots is not zero |
| `Directory.DirWriteEntry` | fs/fat.c:583-598 | One entry of one directory changes; table and all other regions stay; one sector write |
| `Directory.EntryRaw` | fs/fat.h:27-33 | Name, attributes, first cluster and size are at bytes 0, 11, 26 and 28 of an entry, lowest byte first |
| `FileData.EntryBytesAt` | fs/fat.c:129-158 | Entry j of a directory has the 32 bytes from byte 32j of its sectors on |
| `Directory.EntryKinds` | fs/fat.c:23-59 | Which entries are visible, directories or dot entries, by the bytes and masks the code tests |
| `Names.NameIsValid83` | fs/fat.c:61-94 | True exactly for names of 1-8 valid characters with at most one dot and an extension of at most 3 |
| `Names.NameTo83` | fs/fat.c:96-114 | The padded upper-case field form, which StoredForm and StoredAlike describe without it |
| `Names.RoundTrip83` | fs/fat.c:96-127 | name_from_83 of name_to_83 gives the name in upper case without a trailing dot |
| `Names.To83Injective` | fs/fat.c:61-127 | Two valid names are stored alike if and only if they are equal up to case and a trailing dot |
| `Names.StoredForm` | fs/fat.c:96-114 | Base b and extension x are stored as eight and three places, each the letter of the name as a capital or a space behind the end |
| `Names.FormOf` | fs/fat.c:61-94 | Every valid name is such a base and extension, perhaps with a dot behind |
| `Names.StoredAlike` | fs/fat.c:61-114 | Two valid names are stored alike if and only if they have the same letters in whatever case, up to a dot at the end; letters are compared by their codes, not by the code's conversion |
| `Names.NameChars` | fs/fat.c:42-45 | The characters a name may have: A-Z, a-z, 0-9, _ and - |
| `Names.PathNextComponent` | fs/fat.c:280-298 | The next component of the path, the end, or an error for one that does not fit |
| `WellFormed.StepWellFormed` | fs/fat.c:507-1279 | One argument for all operations: changing one entry together with its chain keeps every chain finite, ended, disjoint from the others, as long as its size takes, and the used slots exactly the chains |
| `WellFormed.StepFree` | fs/fat.c:519-606 | The free count changes by exactly the old chain's length minus the new one's |
| `WellFormed.MissingFree` | fs/fat.c:519-528 | On a well-formed volume the slots without sectors are all free |
| `WellFormed.FreesBacked` | fs/fat.c:519-528 | So n clusters taken in the order of fat_find_free all have sectors when n more than the missing ones are free |
| `Tree.StepTree` | fs/fat.c:507-1279 | Such a change alters the tree of directories and files in that one place |
| `Tree.EntryInTree` | fs/fat.c:129-158 | Looking an entry's name up in the tree gives what the entry stands for |
| `FileSystem.Lookup` | fs/fat.c:129-176 | Scanning a well-formed directory is lookup in the finite map it stands for |
| `FileSystem.FindEntry` | fs/fat.c:164-176 | Found exactly when the name is in the directory of the tree, at the place of its entry |
| `FileSystem.ReadEntry` | fs/fat.c:300-324 | The entry at that place, read again from its sector |
| `FileSystem.ResolveParentDir` | fs/fat.c:326-385 | Terminates and equals walking the path's components through the tree, error codes included; the return for a directory without a cluster is not reached |
| `Paths.ResolveName` | fs/fat.c:326-385 | A name alone is looked up in the root directory |
| `Paths.ResolveChild` | fs/fat.c:326-385 | A name behind a path and a slash is looked up in the directory the path names; the code says why not: the error of the path, an invalid name, nothing there, a file there |
| `Paths.ResolveSlash` | fs/fat.c:280-298 | A slash at the end makes no difference; slashes alone name nothing |
| `Paths.PathForms` | fs/fat.c:280-298 | Every path is of one of these forms, so they say what each path names |
| `FileSystem.LocateEntry` | fs/fat.c:714-732 | Path to entry: the code says why it fails, otherwise the entry, its sector and its place |
| `Namespace.FatCreateFile` | fs/fat.c:608-630 | The tree gains an empty file and the directory loses one slot, or the code says why not (bad path, taken name, a directory without a slot left) and the disk is unchanged |
| `Namespace.FatDeleteFile` | fs/fat.c:950-981 | The file leaves the tree, its clusters are free and so is its slot, or nothing changes |
| `Namespace.FatRenameFile` | fs/fat.c:1152-1197 | The file moves to the new name of the same directory with its content, or nothing changes; across directories it is refused |
| `Namespace.Commit` | fs/fat.c:583-606 | From the changed image to the changed tree: well formed, one place different, free count exact |
| `Namespace.RoomTaken` | fs/fat.c:608-630 | A new file takes exactly one reusable slot of its directory, and of no other |
| `Namespace.RoomGiven` | fs/fat.c:950-981 | A deleted entry gives exactly one slot back; a removed directory takes its own slots with it |
| `Namespace.RoomKept` | fs/fat.c:583-598 | Rewriting a file's entry changes no directory's number of reusable slots |
| `Subdirs.FatMkdir` | fs/fat.c:662-705 | The tree gains an empty directory with its full number of slots, for one cluster and one slot of the parent, or nothing changes; NO_SPACE exactly when one of the two is missing. Its dot entries stand for itself and for its parent |
| `Subdirs.DirClusterIsEmpty` | fs/fat.c:1214-1239 | True exactly when no entry but the dot entries is in use, which is when the tree's directory is empty |
| `Subdirs.FatRmdir` | fs/fat.c:1241-1279 | An empty directory leaves the tree and its cluster is free; a non-empty one gives FAT_ERR_NO_SPACE |
| `Paths.MakeAndCreate` | fs/fat.c:608-705 | mkdir of p and create of p/n: if the first works so does the second, and n is in the new directory and in no other |
| `Allocation.ClaimClusters` | fs/fat.c:753-766 | Claims the first free slots, or, when there are too few, restores the table exactly |
| `Allocation.LinkClusters` | fs/fat.c:768-771 | Links the claimed slots in order and ends the chain |
| `Allocation.GrowChain` | fs/fat.c:859-875 | Extends a chain by the first free slots; the no-space return is not reached |
| `Allocation.ExtendedChain` | fs/fat.c:867-875 | The extended table holds the longer chain and touches no other slot |
| `Allocation.LastCluster` | fs/fat.c:1057-1062 | The last link of the chain |
| `ChainIO.FillChain` | fs/fat.c:773-789 | The chain's bytes start with src; only the chain's clusters are written, at every write |
| `ChainIO.OverwriteChain` | fs/fat.c:889-923 | The chain's bytes are patched with src at the offset; the mid-walk error return is not reached |
| `ChainIO.ReadChain` | fs/fat.c:405-435 | The bytes from the offset on of the chain |
| `FileData.ContentByte` | fs/fat.c:405-435 | Byte 512(in + k) + b of a file is byte b of sector k of link i of its chain, for clusters of n sectors |
| `Files.FatReadFileAt` | fs/fat.c:387-440 | The slice of the file's content in the tree, or failure exactly when the path names no file; needs only what the first FAT copy and the regions show |
| `Files.BuildChain` | fs/fat.c:745-789 | A fresh chain holding src from the first free slots; without space the image is restored; every disk on the way differs only in free slots and their clusters |
| `Files.FatWriteFile` | fs/fat.c:707-796 | Code, tree and free count are those owed; without space nothing changes; the table and entry are determined. Every disk written before the old chain is freed reads as the old tree. Every disk reads as the old or as the new tree if and only if the write fails or the file had no clusters |
| `Files.ReleasedAtomic` | fs/fat.c:791-793 | The same condition for any volume and trace of that form, through the disk at the first freed link |
| `Files.NeededFits` | fs/fat.c:746-749 | The second size check of fat_write_file is not reached |
| `CrashSafety.ReadsAsBefore` | fs/fat.c:387-440 | A disk that differs from a well-formed one only in free slots and their clusters reads the same, every directory and file |
| `CrashSafety.TraceSafe` | fs/fat.c:753-789 | A trace of such disks can be cut anywhere without loss |
| `CrashSafety.DirsStay` | fs/fat.c:326-385 | Whatever tree such a disk is read as, the directories of the old one are in it |
| `CrashSafety.TornDisk` | fs/fat.c:600-606 | Once the first link of a file with a size is cleared while its entry stands, the disk reads as no tree |
| `Files.ReadAfterCrash` | fs/fat.c:387-440 | fat_read_file_at on a disk left by a crash gives what the old tree says |
| `Runs.TornWrite` | fs/fat.c:791-793 | The run that shows it on every formatted disk with a root directory and a cluster: create a file, write one byte, write it empty |
| `Growing.FatWriteFileAt` | fs/fat.c:798-931 | Content becomes the old content with src spliced in at the offset, size max(old, offset + len), everything else in the tree unchanged; code and free count exact; table and entry determined; failures change nothing |
| `Growing.MakeRoom` | fs/fat.c:849-876 | The up-front count makes every later no-space return unreachable; the first free slots are taken |
| `Growing.WriteBackSize` | fs/fat.c:925-928 | The directory sector read at the start is still current when it is written back: only the size of the one entry changes |
| `Growing.WriteIsWriteAt` | fs/fat.c:842-847 | On an empty file a positioned write is a plain one |
| `Appending.FatAppendFile` | fs/fat.c:996-1133 | Content becomes old content followed by src; code, free count, table and entry as owed; failures change nothing |
| `Appending.ExtraFromTail` | fs/fat.c:1039-1052 | The cluster count from the room in the tail equals the one from the two sizes |
| `Appending.AppendClusters` | fs/fat.c:1106-1128 | The loop ends with all of src written and exactly the counted clusters taken; its no-space return is not reached |
| `Appending.AppendIsWriteAt` | fs/fat.c:996-1133 | On trees: an append owes exactly what a positioned write at the end owes, both ways |
| `Appending.StoresSame` | fs/fat.c:849-928 | What such a write leaves in table and entry is determined by the start |
| `Appending.AppendAndWriteAt` | fs/fat.c:996-1133 | Run on two volumes in the same state, append and positioned write at the old size give the same code, FAT, directory entry and tree, the empty file and every failure included |
| `Runs.PutThenRead` | fs/fat.c:387-440 | After a file got new content its path reads it and every other path reads what it did |
| `Runs.WriteThenRead` | fs/fat.c:707-796 | fat_write_file followed by any read |
| `Runs.WriteAtThenRead` | fs/fat.c:798-931 | fat_write_file_at followed by any read |
| `Paths.DeleteThenRead` | fs/fat.c:950-981 | After a delete the path names nothing and every other path reads what it did |
| `Paths.RenameThenRead` | fs/fat.c:1152-1197 | After a rename the new path reads what the old one did, the old one names nothing, every other path reads what it did |
| `Runs.WriteLimit` | fs/fat.c:707-766 | A file is written with any number of bytes up to 8192, exactly when there are clusters for them beside the old ones; longer is TOO_BIG |
| `Runs.WriteAtLimit` | fs/fat.c:798-876 | A positioned write works exactly when it starts in the file or at its end, ends within 8192 bytes and has its clusters; each error otherwise |
| `Runs.TreeUnique` | fs/fat.c:326-385 | The tree is a property of the disk, whatever account shows it to be well formed |
| `Runs.FreePlusUsed` | fs/fat.c:530-540 | Free clusters and those in chains together are all clusters |
| `Runs.Run` | fs/fat.c:507-1279 | Every sequence of create, write, write-at, append, delete, rename, mkdir and rmdir keeps the volume well formed, and each does what it owes to tree, free clusters and directory slots, provided none is given a slot without sectors |
| `Runs.EnoughServed` | fs/fat.c:519-528 | Which holds for every sequence that asks for no more clusters in all than are free and have sectors |
| `Runs.RunKeeps` | fs/fat.c:507-1279 | Over any run a file no operation names keeps its place and content |
| `Runs.FsInit` | fs/fat.c:182-194 | fs_init on the disk of a well-formed volume finds that volume, with the geometry its boot sector gives |
| `Runs.InitBlank` | fs/fat.c:182-194 | On a formatted disk it is the empty tree, all clusters and root slots free |
| `Runs.Reboot` | fs/fat.c:182-194 | No operation reaches the boot sector: fs_init on the disk as it stands finds the same tree, free clusters and slots again |
| `Runs.RunAndReboot` | fs/fat.c:182-194 | What any run led to is there after fs_init |
| `Runs.RunFormatted` | fs/fat.c:182-194 | So all runs on a formatted disk are runs from the empty tree, and are found again after fs_init |
| `Formatted.MadeDisk` | tools/fat16_mkfs.py:39-71 | Every disk the tool writes holds a well-formed volume without files |
| `Formatted.RunMade` | tools/fat16_mkfs.py:39-71 | On such a disk every sequence of operations that asks for no more clusters than it has is a run from the empty tree, with 2046 free slots and 512 root entries, found again after fs_init |
| `Vfs.ResolveSimplePath` | fs/vfs.c:41-79 | Absolute or dot-relative paths only; the rest of the path, within the buffer |
| `Vfs.PlainPath` | fs/vfs.c:40-79 | A path without a dot in front and a slash behind is taken, behind a slash or any number of ./, if and only if it has at most 63 characters |
| `Vfs.RefusedPath` | fs/vfs.c:40-79 | Other working directories, paths that start with .. and paths that end in a slash are refused |
| `Vfs.FatStatFile` | fs/fat.c:461-492 | Size and kind as in the tree |
| `Vfs.ReadOnlyReadable` | fs/vfs.c:9-11 | A file opened for reading only is readable if and only if O_CREATE was not given with it |
| `Vfs.FlagBits` | fs/vfs.c:9-36 | Modes 0, 1 and 2 with create (4), truncate (8) and append (16): which are valid, and what each lets be done; 1 writes and does not read, 2 does both |
| `Vfs.FlagsComposed` | fs/vfs.c:17-36 | There are no other valid flags |
| `Vfs.OpenFiles.OpenAt` | fs/vfs.c:101-156 | Returns a handle exactly when flags and path are valid, a handle is free and the file exists, or can be made, as a file; each error in its order otherwise, and then nothing changes. It is the first free handle, the file found, made or emptied, with exactly the clusters of an emptied file given back; a file nobody else has open is held solely |
| `Vfs.OpenFiles.Read` | fs/vfs.c:162-187 | The slice at the position, which moves behind it |
| `Vfs.OpenFiles.Write` | fs/vfs.c:233-271 | All of src at the position or the end, exactly when it fits; otherwise content, cached size, position and free count stay |
| `Vfs.OpenFiles.Lseek` | fs/vfs.c:273-300 | The new position, exactly when the 32-bit sum does not wrap; the return value is that position as a 32-bit int |
| `Vfs.SeekReports` | fs/vfs.c:273-300 | A seek is reported as an error exactly when it did not move, if and only if the position asked for is not in [2^31, 2^32) |
| `Vfs.SeekMisreported` | cpu/user_mode.c:1161-1182 | Two such seeks that move: the program is told I/O error and invalid argument |
| `Vfs.UserCodes` | cpu/user_mode.c:1161-1182 | The word a program gets for each VFS result |
| `Vfs.OpenFiles.Close` | fs/vfs.c:189-195 | That handle is free, the others stay, solely held ones stay so |
| `Vfs.OthersStay` | fs/vfs.c:162-271 | Whatever is done through one solely held handle, all other handles see the same streams and stay solely held if they were |
| `Vfs.OpenStep` | fs/vfs.c:101-156 | Opening a file nobody has open gives a solely held handle and disturbs no other |
| `Vfs.UseAll` | fs/vfs.c:162-300 | Over any sequence of reads, writes and seeks a solely held handle is an abstract (content, position) file; whether a write fits is decided by the free clusters, which drop by what each write takes |
| `VfsRuns.ReadBack` | fs/vfs.c:162-300 | Write, go back to where that was, read as much: the bytes are those written, and the rest of the file is as it was |
| `VfsRuns.AppendsBehind` | fs/vfs.c:233-271 | An appending handle writes at the end, wherever it stands |
| `VfsRuns.SeekPlaces` | fs/vfs.c:273-300 | Seeks 0, 1 and 2 count from the start, the position and the end |
| `VfsRuns.OpenWriteRead` | fs/vfs.c:101-300 | Open with flags 2, 6, 10 or 14, write up to 8192 bytes that fit, go to the start, read: the bytes written come back |
| `Descriptors.NotShared` | cpu/user_mode.c:498-527 | No two descriptors of any processes share a handle, and each stands for a used one |
| `Descriptors.FdTable.constructor` | cpu/user_mode.c:253-261 | Nothing owned, nobody current |
| `Descriptors.FdTable.Start` | cpu/user_mode.c:253-261 | The first free slot starts with the standard descriptors; a start that fails gives it back; handles stay as they are |
| `Descriptors.FiveFiles` | cpu/user_mode.c:498-517 | A process starts with input, output and error; the files it opens get descriptors 3 to 7, and then there is none left |
| `Descriptors.FdTable.Begin` | cpu/user_mode.c:566-575 | The process is running and current |
| `Descriptors.FdTable.OpenFd` | cpu/user_mode.c:1042-1058 | The exact return value: invalid without a current process, no space without a free descriptor, then the error of the open. When it works the first free descriptor of the current process, in whatever state, gets the first free handle; otherwise nothing changes |
| `Descriptors.FdTable.CloseFd` | cpu/user_mode.c:1124-1144 | The exact return value; exactly that descriptor and its handle are closed, or nothing changes |
| `Descriptors.FdTable.CloseAll` | cpu/user_mode.c:518-527 | Exactly the handles of that process are closed, and nobody else's |
| `Descriptors.FdTable.End` | cpu/user_mode.c:564-588 | The run that saved the context last ends: marked, descriptors closed, nobody current |
| `Descriptors.FdTable.Kill` | cpu/user_mode.c:858-885 | Return codes, and for a kill: marked and descriptors closed; the current process stays current |
| `Descriptors.FdTable.Reap` | cpu/user_mode.c:836-856 | Return codes; a dead slot that is not current is free again and its remaining handles are closed, otherwise nothing changes |
| `Descriptors.FdTable.ReapAll` | cpu/user_mode.c:823-834 | The same for all slots; the current process is skipped |
| `Descriptors.Step` | cpu/user_mode.c:498-1144 | Every event does to processes, descriptors, handles and tree what it owes, and keeps every used handle owned by exactly one descriptor |
| `Descriptors.Play` | cpu/user_mode.c:498-1144 | So does every run of starts, opens, closes, exits, faults, kills and reaps, one state for each event |
| `Descriptors.StrayExact` | cpu/user_mode.c:1042-1058 | A dead process comes to hold a handle if and only if the event is an open that works while that process is still current |
| `Descriptors.StrayOrigin` | cpu/user_mode.c:498-1144 | Over every run: no dead process ever holds a handle if and only if there was no such open |
| `Descriptors.OpenAfterKill` | cpu/user_mode.c:858-885 | From the start, for every open that works: two processes begin, the second is killed, the first opens; the handle lands in the killed slot and reaping does not get at it |
| `Ring.FromTurn` | task/task.c:98-127 | Turning the ring by k turns the order in which tasks come up by k |
| `Ring.FromWithout` | task/task.c:145-167 | Taking tasks out does not disturb the order of the others |
| `Ring.IndexEntered` | task/task.c:67-76 | A task added at the end brings the others at most one place further away |
| `Scheduler.Scheduler.Init` | task/task.c:50-65 | One ring of main and idle, main running |
| `Scheduler.Scheduler.AddTask` | task/task.c:67-76 | The task is last in the ring |
| `Scheduler.Scheduler.Schedule` | task/task.c:98-127 | The first ready task after the current one runs, exactly one runs, its address space is active; with nobody ready nothing changes |
| `Scheduler.Scheduler.Exit` | task/task.c:41-48 | The task is exited; it is switched away from, to the first ready one, if and only if somebody is ready |
| `Scheduler.Scheduler.Kill` | task/task.c:284-296 | Return code and state; idle stays alive if and only if it is not the one killed |
| `Scheduler.Scheduler.Alloc` | task/task.c:261-272 | The first unused slot, or null exactly when there is none |
| `Scheduler.Scheduler.Spawn` | task/task.c:274-282 | The first unused slot becomes a ready task at the end of the ring; without one nothing changes |
| `Scheduler.Scheduler.Remove` | task/task.c:145-167 | Exactly that task leaves the ring and its slot is unused; head, current and strangers are left alone |
| `Scheduler.Scheduler.Reap` | task/task.c:195-229 | Exactly the exited tasks other than head, idle and current leave; the others keep order and state |
| `SchedulerRuns.TurnCloser` | task/task.c:98-127 | A turn brings a ready task strictly closer |
| `SchedulerRuns.ThinnedNotFurther` | task/task.c:195-229 | Kills and removals take it no further away |
| `SchedulerRuns.Fair` | task/task.c:98-127 | A task ready whenever it does not run becomes current within as many turns as there are tasks before it and tasks that enter, kills and reaps in between allowed |
| `SchedulerRuns.FairInRing` | task/task.c:98-127 | In particular within n - 1 turns in a ring of n, and one more for each task that enters |
| `SchedulerRuns.ExitedStaysOut` | task/task.c:195-229 | An exited task is not current again before its slot is freed |
| `SchedulerRuns.Apply` | task/task.c:41-296 | Every operation leads to the one view it owes and keeps one ring of exactly the tasks in use, exactly one of them running, the current one; it halts exactly when a task exits and nobody is ready |
| `SchedulerRuns.Play` | task/task.c:41-296 | Every sequence of operations is done, each leading to the view it owes, up to the first exit with nobody ready |
| `SchedulerRuns.FairPlay` | task/task.c:41-296 | In every such run a task that is neither killed nor removed becomes current once as many have yielded or exited as there are others in the ring and as were spawned |
| `SchedulerRuns.NeverHalts` | task/task.c:41-48 | A run halts only if idle was killed, removed or exited itself |
| `SchedulerRuns.HaltedRun` | task/task.c:284-296 | Killing idle after scheduler_init and then exiting is such a run |
| `Frames.TakenWith` | memory/frame_alloc.c:7-9 | set and clear change one frame's bit only |
| `Frames.InitFrames` | memory/frame_alloc.c:11-28 | Exactly the frames some usable range gives are free, 64-bit sums and 32-bit frame numbers wrapping as in the code |
| `Frames.GivesInside` | memory/frame_alloc.c:11-28 | A usable range above 1 MiB that ends below 16 TiB gives exactly the frames below 32768 that lie wholly in it; other ranges there give none |
| `Frames.FrameZeroUsed` | memory/frame_alloc.c:11-28 | Frame 0 stays in use if and only if no usable range above 1 MiB starts, rounded up to a page, at a multiple of 16 TiB and does not end in the page there |
| `Frames.FrameZeroGiven` | memory/frame_alloc.c:11-28 | Such ranges exist: with one of them frame 0 is handed out |
| `Frames.AllocFrame` | memory/frame_alloc.c:30-38 | The first free frame, or 0 when all are used; on any bitmap, also one with frame 0 free, which is then given as if there were none |
| `Frames.FreeFrame` | memory/frame_alloc.c:40-40 | Exactly that frame is free, on any bitmap |
| `PageTables.WithPteTranslate` | memory/paging.c:231-232 | Setting a table entry changes exactly one page's translation |
| `PageTables.SpaceUntouched` | memory/paging.c:209-235 | Writing frames outside a space changes no translation in it |
| `PageTables.Walk` | memory/paging.c:209-235 | The processor's walk: the top ten bits of an address pick a word of the directory, the next ten a word of the table it names; both must have bit 0, and bits 1 and 2 of both for writing and for users |
| `Paging.MapPage` | memory/paging.c:209-235 | Works exactly when there is a table or a frame for one; then exactly one page of one space changes and exactly the missing table is added; otherwise nothing changes |
| `Paging.MapsElsewhere` | memory/paging.c:209-235 | Mapping in one space changes no translation in another, user or kernel |
| `Paging.UserPagesOk` | memory/paging.c:20-65 | True exactly when the range does not wrap and every page it touches is present and user at both levels; the overflow exit is not reached |
| `Paging.UserRangeBytes` | memory/paging.c:20-65 | Which is when the page of every address of the range is a user page |
| `Paging.MarkUserRange` | memory/paging.c:89-131 | Only adds the user bit to present pages of the range; no frame is taken |
| `Paging.InitPaging` | memory/paging.c:71-87 | Makes a kernel space, of directory and one table, the first 4 MiB standing for themselves and nothing for users, if and only if two frames are free |
| `Paging.InitOneFrame` | memory/paging.c:71-87 | With every memory of one free frame it does not |
| `Paging.CreateUser` | memory/paging.c:141-173 | Works exactly when the pool has a free slot and two frames are free; the first free slot gets two fresh frames, no page open to users; on failure nothing is kept |
| `Paging.Destroy` | memory/paging.c:175-199 | Exactly the frames of the space are freed, each once |
| `Elf.ProgramHeadersOk` | elf/elf.c:43-83 | True exactly when header and every program header meet the stated bounds, 32-bit sums included |
| `Elf.HeaderInside` | elf/elf.c:52-55 | A header that passes the 32-bit bounds test is in the image if and only if the sum in the test does not wrap |
| `Elf.CheckElfHeader` | elf/elf.c:3-41 | elf32_header_ok test by test |
| `ProgramFiles.EhdrFields` | elf/elf.h:34-49 | If a file starts with the 52 bytes of an ELF header, the fields the kernel reads are those of the header, and it is taken exactly for an i386 executable with a program header table |
| `ProgramFiles.PhdrFields` | elf/elf.h:23-32 | If the 32 bytes of a program header are type, offset, vaddr, paddr, filesz, memsz, flags and align, the segment has exactly those |
| `ProgramFiles.CheckFile` | elf/elf.c:43-83 | A file made of headers, table and bytes is taken exactly when each of its loadable program headers meets the bounds, in the words of the file |
| `Elf.FillPage` | cpu/user_mode.c:1354-1389 | The page the segment describes at that address; for a checked segment it does not fail |
| `Elf.SegmentRangeOk` | cpu/user_mode.c:1317-1352 | True exactly when the rounded range stays below the top and off the stack page |
| `Elf.StackPageFree` | cpu/user_mode.c:1317-1352 | Rounding to pages never takes in the stack page |
| `Elf.PagesTouched` | cpu/user_mode.c:30-34 | The rounded range is exactly the pages that hold a byte of the segment |
| `Loader.MapSegment` | cpu/user_mode.c:1391-1431 | Works exactly when frames and records suffice; the segment's pages are added to the process's contents, in recorded frames |
| `Loader.MapElfSegments` | cpu/user_mode.c:1452-1516 | Works exactly for acceptable images, given the frames; then the contents are those of the program headers in order, the regions theirs plus the stack, the entry executable |
| `ProgramFiles.EntryInFile` | cpu/user_mode.c:1433-1452 | The entry point is executable exactly when a loadable header with PF_X holds it |
| `ProgramFiles.AcceptableFile` | cpu/user_mode.c:1317-1516 | Given the frames, such a file is loaded exactly when its entry is executable, no segment reaches the stack page or the last page, there are at most 16 pages and one to seven segments |
| `Loader.ImageTotal` | cpu/user_mode.c:1391-1431 | What the pages take one by one is, for the whole image, one frame for each page of each segment and one for each table that was missing |
| `Loader.ImageAt` | cpu/user_mode.c:1391-1431 | A page holds what the last segment covering it says |
| `FlatImage.MapImage` | cpu/user_mode.c:300-330 | One or two pages of the file are added to the process's contents, in recorded frames |
| `FlatImage.BinaryHeaderOk` | cpu/user_mode.c:195-224 | user_binary_header_ok test by test, and the entry point |
| `ProgramFiles.FlatHeader` | cpu/user_mode.c:190-224 | In the words of the file: YOZ1, load address 0x70000, an entry behind the header, the true size up to 8192 |
| `FlatImage.LoadFlat` | cpu/user_mode.c:965-1040 | Works exactly when the file has a size it takes, a space and a task slot are free and 3 frames plus one for each page of the file are; then the program is in memory. A failure anywhere leaves frames and pool as they were |
| `FlatImage.FlatInMemory` | cpu/user_mode.c:300-330 | Reading from the load address gives the file's bytes, zero up to the end of the page, and the stack that was built; the program may write to all of it |
| `Processes.MapStack` | cpu/user_mode.c:282-298 | One zeroed page for the stack, or nothing |
| `Processes.Clear` | cpu/user_mode.c:332-373 | Everything taken since the start is free again, each frame and table freed once, each in use when it is freed |
| `Processes.LoadElf` | cpu/user_mode.c:1518-1593 | Works exactly when a space and a task slot are free, the image is acceptable and there are 3 frames plus those of the image; then the program is in memory. A failure at any point leaves bitmap, used pages and pool exactly as they were |
| `Processes.CheckElf` | cpu/user_mode.c:1227-1315 | Says yes exactly when a space is free, the image is acceptable and there are 2 frames plus those of the image; whatever it finds, bitmap and pool are as before |
| `Processes.SegmentInMemory` | cpu/user_mode.c:1354-1431 | Through the page tables: the file's byte below p_filesz, zero above and on the rest of the pages; the page may be written to exactly when the segment's flags say so |
| `Processes.ProgramInMemory` | cpu/user_mode.c:1317-1516 | With page-disjoint segments, for every address of every segment |
| `ProgramFiles.FileInMemory` | cpu/user_mode.c:1354-1431 | The same in the words of the file: address vaddr + k holds byte offset + k of the file below filesz and zero up to memsz, writable if and only if PF_W is set |
| `Processes.StackInMemory` | cpu/user_mode.c:1317-1352 | The stack page is untouched by the segments and may be written to |
| `InitialStack.SetArgs` | cpu/user_mode.c:375-417 | The program's name and the first words of the argument string, if there is one, cut to 63 characters; the string is left unchanged |
| `InitialStack.ArgsSpaced` | cpu/user_mode.c:375-417 | For a string of words behind any numbers of spaces: the name and at most seven words, each cut to 63 characters |
| `InitialStack.BuildInitialStack` | cpu/user_mode.c:419-473 | Never fails; 4-aligned, inside the frame, with argc, pointers and strings in place |
| `InitialStack.Recovered` | cpu/user_mode.c:419-473 | Following argc, argv and envp from the entry pointer recovers exactly the words, with null-terminated arrays |
| `UserMemory.UserMemoryOk` | cpu/user_mode.c:71-103 | With len > 0 true exactly when the range does not wrap, all its pages are user pages and one region with the flags contains it |
| `UserMemory.FlagsMask` | cpu/user_mode.c:97-97 | The flag test is the mask the code writes, on bytes |
| `UserMemory.MayWrite` | cpu/syscall.c:82-83 | A buffer to be filled is taken exactly when its pages are user pages and one region that contains it has bit 1 of its flags |
| `UserMemory.ProgramWritable` | cpu/user_mode.c:1201-1211 | For a loaded ELF program those are the stack page and the segments whose headers have PF_W |
| `UserMemory.RegionPagesThere` | cpu/user_mode.c:71-103 | For a loaded program the page test never refuses a range inside one of its regions |
| `Isolation.Isolated` | cpu/user_mode.c:282-330 | Each user page of a process stands for a frame recorded as its own, out of reach of every other process and neither table nor directory of any process, nor a frame of the kernel's tables or of a kernel stack |
| `Isolation.ProcessTable.KernelStack` | task/task.c:80-97 | create_task writes seven words at the top of a free frame, or, exactly when no frame is free, of frame 0; the system stays isolated |
| `Isolation.ProcessTable.Start` | cpu/user_mode.c:1518-1593 | Starts an ELF program exactly when it can be loaded, in frames that were free, with a kernel stack apart; keeps the system isolated and every kernel translation; a failure changes no used frame |
| `Isolation.ProcessTable.StartFlat` | cpu/user_mode.c:965-1040 | The same for a flat program |
| `Isolation.ProcessTable.Check` | cpu/user_mode.c:1227-1315 | An ELF check keeps nothing and says yes exactly when the load would find its frames |
| `Isolation.ProcessTable.Prepare` | cpu/user_mode.c:17-28 | Marking a program's regions leaves every page of its space standing for what it did and every frame outside its tables as it was, because those pages were open to it already |
| `Isolation.ProcessTable.Store` | memory/paging.c:209-235 | A store by a program happens exactly when the page is one of its writable ones; it changes one byte of that program's contents in that one frame, and nothing any other process or the kernel's translations show |
| `Isolation.StoreThenRead` | memory/paging.c:209-235 | The program reads back what it stored and everywhere else what it did |
| `Isolation.ProcessTable.Stop` | cpu/user_mode.c:332-373 | Exactly what the process held is free again |
| `Isolation.Play` | cpu/user_mode.c:282-1593 | Every sequence of starts, checks, preparations, stores, stops and kernel tasks does what each event owes, keeps every state on the way isolated and every kernel translation |
| `Isolation.Boot` | memory/paging.c:71-87 | init_frames and init_paging lead to such a state |

## Left out

- ATA port access, screen, keyboard, interrupt and segment tables, timer and all assembly: sector reads and writes, context
  switches and loading a page directory are primitives.
- Preemption inside kernel operations: each operation is one step.
- Printing wrappers (`fs_*`), dumps and the shell: output only. `fat_read_file` and `vfs_stat_at` would only add easy members.
- The staging of a file in memory before it is loaded: the image is the sequence of bytes that was read.
- Built-in user programs: they share kernel pages on purpose, so isolation does not apply to them.
- Stack contents behind `user_context_restore`: the model follows what the resumed `run_user_process` does to the tables.
- Lookup of processes by number, names of processes and tasks, the working directory of a process (it is an argument of an
  open), reading and writing through the standard descriptors.
- Giving back the frames of kernel stacks: the code never does.
- Handles that share a file, and handles whose file was deleted or renamed: reads, writes and seeks are specified for a
  handle that is in step with its file and alone on it; the handle's cached size can be stale otherwise.
- FAT images with lost clusters, cross-linked chains or, as the host tool writes them, a cluster for an empty file: the
  operations start from well-formed volumes. Reading is also covered for volumes with lost clusters.
- Crash states of create, delete, rename, mkdir, rmdir, append and positioned writes: only fat_write_file's are stated.
- Program headers whose pages overlap: a page holds what the last segment says (`Loader.ImageAt`); the per-segment result
  asks for page-disjoint segments.
- Caching of translations by the processor.
- Host tools, except that the geometry of the disk they build is looked at.
