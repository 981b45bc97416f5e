# ucore: proofs about its image builder, heap, generator and text tools

A Dafny model of six parts of the ucore labs, with proofs of what they keep.
`dafny verify dfyconfig.toml` checks all of it.

* **The image builder** (`lab8/tools/mksfs.c`). `Mksfs` has the tool in its own
  form, an object whose methods update the allocator, the block maps with their
  cached index blocks, the hash chains and the image. Each method is proved
  against a function of `SfsModel`, in which a file is the list of its blocks.
  `SfsBlockMap` is about the three-level block map, `SfsTables` and `SfsImage`
  about what gets flushed, `SfsRun` and `SfsAccounting` about what every state
  of every run keeps, `SfsNumbers` about what the host's inode numbers tell
  apart, `SfsTree` about the directory tree in the abstract state, `SfsReader`
  about a reader that has nothing but the bytes, `SfsReadBack` about what it
  finds whatever the numbers are like, `SfsFit` about when a run comes to its
  end, and `MakeImage` puts it together. `SfsPlain`, `SfsLimits` and `SfsBytes`
  say the same in the host's own terms: names, limits and block counts in plain
  numbers, and the layout byte by byte.
* **The skew heap** (`lab8/libs/skew_heap.h`), in `SkewHeap`: pointers with
  parent links, order, and the amortised logarithmic bound.
* **The generator** (`lab8/libs/rand.c`), in `Rand`: its exact period.
* **The device-tree scanner** (`lab2/kern/driver/dtb.c`), in `DeviceTree`, and
  the structure blocks of trees (sections 5.4 and 5.5 of the Devicetree
  Specification), in `DeviceTreeBlob`; `DeviceTreeBytes` has their bytes.
* **The formatter and the number parser** (`lab8/libs/printfmt.c`,
  `lab8/libs/string.c`): `Format` says what a format stands for, `Printf` has
  the loops, `Strings` the string functions, `FormatLaws` the round trips.
  `Numerals` is positional notation, and `ConversionLaws` says in it what every
  conversion puts, wherever in a format it stands.
* **The shell's tokenizer** (`gettoken` in `lab8/user/sh.c`), in `Shell`.

Where code and comments disagree the model follows the code:

* `rand` says it answers with a number from 0 on; the macro `do_div`
  (`lab8/libs/riscv.h:234-240`) does not parenthesise its base, so that 1 is
  added after the reduction and the answers are 1 to `RAND_MAX`.
* `add_entry` writes as many bytes as the name field has, from the inode number
  before it on, so that the last four bytes of the field are lost.
* Fresh index blocks are all put into the hash chain of number 0. They are hardly
  ever found by a search; no run needs one.
* `strtol`'s comment has "0X" for a prefix as well; the code takes "0x" alone.
* `-` as padding character of a number puts minus signs, as the code does.

Pictures used throughout: a run that ends in `bug(...)` or a failed assert is an
`Abort`. The tool takes two host files for one if they have one inode number,
and number 0 for the root directory, which is cached under it.
`SfsNumbers.NumbersAgree` says of a host tree that this does no harm: the tree
read back from an image is the one put in exactly then. Trees on one disk have
it (`OneDiskAgrees`); `TwoDisksClash` and `RootIsHit` are about trees without it,
and `ExpectedHome` says what is read of them.

## Model

| member | source | states |
|---|---|---|
| MakeImage.CreateImg | lab8/tools/mksfs.c:544-559 | a whole run ends as the abstract run does; no run, whether it comes to its end or not, searches for an index block, and the assert of `update_cache` never fails; after one that ends well every block below the next free number was written once and none past it, the free map and the superblock agree with the allocator, a reader that starts at inode block 1 finds what `ExpectedHome` says, for every depth, and this is the home directory without names whose first byte is 46 and special files (names up to 252 bytes, bytes, link targets, link counts of directories) if and only if the numbers of the host files agree; then it also tells apart which names are one file. Whether they agree or not, no way through the image, however it goes, meets a name from the third of a directory on that starts with byte 46, the names in every directory are those kept of its listing in order, it has its link count, and its "." and ".." name it and its parent |
| MakeImage.ReadsBack | lab8/tools/mksfs.c:428-559 | for every completed run, the tree read from the bytes of the image is the host tree without dotfiles and special files, under some numbering of its files, if and only if each visible regular file has a host number that is new or was last given to a regular file of the same bytes (0 was given to the root); and then distinct files have distinct numbers |
| MakeImage.BuildFits | lab8/tools/mksfs.c:544-559 | a run comes to its end if and only if names, file sizes, link sizes and directory sizes keep the limits, no directory is met twice, no visible socket is met and the image has the blocks needed; it hands out exactly that many |
| MakeImage.BuildFitsIn | lab8/tools/mksfs.c:223-559 | the same in closed formulas: n blocks suffice for a home directory within the limits if and only if 2, the free map, and for each directory its entries, their index blocks, and the inodes and blocks of what it holds, are at most n; the next free block comes right after them |
| MakeImage.BuildRuns | lab8/tools/mksfs.c:173-542 | in every state of every run, those that end early included, every block has one owner, the blocks in use add up, link counts count names, and no two regular files or directories are for one host number; a run that ends early stands where a step fails that can be tried, or at a node of the tree that is refused in that state: too long a name or link target, a socket, a directory whose number was met |
| MakeImage.BuildSound | lab8/tools/mksfs.c:173-542 | so in the state a completed run ends in |
| MakeImage.BuildShows | lab8/tools/mksfs.c:466-514 | after every completed walk the root directory, and every directory below it, has "." and "..", and an entry for each visible node in order, which leads to a link or directory as it was, and for a regular file to what its number was last given to; a directory is named 2 times, once for each subdirectory, and once for each regular file whose name leads to it |
| MakeImage.BuildLinks | lab8/tools/mksfs.c:428-437 | the link count of every directory of every completed run is 2, one for each subdirectory and one for each regular file whose number was last given to that directory, in 16 bits; so all are 2 and the number of subdirectories if and only if, for every directory, such files are none or a multiple of 65536 |
| MakeImage.RootIsHit | lab8/tools/mksfs.c:452-456 | a file with number 0 fits in an image of six blocks, and its name leads to the root, which ends up with 3 links and no subdirectory |
| MakeImage.NamesComeBack | lab8/tools/mksfs.c:434-434 | all names are read back whole if and only if no visible one is longer than 252 bytes |
| MakeImage.FirstBytesWin | lab8/tools/mksfs.c:452-456 | files are told apart by inode number alone: trees that differ only in the bytes of files whose number was met before, anywhere in them, give the same run, be it completed or not; in at most one of them the numbers agree |
| MakeImage.TwoDisksClash | lab8/tools/mksfs.c:452-456 | two files of one number and different bytes fit in an image of nine blocks, so that runs whose tree does not come back exist |
| SfsNumbers.OneDiskAgrees | lab8/tools/mksfs.c:449-464 | on one disk, where inode numbers tell regular files apart and none is 0, the numbers agree |
| SfsNumbers.AgreeingHitsNone | lab8/tools/mksfs.c:449-457 | where the numbers agree, no file's name leads to a directory |
| MakeImage.InodesLabel | lab8/tools/mksfs.c:449-457 | in a completed run every host file has an inode of its own |
| MakeImage.FreeMapAgrees | lab8/tools/mksfs.c:312-335 | bit b of the free map is set if and only if b was never handed out; the map is long enough, and the bits set are as many as the superblock says |
| MakeImage.WalkHome | lab8/tools/mksfs.c:351-362 | create_sfs and the walk from the root follow the abstract run |
| SfsPlain.VisibleIsPlain | lab8/tools/mksfs.c:475-511 | what the tool takes is the tree without names that start with byte 46 and special files, names cut to 252 bytes; subdirectories are counted alike |
| SfsPlain.NamesRead | lab8/tools/mksfs.c:475-511 | the names read from the third entry of a directory on are those kept of its listing, in order |
| SfsPlain.PlaceNames | lab8/tools/mksfs.c:475-511 | so for every directory of the home directory |
| SfsPlain.WaysMeetNoDot | lab8/tools/mksfs.c:480-482 | no way from the root, through any entries, leads to a directory in which a name from the third on starts with a dot |
| SfsPlain.EntryAtPlace | lab8/tools/mksfs.c:475-511 | each entry from the third on leads to a file, or to a directory that is in the home directory |
| SfsLimits.WalkIsClosed | lab8/tools/mksfs.c:397-437 | what a walk takes entry by entry adds up to the closed formulas: a directory of e entries takes e blocks and 0, 1, or 2 and one for each 1024 begun past 1036 for its index, besides what is in it |
| SfsLimits.LimitsAre | lab8/tools/mksfs.c:397-542 | a run keeps the limits if and only if names have at most 255 bytes, new files at most 134217728, link targets less than 4096, directories at most 32768 entries, no directory is met twice, and no visible socket at all |
| SfsLimits.BlocksFit | lab8/tools/mksfs.c:227-231 | the image has the blocks of 4096 bytes that fit in its file and, below 2^32 of them and the maximum of 524288, not one less; above the maximum it has that |
| SfsLimits.MapIsLeast | lab8/tools/mksfs.c:232-235 | the free map takes the blocks from 2 on, no more than have bits for all blocks |
| SfsBytes.InodeIsWritten | lab8/tools/mksfs.c:134-142 | the fields of an inode are little-endian at bytes 0, 4, 6, 8, 12 to 59, 60 and 64; 1, 2 and 3 stand for file, directory and link |
| SfsBytes.InodeIsRead | lab8/tools/mksfs.c:134-142 | and the reader takes them from there |
| SfsBytes.EntryIsRead | lab8/tools/mksfs.c:168-171 | it takes an entry's inode number from bytes 0 to 3 and its name from byte 4 up to the first NUL |
| SfsBytes.SuperSaysIt | lab8/tools/mksfs.c:151-156 | the superblock starts with the bytes 2a be 8d 2f, the number of blocks, and that of free ones |
| SfsBytes.BlockIsFound | lab8/tools/mksfs.c:397-426 | block k of a file is in a direct slot below 12, in the indirect block below 1036, and else in one of 1024 blocks named in the double-indirect one |
| SfsBytes.BitIsFound | lab8/tools/mksfs.c:319-332 | the bit of block b is bit b mod 8 of byte b / 8 mod 4096 of block 2 + b / 32768 |
| MakeImage.ClosedHolds | lab8/tools/mksfs.c:312-349 | nothing that close_sfs writes is for the same block as anything else: all of it is in the image afterwards |
| Mksfs.Sfs.constructor | lab8/tools/mksfs.c:237-253 | a fresh image has the root inode, empty hash chains and the blocks past the free map unused |
| Mksfs.Sfs.CreateSfs | lab8/tools/mksfs.c:223-254 | an image is refused exactly if its free map leaves no block over; the size is cut to 32 bits of blocks, then to the maximum |
| Mksfs.Sfs.AllocIno | lab8/tools/mksfs.c:173-180 | block numbers are handed out in order, and the unused ones are always the image's blocks less the next number |
| Mksfs.Sfs.AllocCacheBlock | lab8/tools/mksfs.c:182-190 | a fresh index block is all zero, and in the chain of number 0 whatever its own number is |
| Mksfs.Sfs.SearchCacheBlock | lab8/tools/mksfs.c:192-199 | an index block is found if and only if its number happens to hash to the chain of 0 |
| Mksfs.Sfs.UpdateCache | lab8/tools/mksfs.c:382-395 | a slot that is 0 gets a fresh block, one that names the cached block keeps it, and only another one is searched for |
| Mksfs.Sfs.StoreIndirect | lab8/tools/mksfs.c:409-414 | the single-indirect branch writes one word of the file's indirect block and never searches |
| Mksfs.Sfs.UpdateLeaf | lab8/tools/mksfs.c:419-419 | the leaf named in the double-indirect block is taken from the cache, or made and entered there |
| Mksfs.Sfs.ReadyLeaf | lab8/tools/mksfs.c:417-420 | both lookups of the double-indirect branch succeed without a search, or space runs out |
| Mksfs.Sfs.StoreDouble | lab8/tools/mksfs.c:415-422 | the double-indirect branch writes one word of the right leaf and never searches |
| Mksfs.Sfs.AppendBlock | lab8/tools/mksfs.c:397-426 | the file's block map stands for the old list of blocks with one more at its end; no other file's map changes |
| Mksfs.Sfs.AppendDirectBlock | lab8/tools/mksfs.c:406-408 | the direct branch of the same |
| Mksfs.Sfs.AppendIndirectBlock | lab8/tools/mksfs.c:409-414 | the single-indirect branch of the same |
| Mksfs.Sfs.MapIndirect | lab8/tools/mksfs.c:409-414 | its block map, before the record grows |
| Mksfs.Sfs.AppendDoubleBlock | lab8/tools/mksfs.c:415-422 | the double-indirect branch of the same |
| Mksfs.Sfs.MapDouble | lab8/tools/mksfs.c:415-422 | its block map, before the record grows |
| Mksfs.Sfs.Grow | lab8/tools/mksfs.c:423-425 | block count and size of the record grow with the list |
| Mksfs.Sfs.WriteBlock | lab8/tools/mksfs.c:287-300 | a short block is filled up with zeros; one block of the image changes |
| Mksfs.Sfs.WriteFreshBlock | lab8/tools/mksfs.c:433-434 | a block just handed out has not been written before |
| Mksfs.Sfs.WriteEntry | lab8/tools/mksfs.c:428-433 | the entry block is handed out and written before the directory grows |
| Mksfs.Sfs.AddEntry | lab8/tools/mksfs.c:428-437 | one more entry in the directory and one more link to the inode, as the abstract step has it |
| Mksfs.Sfs.CountLink | lab8/tools/mksfs.c:436-436 | the link count is one more, in 16 bits |
| Mksfs.Sfs.AllocCacheInode | lab8/tools/mksfs.c:201-212 | a search for the host number finds the new inode from now on |
| Mksfs.Sfs.SearchCacheInode | lab8/tools/mksfs.c:214-221 | the inode cached last under a host number is found, or none |
| Mksfs.Sfs.OpenFile | lab8/tools/mksfs.c:516-530 | the read loop puts the file's bytes into blocks as the abstract run does |
| Mksfs.Sfs.OpenLink | lab8/tools/mksfs.c:532-542 | a link target takes one block; one of 4096 bytes or more ends the run after that block was handed out |
| Mksfs.Sfs.MakeFile | lab8/tools/mksfs.c:452-455 | a file not seen before gets an inode and its data |
| Mksfs.Sfs.AddFile | lab8/tools/mksfs.c:449-457 | a file seen before only gets another entry |
| Mksfs.Sfs.MakeLink | lab8/tools/mksfs.c:459-463 | a symbolic link gets an inode of its own under every name |
| Mksfs.Sfs.AddLink | lab8/tools/mksfs.c:459-464 | the same with its entry |
| Mksfs.Sfs.MakeDir | lab8/tools/mksfs.c:439-445 | a directory met twice ends the run |
| Mksfs.Sfs.AddDir | lab8/tools/mksfs.c:439-447 | a subdirectory is entered in its parent after it is complete |
| Mksfs.Sfs.AddDots | lab8/tools/mksfs.c:472-473 | "." and ".." come first |
| Mksfs.Sfs.OpenDir | lab8/tools/mksfs.c:466-514 | a directory is walked as the abstract run walks it |
| Mksfs.Sfs.Walk | lab8/tools/mksfs.c:475-512 | the readdir loop, entry by entry |
| Mksfs.Sfs.AddNode | lab8/tools/mksfs.c:480-511 | dotfiles are passed over, and special files that can be opened; a socket ends the run, and so does too long a name, even that of a special file |
| Mksfs.Sfs.FreeMapBlock | lab8/tools/mksfs.c:317-332 | the bits of one free-map block are those of the free blocks in its range |
| Mksfs.Sfs.WriteFreeMap | lab8/tools/mksfs.c:315-334 | the free map takes the blocks from 2 up to the first allocatable one |
| Mksfs.Sfs.FlushBlocks | lab8/tools/mksfs.c:338-342 | the index blocks of a chain are written in its order |
| Mksfs.Sfs.FlushInodes | lab8/tools/mksfs.c:343-347 | the inodes of a chain are written in its order |
| Mksfs.Sfs.FlushTables | lab8/tools/mksfs.c:337-348 | both hash tables are flushed chain by chain |
| Mksfs.Sfs.CloseSfs | lab8/tools/mksfs.c:312-349 | the image is the blocks written before, the free map, the superblock and all that was cached; every block below the next free one was written once |
| SfsBlockMap.LookupIsBlock | lab8/tools/mksfs.c:397-426 | looking up entry k, direct, through the indirect block or through the double-indirect one, gives the k-th block appended, and 0 past the end |
| SfsBlockMap.AppendDirect | lab8/tools/mksfs.c:406-408 | a direct append keeps the block map true to the list |
| SfsBlockMap.AppendIndirect | lab8/tools/mksfs.c:409-414 | so does one through the indirect block, old or new |
| SfsBlockMap.AppendDouble | lab8/tools/mksfs.c:415-422 | so does one through the double-indirect block, whether it, its leaf, both or none are new |
| SfsBlockMap.IndirectIsCached | lab8/tools/mksfs.c:386-394 | a nonzero indirect slot names the block behind l1 |
| SfsBlockMap.DoubleIsCached | lab8/tools/mksfs.c:386-394 | a nonzero double-indirect slot names the block behind l2 |
| SfsBlockMap.LeafIsCached | lab8/tools/mksfs.c:386-394 | a nonzero leaf slot names the block behind l1, and it is 0 exactly where a leaf starts |
| SfsBlockMap.Undisturbed | lab8/tools/mksfs.c:397-426 | appends to one file leave another file's block map as it was |
| SfsLayout.InodeRoundTrip | lab8/tools/mksfs.c:134-142 | an inode is read back from its block |
| SfsLayout.IndexRoundTrip | lab8/tools/mksfs.c:302-305 | so is every word of an index block |
| SfsLayout.EntryRoundTrip | lab8/tools/mksfs.c:428-434 | an entry block gives back the inode number, and the name cut to 252 bytes |
| SfsImage.SuperRoundTrip | lab8/tools/mksfs.c:151-156 | the superblock gives back magic, size and free count |
| SfsImage.MapBitMeansFree | lab8/tools/mksfs.c:319-332 | bit j of free-map block i speaks for block number i * 32768 + j |
| SfsImage.CountIsFree | lab8/tools/mksfs.c:317-334 | counting the set bits of the map counts the free blocks |
| SfsTables.InodeTableAdd | lab8/tools/mksfs.c:209-210 | putting an inode at the head of its chain changes what a search finds for its host number only |
| SfsTables.FlushesAllOnce | lab8/tools/mksfs.c:337-348 | the flush passes every cached index block and inode exactly once |
| SfsTables.CloseFinishes | lab8/tools/mksfs.c:312-349 | with what was written before, each number below the next free one is written exactly once |
| SfsRun.DirRuns | lab8/tools/mksfs.c:466-514 | a walk, whether it comes to its end or not, is a run of three kinds of steps: new inode, data block, entry; where it ends early, a step that can be tried fails, or a node of the listing is refused in that very state |
| SfsAccounting.StepKeeps | lab8/tools/mksfs.c:173-542 | each step keeps ownership, accounting, link counts and entry blocks in order |
| SfsAccounting.RunKeeps | lab8/tools/mksfs.c:173-542 | so does every run |
| SfsAccounting.RunKeepsOneEach | lab8/tools/mksfs.c:439-457 | and so does every run keep one inode for each host number, symbolic links aside |
| SfsAccounting.AppendedPartitions | lab8/tools/mksfs.c:397-434 | data, entry, inode and index blocks stay apart and are together what was handed out |
| SfsAccounting.AppendedOwned | lab8/tools/mksfs.c:397-434 | a data or entry block is one block of one file; the blocks of directories are the entry blocks |
| SfsAccounting.AppendedAccounted | lab8/tools/mksfs.c:173-180 | blocks handed out are the non-root inodes and, for a file of n blocks, n and its index blocks: 0, 1, or 2 and one for each 1024 blocks begun past 1036 |
| SfsAccounting.EntryLinks | lab8/tools/mksfs.c:428-437 | a link count is the number of entry blocks that name the inode, in 16 bits |
| SfsAccounting.IndexGrows | lab8/tools/mksfs.c:406-422 | the closed formula for index blocks and the blocks that appends take agree |
| SfsTree.DataShows | lab8/tools/mksfs.c:516-530 | after open_file byte i of the file is byte i mod 4096 of its block i / 4096 |
| SfsTree.WalkShows | lab8/tools/mksfs.c:466-514 | a walk adds an entry for each visible node, in order, and each leads to what it should: a link or directory to its own inode, a regular file to the inode of what its number was last given to, be it a file of these bytes, a link of this target or the directory of this number; and directories get their links |
| SfsTree.NodeShows | lab8/tools/mksfs.c:480-511 | so for each kind of node |
| SfsTree.DirShows | lab8/tools/mksfs.c:439-447 | so for a subdirectory, with the links it gets while the walk is below it |
| SfsTree.ShowsKept | lab8/tools/mksfs.c:428-514 | what was shown stays, whatever is added later; only links to directories add up |
| SfsTree.AddEntryShows | lab8/tools/mksfs.c:428-437 | an entry block names its inode and holds its name |
| SfsTree.EntryHits | lab8/tools/mksfs.c:428-437 | a link to a directory is one to no other directory of its number, for there is none |
| SfsReader.NodeReads | lab8/tools/mksfs.c:302-310 | what a state shows is what a reader of the bytes finds, if the numbers agree |
| SfsReader.DirReads | lab8/tools/mksfs.c:302-310 | so for directories, from the third entry on |
| SfsReader.NodeMisreads | lab8/tools/mksfs.c:302-310 | if they do not, it finds something else, whatever numbers the files are said to have |
| SfsReader.DirLinks | lab8/tools/mksfs.c:136-142 | the link count that is read of a directory, and exactly when it is 2 and the number of subdirectories |
| SfsReader.DotsRead | lab8/tools/mksfs.c:472-473 | the first two entries that are read of a directory name it and its parent |
| SfsReadBack.HomeReadsAs | lab8/tools/mksfs.c:428-559 | what is read from the image, for every tree and every depth, whether the numbers agree or not: names of a number that was given to a directory lead to that directory, with all it holds and as far as the depth goes |
| SfsReadBack.PlaceFound | lab8/tools/mksfs.c:466-514 | each directory of the tree is found at an inode with its number, below the one of its parent |
| SfsReadBack.DirIsInImage | lab8/tools/mksfs.c:428-437 | and so in the image, with its link count, "." and ".." |
| SfsReader.BlockRead | lab8/tools/mksfs.c:397-426 | the reader's way through index blocks in the image ends at the block appended |
| SfsReader.InodeRead | lab8/tools/mksfs.c:307-310 | the reader finds each inode as it was cached |
| SfsFit.WalkFits | lab8/tools/mksfs.c:466-514 | a walk comes to its end if and only if limits are kept and blocks suffice; it takes the blocks computed |
| SfsFit.DirFits | lab8/tools/mksfs.c:439-447 | so for a subdirectory |
| SfsFit.FileFits | lab8/tools/mksfs.c:449-457 | so for a file, which takes none but its entry's if it was seen before |
| SfsFit.LinkFits | lab8/tools/mksfs.c:459-464 | so for a symbolic link |
| SfsFit.DataFits | lab8/tools/mksfs.c:516-530 | so for the data of a file |
| SfsFit.WalksSame | lab8/tools/mksfs.c:449-457 | a walk does not depend on the bytes of files whose number was met before |
| SfsFit.AgreeingAreSame | lab8/tools/mksfs.c:449-457 | of trees that are taken for the same, the numbers agree in one at most |
| SkewHeap.MergeHeaps | lab8/libs/skew_heap.h:29-59 | the pointers of both heaps are rewritten to the merged tree, parent links matching child links, and the number of calls is as counted |
| SkewHeap.MergeOver | lab8/libs/skew_heap.h:37-47 | the branch in which a is less |
| SkewHeap.MergeUnder | lab8/libs/skew_heap.h:48-58 | the other branch |
| SkewHeap.Merge | lab8/libs/skew_heap.h:29-59 | the merged tree has the entries of both, each once |
| SkewHeap.InitEntry | lab8/libs/skew_heap.h:23-27 | a single entry is a heap |
| SkewHeap.InsertEntry | lab8/libs/skew_heap.h:61-67 | the heap with one more entry, its root without a parent |
| SkewHeap.RemoveEntry | lab8/libs/skew_heap.h:69-85 | any entry, the root or an inner one, is cut out and the rest stays one tree |
| SkewHeap.MergeChildren | lab8/libs/skew_heap.h:73-75 | the children of the entry removed become one tree with its parent |
| SkewHeap.ReplaceChild | lab8/libs/skew_heap.h:77-82 | the replacement hangs where the entry was |
| SkewHeap.RemoveShape | lab8/libs/skew_heap.h:69-85 | removal takes away exactly that entry |
| SkewHeap.MergeOrdered | lab8/libs/skew_heap.h:29-59 | merging heaps gives a heap, for every total preorder |
| SkewHeap.RemoveOrdered | lab8/libs/skew_heap.h:69-85 | so does removing an entry |
| SkewHeap.RootIsLeast | lab8/libs/skew_heap.h:29-59 | no entry of a heap is before its root |
| SkewHeap.LastOfEqualsFirst | lab8/libs/skew_heap.h:37-67 | an inserted entry becomes the root if and only if none is strictly before it |
| SkewHeap.DrainPermutes | lab8/libs/skew_heap.h:69-85 | taking the root away until none is left gives every entry once |
| SkewHeap.DrainSorts | lab8/libs/skew_heap.h:69-85 | and gives them in order |
| SkewHeap.RunKeepsHeap | lab8/libs/skew_heap.h:61-85 | every run of inserts and removals of any entries keeps a heap |
| SkewHeap.MergeCost | lab8/libs/skew_heap.h:29-59 | calls and right-heavy entries after a merge are bounded by the right-heavy ones before, the light entries on both right spines, and those that become heavy |
| SkewHeap.LightSpineIsShort | lab8/libs/skew_heap.h:29-59 | the light entries on a right spine are at most logarithmic |
| SkewHeap.NewHeavyIsSmall | lab8/libs/skew_heap.h:29-59 | so are the entries that become right-heavy |
| SkewHeap.AmortisedMerge | lab8/libs/skew_heap.h:29-59 | a merge of heaps with fewer than 2^(k+1) - 1 entries costs at most 3k + 1, amortised |
| SkewHeap.RemoveCost | lab8/libs/skew_heap.h:69-85 | removing an entry costs the merge of its children, and the entries above that become right-heavy |
| SkewHeap.TippedIsSmall | lab8/libs/skew_heap.h:69-85 | these are at most logarithmic |
| SkewHeap.AmortisedRemove | lab8/libs/skew_heap.h:69-85 | removing any entry of a heap with fewer than 2^(k+1) - 1 entries costs at most 4k + 1, amortised, and 3k + 1 at the root |
| SkewHeap.AmortisedRun | lab8/libs/skew_heap.h:61-85 | n inserts and removals of any entries from empty cost at most n (4 log2(N + 1) + 1) calls, N the largest size, and n (3 log2(N + 1) + 1) if only roots are removed |
| Rand.Generator.Rand | lab8/libs/rand.c:11-16 | the state becomes (25214903917 s + 11) mod 2^48, as multiplier and mask have it, wrapping in 64 bits first; the answer is in [1, 2^31 - 1] and congruent modulo 2^31 - 1 to the state shifted down by 12 bits, plus 1 |
| Rand.Generator.Srand | lab8/libs/rand.c:22-25 | the seed is the state |
| Rand.LowBitsIgnored | lab8/libs/rand.c:14-15 | states that differ in the low 12 bits alone have one answer; states with other high bits have the same one if and only if these are congruent modulo 2^31 - 1 |
| Rand.FirstAnswers | lab8/libs/rand.c:4-15 | from the seed 1 the first two states are 25214903928 and 206026503483683, and the answers 6155983 and 907315447 |
| Rand.AnswersIs | lab8/libs/rand.c:14-15 | each state has one such answer, the one that the period is about |
| Rand.FullPeriod | lab8/libs/rand.c:13-13 | two states of a sequence are equal if and only if their indices agree modulo 2^48 |
| Rand.LowBitsPeriod | lab8/libs/rand.c:13-13 | the low k bits repeat with period exactly 2^k |
| Rand.EveryStateReached | lab8/libs/rand.c:13-13 | every state is reached from every seed |
| Rand.OutputRange | lab8/libs/rand.c:14-15 | the answers are exactly the numbers from 1 to RAND_MAX |
| Rand.AnswersHaveFullPeriod | lab8/libs/rand.c:11-16 | no shorter period shows in the answers |
| DeviceTree.ExtractMemoryInfo | lab2/kern/driver/dtb.c:40-101 | the loop finds what the scan of the blob's big-endian tokens finds; a read past the blob shows as a fault |
| DeviceTree.DtbInit | lab2/kern/driver/dtb.c:107-141 | a blob with another magic number is not scanned; otherwise the scan starts where the header says |
| DeviceTree.TakeToken | lab2/kern/driver/dtb.c:51-99 | one turn of the loop |
| DeviceTree.TakeProp | lab2/kern/driver/dtb.c:72-89 | a property in a memory node that is "reg" and has 16 bytes ends the scan |
| DeviceTree.SwapReadsBigEndian | lab2/kern/driver/dtb.c:29-32 | swapping a word read as little-endian gives the big-endian number |
| DeviceTree.SwapReadsBigEndian64 | lab2/kern/driver/dtb.c:34-37 | so for two words |
| DeviceTree.ScanWithin | lab2/kern/driver/dtb.c:50-100 | a scan that is done inside the structure block never looks past it |
| DeviceTreeBlob.ScanFinds | lab2/kern/driver/dtb.c:40-101 | on the structure block of any tree, with no-ops anywhere, the scan finds what the search of the tree finds, or nothing, and stays inside |
| DeviceTreeBlob.ScanReads | lab2/kern/driver/dtb.c:50-100 | tokens laid out with their padding are taken one by one |
| DeviceTreeBlob.StepIs | lab2/kern/driver/dtb.c:51-99 | each token has the effect it should |
| DeviceTreeBlob.ReadNode | lab2/kern/driver/dtb.c:54-70 | a node's tokens amount to the search of the node |
| DeviceTreeBlob.FindsFirstMemory | lab2/kern/driver/dtb.c:58-85 | the reg of the first node named "memory..." is found if it has one of 16 bytes, and nothing where there is no such node |
| DeviceTreeBlob.FoundIsThere | lab2/kern/driver/dtb.c:50-100 | the search gives the reg of the node at a definite place |
| DeviceTreeBlob.FindsFirstReg | lab2/kern/driver/dtb.c:58-85 | the node whose reg is found is the first memory node that has one, or none where there is none, if and only if no memory node before it has, on its way of first subnodes, the reg of another node first; if one has, what is found is the reg of no memory node |
| DeviceTreeBlob.SubnodeTaken | lab2/kern/driver/dtb.c:59-70 | a tree for which that fails: opening a subnode does not end the memory node |
| DeviceTreeBlob.BlobFinds | lab2/kern/driver/dtb.c:40-141 | so for a whole blob, its blocks at the offsets in its own header: what the program answers is the reg at that place |
| DeviceTreeBytes.TokenSpelled | lab2/kern/driver/dtb.c:21-26 | each token byte for byte: its number, 1, 2, 3, 4 or 9, as four bytes, the first counting most, and names and values filled up to a multiple of four |
| DeviceTreeBytes.BlobSpelled | lab2/kern/driver/dtb.c:8-19 | a blob is that of a tree exactly if it starts with the bytes d0 0d fe ed and has the structure block at the offset in bytes 8 to 11, and its names at that in bytes 12 to 15 |
| DeviceTreeBytes.MagicMatters | lab2/kern/driver/dtb.c:122-127 | in a blob that starts with other bytes nothing is found |
| DeviceTreeBytes.SmallBlobFound | lab2/kern/driver/dtb.c:40-141 | a blob written out in bytes, and the start and size of memory that are found in it |
| Printf.VSnPrintf | lab8/libs/printfmt.c:348-358 | the length of the whole output is returned, the buffer has its first characters, as many as fit, and a NUL, and is unchanged past it; size 0 or no buffer is an error |
| Printf.VPrintFmt | lab8/libs/printfmt.c:136-295 | for every format and arguments the output is what the format stands for, and the loop ends |
| Printf.PutEscape | lab8/libs/printfmt.c:150-293 | an escape is put, or rewound to; the position past its "%" is behind the one before |
| Printf.ReadEscape | lab8/libs/printfmt.c:150-200 | flags, width, precision and length are read up to the conversion character |
| Printf.ReadNumber | lab8/libs/printfmt.c:169-177 | a width in decimal |
| Printf.Rewind | lab8/libs/printfmt.c:288-292 | the default case goes back to just behind the escape's own "%" |
| Printf.PutConversion | lab8/libs/printfmt.c:202-285 | each conversion puts what it should |
| Printf.PutUnsigned | lab8/libs/printfmt.c:254-280 | so for unsigned numbers and pointers |
| Printf.PutDecimal | lab8/libs/printfmt.c:244-252 | so for signed ones |
| Printf.PutString | lab8/libs/printfmt.c:221-242 | a string is cut to the precision and padded to the width, on the left, or on the right after "-" |
| Printf.PutChars | lab8/libs/printfmt.c:231-238 | "#" hides what is not printable |
| Printf.PutError | lab8/libs/printfmt.c:207-219 | an error number is put as its text, or as "error" and the number |
| Printf.PutNum | lab8/libs/printfmt.c:53-69 | the digits and padding of a number |
| Printf.PutPadding | lab8/libs/printfmt.c:63-65 | padding |
| Printf.SprintBuf.constructor | lab8/libs/printfmt.c:349-349 | an empty buffer of size - 1 characters |
| Printf.SprintBuf.Put | lab8/libs/printfmt.c:309-315 | a character is counted, and kept if there is room |
| Printf.SprintBuf.Terminate | lab8/libs/printfmt.c:355-356 | the NUL comes after what was kept |
| Format.DoDiv | lab8/libs/printfmt.c:57-57 | quotient and remainder |
| FormatLaws.Printed | lab8/libs/printfmt.c:53-69 | printnum puts max(width, digits) characters: padding, then the digits |
| FormatLaws.TextSpells | lab8/libs/printfmt.c:53-69 | the digits spell the number |
| FormatLaws.NumberRoundTrip | lab8/libs/string.c:215-271 | what printnum puts in base 8, 10 or 16, padded with blanks or zeros to any width, strtol reads to its end, and as the number modulo 2^64: the number itself if and only if it is below 2^63 |
| FormatLaws.NegativeRoundTrip | lab8/libs/string.c:215-271 | a negative 64-bit number is read back if and only if no blanks got between sign and digits |
| FormatLaws.PointerRoundTrip | lab8/libs/string.c:233-239 | what %p puts is read back in base 16, and in base 0 by its prefix, if and only if no blanks got between prefix and digits |
| FormatLaws.WidthParsed | lab8/libs/printfmt.c:168-195 | a number written out in a format is the width, or the precision after one |
| FormatLaws.StringPadded | lab8/libs/printfmt.c:221-242 | a string comes out whole or cut to the precision, at one end of a field of the width |
| FormatLaws.UnknownEscape | lab8/libs/printfmt.c:287-292 | an escape that is not known comes out verbatim |
| FormatLaws.ErrorFormat | lab8/libs/printfmt.c:213-215 | the text for an unknown error is what the inner format gives |
| FormatLaws.Literal | lab8/libs/printfmt.c:142-147 | what is not in an escape comes out as it is |
| ConversionLaws.PutsAll | lab8/libs/printfmt.c:136-147 | so a format that is one conversion puts what is said of that below |
| ConversionLaws.UnsignedPut | lab8/libs/printfmt.c:254-282 | wherever it stands in a format, with a width or none, zeros or blanks, %o, %u or %x puts its argument modulo 2^32, or modulo 2^64 after "l", in base 8, 10 or 16, small digits and no leading zeros, at the end of the field; strtol reads this to its end as a long keeps the number |
| ConversionLaws.SignedPut | lab8/libs/printfmt.c:244-252 | %d puts the signed 32-bit number of its argument, or after "l" the 64-bit one, "-" first if it is negative; strtol reads it to its end if and only if no blank follows the sign |
| ConversionLaws.PointerPut | lab8/libs/printfmt.c:267-273 | %p puts "0x" and the whole 64-bit word in base 16, and strtol reads what comes after "0x" |
| ConversionLaws.CharPut | lab8/libs/printfmt.c:202-285 | %c puts the character of the low byte, and %% a "%" without taking an argument |
| ConversionLaws.ErrorPut | lab8/libs/printfmt.c:207-219 | %e puts the message of each error number, of either sign, or "error" and the number |
| ConversionLaws.StringPut | lab8/libs/printfmt.c:221-242 | %s puts its string, or "(null)", cut to the precision, at the right end of the width or after "-" at the left one, blanks around it; after "#" with "?" for what is not from " " to "~" |
| ConversionLaws.StarPut | lab8/libs/printfmt.c:179-195 | "*" takes the width from the argument before the number |
| ConversionLaws.UnknownPut | lab8/libs/printfmt.c:287-292 | "%" with any character behind it that is no flag, digit or conversion comes out as it is |
| Strings.StrToL | lab8/libs/string.c:215-271 | for every text and base: past blanks and tabs and a sign, past "0x" in base 16 or 0 and "0" in base 0, which then mean 16 and 8, the digits up to the first character that is none of the base are read in positional notation, letters of either case from 10 on, with the sign, modulo 2^64 |
| Strings.ReadsIs | lab8/libs/string.c:215-271 | no other value and end meet that |
| Strings.PassPrefix | lab8/libs/string.c:233-239 | "0x" and "0" are passed where the base allows |
| Strings.ReadDigits | lab8/libs/string.c:244-265 | the digits of the base, up to the first character that is none |
| Strings.StrNLen | lab8/libs/string.c:33-40 | the length, or the limit if that is less |
| Strings.StrChr | lab8/libs/string.c:154-163 | the first occurrence; none for the NUL itself |
| Strings.MemMove | lab8/libs/string.c:304-323 | the destination ends up as the source was, however they overlap, and nothing else changes |
| Strings.CopyFromEnd | lab8/libs/string.c:311-315 | the loop for a destination inside the source |
| Strings.CopyFromStart | lab8/libs/string.c:316-320 | the loop for the other cases |
| Shell.TakeToken | lab8/user/sh.c:18-47 | one call: the line, *p1, *p2 and the token it leaves |
| Shell.SkipSpaces | lab8/user/sh.c:24-26 | leading whitespace becomes NULs |
| Shell.PassWord | lab8/user/sh.c:37-44 | a word is passed, quotes in it become spaces |
| Shell.LineIsTokenized | lab8/user/sh.c:18-47 | calling until 0 gives the tokens of the line, and then each word reads as a C string equal to what was typed with quotes as spaces; no call touches an earlier word |
| Shell.TakeAll | lab8/user/sh.c:129-192 | calls until 0 leave the line and the tokens that the text has. In the characters of the line: tokens and blanks are all there is of it, blanks become NULs, each symbol token is one of `<`, `|`, `>`, `&` and `;` where it stood, and each word has the characters of the old line with spaces for quotes and a NUL behind; outside of quotes it has no blank, tab, CR, LF or symbol, and one of these ends it, unless the line is over |
| Shell.LineIsCut | lab8/user/sh.c:18-47 | so on the values that the calls compute |
| Shell.SpanQuotes | lab8/user/sh.c:37-43 | a word goes on through whatever is in quotes, and ends at the first break with all quotes closed |
| Shell.TextTakes | lab8/user/sh.c:27-46 | the token a call takes is the next one of the text |
| Shell.CallTakes | lab8/user/sh.c:24-46 | a call changes nothing before where it starts nor after where it ends |

## Left out

- Host calls of the image builder (open, read, readdir, lstat, readlink, chdir, pwrite, malloc): the home directory is a tree, a file its bytes, the image a map of blocks. Errors of these calls, and a file that changes while it is read, are not modelled.
- Pointers of the image builder: `struct cache_inode` and `struct cache_block` are entries of maps reached by block number, and the hash chains are sequences of these numbers, so that aliasing of these records is not modelled; every update is in place in the maps.
- Opening a regular file, a directory or a special file other than a socket always succeeds in the model.
- The check of the image's file name, the argument handling, the path stack for messages and the messages.
- The bytes of the superblock's text field past its NUL, which are not initialised: they are the parameter `info`.
- Mksfs.Sfs.WriteBlock: its assert on the length and the number is a requirement; both are proved at every call.
- Bound on link counts of files: 65536 names of one file wrap the 16-bit count to 0, and the counts are stated modulo 2^16; those of directories are stated exactly.
- Hard links between symbolic links: the tool gives every name its own inode, and so does the model; only regular files are shared.
- SfsReader.NodeReads: the reader takes fuel for the depth of the tree; it is proved for every amount from the tree's height on.
- The kernel's own reader of the file system, of which only headers are there.
- The comparator of the heap is a function on keys; one that changes with time is not modelled.
- The seed of `srand` is any number; it has 32 bits in the program.
- Device-tree blobs that are cut off or malformed: the scan is modelled on them, and gives a fault where the program would read past the blob, but nothing more is proved about them. `dtb_init`'s messages, and its test for a null address, are not modelled.
- Machine-int overflow of widths and precisions in formats, `%e` of the least int, base 1, and arguments that were not passed (they read as 0).
- `strtol` on numbers that overflow wraps here; the C language leaves it open.
- `readline`, `runcmd` and `main` of the shell, and the other string functions.
- Schedulers, page allocators, device access, and the copies of the library files in earlier labs.
