# The FAT driver and the DNS reply parser, verified

`drivers/fat.c` is a FAT16/FAT32 filesystem over a block device of 512-byte sectors. It claims
that the order of its sector writes makes it safe against power cuts, keeps two caches of chain
positions, and repairs the volume at mount with a mark-and-sweep over the on-disk tree. This
project models that driver and proves those claims; `drivers/dns.h`, a bounds-checked DNS reply
parser, is modelled beside it.

## How the model is built

* The device is a sequence of sectors. A write takes effect whole and in order. `past` records the
  device after every write since the mount, so a power cut at any point leaves one of the states of
  `past`. Reads fail past the end of the device. A device is `reliable`, which is known when the
  driver is built, or a write may fail at any time and then leaves its sector as it was. What a power
  cut leaves is stated for both kinds; exact free counts, equal FAT copies and the reasons for a
  refusal are stated for reliable devices.
* `FatDriver` (`Driver.dfy`) is the driver: its fields are the C module's static variables and its
  methods change them step by step. `TreeScan` (`Scanner.dfy`) is the state of the mark phase.
* `WF(g, d, m)` says that disk `d` holds a well-formed volume: sound geometry; chains in range,
  linked, ended and disjoint; a file's chain covers its size; entries after an end marker are end
  markers. Of the slots a search gets to - all of a fixed root, the first 256 sectors of a chain -
  live names are unique and `..` leads to the parent. The ghost model `m` names chains, owners,
  entry places and nesting. `ReachedChains` restates it without `m`.
* `Lookup` and `Resolve` read names and paths from the disk alone, through FAT copy 1.
  `EditedTree(g, d0, d1, f, name, node)` says that every path on `d1` resolves as on `d0` with one
  name of folder `f` changed - so every other file in every folder reads as before.

The proofs are layered. Sector arithmetic (`Layout`, `FatTable`) leads to the FAT as a table of
numbers (`Chains`), to the shape of a volume free of disks (`Tree`), to what one sector write does
to a volume (`SectorWrites`, `Commits`, `FatWrites`), and to the operations. The central fact is
`KeepsWF` with `TreeKept`: whatever happens to clusters not in use, the volume stays well-formed
and its tree the same. Everything an operation writes before its one directory write is of that
kind for the old volume, and everything after it for the new one.

Two modules tie the model's own words to numbers. `Format` says where every entry, sector, name and
boot field is, byte by byte, with plain arithmetic; `Readings` says what the operations promise path
by path and FAT entry by FAT entry. `Quot` and `Rem` are integer quotient and remainder
(`Arith.DivMod`).

## What was found

* `fat_mount` takes geometries the driver cannot work with. Its clamp (drivers/fat.c:115-117) bounds
  clusters by the FAT's size, not by the bad mark, so a FAT16 volume may get clusters numbered
  0xFFF8 and up, which chain links read as end marks (`TooManyClusters`). With no reserved sector,
  FAT row 0 is the boot sector (`NoReservedSector`), and the mark phase's cache, which uses sector 0
  as "nothing cached", would answer from a buffer it has not read. `MountSound` gives the exact condition.
* A name whose first byte is 0xE5 is stored, and the operation answers success, but the entry reads
  as deleted: nothing shows and the new clusters are lost until the next recovery. `NameFound` and
  `WriteThenRead` show that this is exactly when a stored name is not found.
* mkdir(".") and mkdir("..") succeed, under the names of eleven and, for "..", ten spaces and a dot,
  but chdir takes "." and ".." for the folder it is in and the one above. `ThereAndBack` says that a
  new folder can be entered by its name if and only if the name is neither of these and does not
  start with 0xE5, and where each leads; `DotFolder` is mkdir("."), chdir("."), chdir("..") ending one
  folder further up than it started.
* A search stops after 256 sectors of a folder, but nothing stops a folder from being longer. A name
  past that point is not found, and storing it makes a second entry of it: `StoredTwice` is a volume
  with such a folder, and `StoredOnce` (with `OneName` in the contracts of mkdir and write) says that
  the names of the whole folder stay unique if and only if no live entry past the searches has the
  name, as is always so in folders of at most 256 sectors (`NothingHidden`). In the same way fat_rmdir
  takes that folder for empty (`LooksEmptyToo`); `RemovedToo` says when it then cuts off more than the
  folder.
* A `fat_mount` that refuses the boot sector of an already mounted driver has by then overwritten the
  variables of the layout (drivers/fat.c:69-86), and `mounted` stays set. `FatMount` states that the
  driver is in order afterwards if and only if the new values are the old ones, `RemountTaken` when a
  sector that names the mounted layout is refused, and `RemountZeros` that an empty sector leaves a
  cluster size of zero to divide by.
* When the last directory write of `write_file` is refused, the new chain is not released
  (drivers/fat.c:577). `StoreFile` states that the disk then stays as it is, and `WriteFile` that a
  refused write to a sector of the folder leaves exactly the prepared chain allocated. The tree is
  still the old one.
* The comment above the recovery says it gives up on a loop (drivers/fat.c:599-601). The code does
  not: a chain that comes back to a marked cluster just ends there (drivers/fat.c:631). `LoopRead` is
  a volume with a looping chain that the recovery reads whole, its marks exact as on any volume whose
  folders share no clusters (`ScanRoot`).
* On a volume where a folder shares a cluster with another chain the recovery can free clusters that
  paths lead to. In `SharedLoses` a file and, after it, a folder start at cluster 5: the scan marks 5
  for the file, takes the folder for visited, and sweeps the cluster of the folder's one file.
* The remembered walk of `dir_get_sector` survives every write while its links come from the table
  (`WalkSame`); `StaleWalk` is a walk through a cluster number past the table, whose link lies in the
  data area and changes under it.
* `fat_read_at` and `fat_write_at` return a 32-bit count as a C int, so counts of 2 GB and more come
  back negative (`FatReadAt`, `FatWriteAt`).

## Model

| member | source | states |
|---|---|---|
| Session.Run | drivers/fat.c:594-601 | After a mount and any sequence of writes, replaces, in-place writes, reads, deletes, mkdirs, rmdirs, chdirs and power cuts, each cut at any state the device has been in since power came on - states of the mount's own recovery included - and followed by a mount, every state the device has been in, the first one included, holds a well-formed volume with the boot sector and top FAT bits it started with; if FSInfo's count was honest and the device is reliable, it is honest at every state |
| Session.PowerCut | drivers/fat.c:594-601 | A cut at any state since power came on, inside the recovery of the last mount too, and the mount after it: every path resolves as in that state at every step of the recovery and after it, and, on a reliable device and within the recovery's limits, nothing is left to recover; the states it went through can be cut at in turn |
| Session.CutDuringWrite | drivers/fat.c:535-583 | The power cut anywhere in a write or replace, the volume mounted again, and that mount and each one after it cut anywhere in its recovery, any number of times: at every state all paths resolve as before the write, or (only if it answered success) all resolve so but for the one name, which is the file with the new content, or nothing if it starts with 0xE5; on a reliable device and within the recovery's limits no cluster is lost once a mount gets to its end |
| Session.WriteThenRead | drivers/fat.c:535-591 | After a write that succeeds under a name that does not start with 0xE5, the read gives exactly the caller's bytes, or as many zero bytes as asked for, and answers their number (less 2^32 from 2 GB on); under a name that starts with 0xE5 it answers -1 |
| Session.ThereAndBack | drivers/fat.c:433-502 | mkdir, chdir into it and chdir(".."), for any name: the new folder is entered if and only if the name does not start with 0xE5 and is neither "." nor ".."; "." stays, ".." goes one folder up; and when the first chdir succeeds the two end where they started if and only if the new folder was entered or they started at the root |
| Session.MkdirThenRmdir | drivers/fat.c:458-533 | On a reliable device rmdir takes away the folder a successful mkdir made, if and only if its name does not start with 0xE5; every path then resolves as before the two, and the same FAT entries are zero |
| Session.DotFolder | drivers/fat.c:433-502 | mkdir(".") below the root succeeds, and chdir(".") and chdir("..") then end in another folder |
| Session.NameFound | drivers/fat.c:280-298 | A stored name is the one a search finds if its first byte is not the deleted mark; if it is, the search finds nothing |
| Session.LostName | drivers/fat.c:569-577 | The one-byte name 0xE5 is a name whose file is never found |
| Driver.FatDriver.WriteFile | drivers/fat.c:535-583 | After success under a name that does not start with 0xE5 the name is a file of exactly the caller's bytes, or of that many zeros; every disk state shows the tree before or the tree with just that name changed to it; success takes ceil(length / cluster bytes) free clusters and, on a reliable device, gives back the old chain; the name is the only one of its folder unless one past the searches has it; on a reliable device it fails if and only if there is no name, the name is a folder's or taken, a new name finds no slot that starts with 0 or 0xE5, or the content is longer than the clusters with zero entries hold, and every FAT entry is then as it was; on any device a refused write to a sector of the folder means failure with exactly the prepared chain left allocated |
| Readings.WriteRead | drivers/fat.c:535-583 | What that says of paths and entries: at each state all paths resolve as before or all as in the edited tree; the new chain has no cluster to spare; an entry is zero afterwards if and only if it is one of the old chain, or was zero and is not of the new one |
| FileData.ContentIsGiven | drivers/fat.c:556-563 | The content a write stores is the caller's bytes, or zeros when it has none |
| Refusals.AsideElsewhere | drivers/fat.c:544-578 | No FAT row and no sector of an unused cluster is a sector of a folder |
| Driver.FatDriver.WriteData | drivers/fat.c:544-565 | The content goes to clusters that were free, on one ended chain; without room for it, releasing that chain restores the whole table |
| Driver.FatDriver.ExtendChain | drivers/fat.c:549-553 | A free cluster joins the end of the new chain, or what is left of the chain can be let go without touching a used cluster |
| Driver.FatDriver.StoreFile | drivers/fat.c:567-579 | The one directory write is the step from the old tree to the new one, and the old chain is freed after it; refused, it leaves the disk as it is, the new chain allocated |
| Driver.FatDriver.Undo | drivers/fat.c:580-582 | Letting the new chain go touches nothing in use |
| Driver.FatDriver.FatDelete | drivers/fat.c:378-403 | On a reliable device succeeds on exactly the named files of the current folder, and the free clusters grow by exactly the file's chain; on any device failure changes nothing and every state shows the file or the tree without it |
| Readings.DeleteRead | drivers/fat.c:378-403 | In paths and entries: at each state all paths resolve as before or all as without the name; afterwards an entry is zero if and only if it was or is one of the chain of the slot found |
| Driver.FatDriver.DropEntry | drivers/fat.c:394-398 | One sector write takes the entry away, and the chain is freed only after that |
| Driver.FatDriver.FatMkdir | drivers/fat.c:458-502 | Every state shows the tree before or the tree with one new folder; its one cluster, taken from the free ones, is a chain of its own and lists only the two dot entries; on a reliable device it succeeds if and only if there is a name, nothing has it, some slot searched starts with 0 or 0xE5, and some FAT entry is zero, and otherwise writes nothing |
| Readings.MkdirRead | drivers/fat.c:458-502 | In paths and entries: at each state all paths resolve as before or all as with the folder, which does not show if its name starts with 0xE5; of the entries that are zero the one of its cluster alone is not afterwards |
| Fresh.NewFolderShows | drivers/fat.c:468-486 | The cluster fat_mkdir made lists no name, and only slots that start with zero or a dot |
| Format.DotBytes | drivers/fat.c:468-481 | The 512 bytes of its first sector: ".", "..", both folders, with its own cluster and its parent's, and zeros |
| Paths.EditUndone | drivers/fat.c:458-533 | A name put into a folder and taken out again leaves what every path led to before, when nothing had the name |
| Driver.FatDriver.NewFolderSectors | drivers/fat.c:468-486 | The new cluster holds dot entries for itself and its parent and is blank otherwise, before any entry shows it |
| Driver.FatDriver.FatRmdir | drivers/fat.c:507-533 | On a reliable device it succeeds if and only if the name is a folder and no slot searched in it, before the first that starts with zero, starts with neither 0xE5 nor a dot; the folder's chain then becomes free, and every state shows the tree with or without the folder |
| Readings.RmdirRead | drivers/fat.c:507-533 | In paths and entries: at each state all paths resolve as before or all as without the name; afterwards an entry is zero if and only if it was or is one of the folder's chain |
| Folders.OnlyDotsBytes | drivers/fat.c:516-527 | With end marks last a listing holds only deleted and dot names if and only if no slot before the first zero byte starts with neither 0xE5 nor a dot |
| Driver.FatDriver.FatChdir | drivers/fat.c:433-456 | Enters exactly the named folders; ".." leads to the folder that holds the current one's entry, and stays at the root |
| Driver.FatDriver.FatReadAt | drivers/fat.c:320-351 | Gives bytes off up to min(off + len, size) of the file, whatever was read before, and answers their number, less 2^32 when that is 2 GB or more, or -1 when there is no file; beyond the folder's search, a read that goes on from the remembered place makes FAT reads only for the clusters in between |
| Ranges.SlicesJoin | drivers/fat.c:320-351 | Adjacent ranged reads put together are one larger read |
| Ranges.ReadShare | drivers/fat.c:340-345 | The part of one sector a ranged read takes is those bytes of the file |
| Driver.FatDriver.FatWriteAt | drivers/fat.c:353-376 | Refuses what is no file and any span past the end; otherwise the file keeps its length, its bytes from off on are the first done bytes of the data, all of them on a reliable device, every other byte and every other name stays, and it answers done, less 2^32 from 2 GB on; the FAT and the size stay; every disk state on the way has some first part of the data in place |
| InPlace.InPlaceShows | drivers/fat.c:361-374 | Sectors written inside one file's chain change that file's content in the tree and nothing else |
| InPlace.PatchedMore | drivers/fat.c:366-370 | A part-written sector keeps its other bytes, and the file its other sectors |
| Driver.FatDriver.FatMount | drivers/fat.c:64-123 | Takes exactly the boot sectors of the stated form. Refusing one, it overwrites the layout variables, and a mounted driver stays in order if and only if they keep their values. Whatever the volume holds, the root folder and data area are not written, a recovery that gives up writes nothing, and when folders are apart every path resolves as before at every state. On a well-formed volume the recovery runs if and only if the cluster count and nesting are within its limits, then (on a reliable device) frees exactly what is used, unreachable and not marked bad; with nothing to recover nothing is written |
| Driver.FatDriver.FatRecover | drivers/fat.c:657-702 | On any disk: runs if and only if the cluster count is within its limit and the scan does not give up, and then its marks are those of MarkScan, only reachable clusters; otherwise it writes nothing. It writes only FSInfo's sector and sectors of real entries in some FAT copy. Marked clusters keep entries and data at every state; on a reliable device an entry afterwards is what it was if it is marked or was 0x0FFFFFF7 (0xFFF7), else zero; sector k of the FAT area equals its row in the first copy; and the free count is exact. When folders are apart the marks are all reachable clusters, every path resolves as before at every state, and a recovery of a recovered disk writes nothing |
| FatWrites.MirroredPlain | drivers/fat.c:159-173 | Copies are equal if and only if each sector reserved + k of the FAT area whose row holds real entries is the sector reserved + (k mod FAT size) |
| Recovery.SweptPlain | drivers/fat.c:673-696 | The swept table in numbers: a marked entry stays, so does 0x0FFFFFF7 (0xFFF7 on FAT16), any other is zero |
| Readings.NamedRead | drivers/fat.c:646-655 | An entry leads on if and only if no slot up to it starts with zero, it starts with no 0xE5, is no volume label and neither "." nor "..", and its cluster is 2 or more |
| Readings.ReachedRead | drivers/fat.c:626-668 | Reached are the root and what an entry of a folder reached leads to, folder by folder |
| Driver.FatDriver.RepairRow | drivers/fat.c:673-696 | A row whose copies agree and that has nothing to sweep is not written; afterwards, on a reliable device, the row is swept and sector reserved + f * FAT size + row equals reserved + row for every copy f; no other sector but FSInfo's has changed |
| Driver.FatDriver.WriteFreeCount | drivers/fat.c:697-701 | On a reliable device FSInfo's count ends exact; it is not written when it already is; of all bytes on the device only 488 to 491 of that sector can change |
| Format.FsinfoBytes | drivers/fat.c:697-701 | An FSInfo sector is a reserved one with both signatures, byte by byte, and an exact count is the number of zero entries, lowest byte first |
| Recovery.SweepRow | drivers/fat.c:680-691 | In one row just the lost entries become zero, with their top four bits kept, and the free clusters are counted |
| Recovery.ZeroEntry | drivers/fat.c:686-687 | Zeroing byte by byte is storing zero with the top four bits kept |
| Recovery.SweptTwice | drivers/fat.c:673-696 | A second sweep with the same marks changes nothing |
| Steady.TreeAgrees | drivers/fat.c:626-655 | On any disk the tree depends on the reachable clusters alone: a disk that agrees on those resolves every path alike |
| Steady.ApartAgrees | drivers/fat.c:631-631 | and its folders are apart if they were |
| Steady.NothingLost | drivers/fat.c:673-696 | After a recovery every cluster is free, marked bad, or part of the tree |
| Scanner.TreeScan.Next | drivers/fat.c:618-622 | The one-sector cache always answers what a plain FAT read answers |
| Scanner.TreeScan.ScanChain | drivers/fat.c:626-644 | Ends on any disk, at a nesting of at most 12, with the marks and the verdict of the recursive function ChainScan; marks only clusters paths lead to; links and listings it has finished lead only to marked clusters |
| Scanner.TreeScan.ScanDirSector | drivers/fat.c:646-655 | Handles all entries of a sector up to the end marker |
| Scanner.TreeScan.ScanRoot | drivers/fat.c:657-668 | The whole mark phase comes to MarkScan; every mark is reachable on any disk; bad only when some chain leaves the table or folders nest too deep; not bad and folders apart: every reachable cluster is marked |
| Inputs.LoopRead | drivers/fat.c:628-643 | A volume with a chain that loops, which the scan reads whole |
| Inputs.SharedLoses | drivers/fat.c:626-655 | A volume on which a file and a later folder share a cluster: a reachable cluster is not marked, and swept |
| Reach.AllMarked | drivers/fat.c:626-655 | Marks closed under links and listings hold every cluster a path leads to |
| Reach.MarksReachable | drivers/fat.c:626-655 | Every mark belongs to a chain some path from the root leads to |
| Reach.VisitStop | drivers/fat.c:628-643 | A walk that stops at a marked cluster has covered its whole chain and listing when folders share no clusters |
| Marking.ReachableUsed | drivers/fat.c:626-655 | On a well-formed volume the reachable clusters are exactly those in use |
| Marking.ReachedChains | drivers/fat.c:597-601 | Chains that paths lead to on a well-formed volume are in range, ended, without repeats, without zero entries and disjoint |
| Marking.WFApart | drivers/fat.c:631-631 | On a well-formed volume no folder's chain shares a cluster with another chain |
| Marking.WFReadable | drivers/fat.c:629-641 | The scan of a well-formed volume is never bad when folders nest less than 12 deep |
| Marking.WFNests | drivers/fat.c:634-634 | and is always bad when one nests deeper |
| Driver.FatDriver.FatEntryRead | drivers/fat.c:133-139 | Decodes the entry in copy 1, and 0xFFFFFFFF where the device ends |
| Format.EntryBytes | drivers/fat.c:133-139 | Entry c is four bytes at 4 (c mod 128) of sector reserved + c / 128, the upper half of the last being the volume's, or two at 2 (c mod 256) of reserved + c / 256 |
| Format.EntryAnywhere | drivers/fat.c:133-139 | The same for any number c, in the table or not, with the 32-bit wraps, and 0xFFFFFFFF past the device |
| Format.LinkTaken | drivers/fat.c:236-239 | A walk ends at a link below 2 or of 0x0FFFFFF8 (0xFFF8) and more |
| Format.ChainLinks | drivers/fat.c:194-200 | A chain is what the entries on disk link, ended by 0x0FFFFFF8 (0xFFF8) or more |
| Format.ModelLinks | drivers/fat.c:594-601 | Every chain of a well-formed volume is one, and is what the disk alone gives from its first cluster |
| Driver.FatDriver.FatEntryWrite | drivers/fat.c:159-173 | Changes one table entry or, when refused, none; after success sector reserved + f * FAT size + row is the same for every copy f, and only these sectors and FSInfo's have changed; nothing else in use changes at any state; outside the table it writes nothing |
| Driver.FatDriver.WriteCopies | drivers/fat.c:169-171 | Copy 1 first: at every state the table is the old or the new one and every other row whose copies agreed still has equal copies; when it succeeds sector reserved + f * FAT size + row holds the new row for every copy f, and no other sector has changed |
| Driver.FatDriver.FsinfoUnknown | drivers/fat.c:145-157 | On a reliable device bytes 488 to 495 of an FSInfo sector are 0xFF, count and next-free hint both unknown, before the first FAT change after a mount; all other bytes on the device stay |
| FatWrites.FsMarkedBytes | drivers/fat.c:151-152 | The sector it writes is the one it read but for those eight bytes |
| Driver.FatDriver.HistoryShows | drivers/fat.c:141-173 | At every state since the mount: top FAT bits and boot sector as mounted; on a reliable device FSInfo honest if it was, and at most one row different between copies if none was |
| Driver.FatDriver.AllocCluster | drivers/fat.c:179-192 | Turns one zero entry into 0x0FFFFFFF (0xFFFF on FAT16), the one met first from the hint up and round; on a reliable device it answers 0 with nothing changed only when no cluster is free |
| Format.NearestMeans | drivers/fat.c:182-188 | and no free cluster is fewer steps from the hint, modulo the number of clusters |
| FatWrites.CandidatesCover | drivers/fat.c:182-183 | From any hint the search looks at every cluster |
| FatWrites.CandidatesDiffer | drivers/fat.c:182-183 | and at none of them twice |
| Driver.FatDriver.ReleaseChain | drivers/fat.c:194-200 | On any table, looping or not, clears in-range clusters the links reach from its argument and nothing else, all of them on a reliable device, and ends |
| Chains.OrbitOfChain | drivers/fat.c:194-200 | On an ended chain those clusters are the chain |
| Driver.FatDriver.DirGetSector | drivers/fat.c:229-244 | Answers what a walk from the first cluster answers, whatever the remembered walk; reads one FAT entry per link not remembered |
| Walks.WalkSame | drivers/fat.c:229-244 | A walk whose links come from the table is the same on any disk with that table |
| Driver.FatDriver.WriteAbove | drivers/fat.c:361-374 | A write to the root folder or data area changes no FAT entry, and leaves the remembered walk right if its links come from the table |
| Inputs.StaleWalk | drivers/fat.c:229-244 | A walk through a number past the table, which a write to a data sector changes |
| Driver.FatDriver.Search | drivers/fat.c:280-298 | On any disk, links that loop included: ends after at most 256 sectors, or the fixed root's, with at most n / sectors per cluster FAT reads for the n sectors read; finds the first live match before the end marker, in the sector it is in |
| Driver.FatDriver.FindEntryIn | drivers/fat.c:280-298 | On any disk: what it finds is a live entry of the name, at the place remembered for the next write, within the same bounds |
| Driver.FatDriver.FindFreeSlot | drivers/fat.c:300-314 | On any disk: the first deleted or unused slot of the sectors searched, within the same bounds |
| Driver.FatDriver.FolderEmpty | drivers/fat.c:516-527 | On any disk: a folder looks empty if and only if no slot before the first that starts with zero starts with neither 0xE5 nor a dot, and the search ends in order; within the same bounds |
| Driver.FatDriver.FindDotDot | drivers/fat.c:442-450 | On any disk: the cluster of the first entry named "..", within the same bounds |
| Scans.ScanIndex | drivers/fat.c:229-244 | On any disk a folder scan has a sector at each index before its end and none there, and its end is within 256 sectors or the fixed root's |
| Scans.ScanIsFolder | drivers/fat.c:229-244 | On a well-formed volume those sectors hold exactly the slots the folder shows |
| Walks.FolderSectorFound | drivers/fat.c:229-244 | In a folder of a well-formed volume every sector is found where the chain has it, and none past its end |
| Hidden.StoredOnce | drivers/fat.c:203-244 | Storing a name no search finds keeps the names of a folder unique if and only if no live entry past the searches has it |
| Inputs.StoredTwice | drivers/fat.c:203-244 | A volume with a folder of 257 sectors in which a name is missed and storing it makes two of it |
| Hidden.NothingHidden | drivers/fat.c:203-244 | Folders of at most 256 sectors and fixed roots hide nothing |
| Hidden.RemovedToo | drivers/fat.c:507-533 | Removing a folder that looks empty cuts off more than its chain if and only if one of its entries, past the searches, leads to a chain |
| Inputs.LooksEmptyToo | drivers/fat.c:507-533 | The same folder looks empty, and holds a file with a chain |
| Folders.ToFatName | drivers/fat.c:247-263 | The base before the first dot and the extension after it, in upper case, cut and padded to 8 and 3 |
| Folders.StoredName | drivers/fat.c:247-263 | Each of the 11 bytes by position, for names with and without a dot: the byte of the name, 97 to 122 less 32, or 0x20 |
| Folders.FindUnique | drivers/fat.c:280-298 | With unique names and trailing end markers a search finds the one entry of the name |
| Format.FoundBytes | drivers/fat.c:280-298 | The slot a search finds, from the bytes: the first of the name that is no volume label, with no zero first byte before it; a name that starts with 0 or 0xE5 is not found |
| Format.FreeBytes | drivers/fat.c:300-314 | The slot for a new entry is the first that starts with 0xE5 or zero |
| Format.DotDotBytes | drivers/fat.c:442-450 | The parent is read from the first slot named "..", whatever its attributes |
| Format.LookupBytes | drivers/fat.c:280-298 | What a name leads to: the slot found, a folder by attribute bit 4, else a file of the slot's size on the chain at its cluster |
| Format.FolderSlot | drivers/fat.c:229-244 | Which sector and bytes each slot of a folder's chain is, for its first 256 sectors |
| Folders.DecodeEncoded | drivers/fat.c:265-276 | A stored entry decodes to its name, attribute, cluster and size |
| Format.EntryStored | drivers/fat.c:265-276 | The 32 bytes stored for an entry by position: name, attributes, cluster in 26, 27, 20 and 21, size in 28 to 31, zeros elsewhere |
| Tree.RemoveEntry | drivers/fat.c:394-398 | Deleting a file's or empty folder's entry leaves a well-formed volume without its chain |
| Tree.InsertEntry | drivers/fat.c:487-498 | Storing a new name in the first free slot, its chain already on the disk, leaves a well-formed volume with that chain |
| Commits.CommitReplace | drivers/fat.c:567-577 | One sector write turns the old file into the new one, in a well-formed volume, for every lookup in every folder |
| Volume.KeepsWF | drivers/fat.c:594-597 | Whatever happens to clusters not in use, the volume stays well-formed |
| Paths.TreeKept | drivers/fat.c:594-597 | and every path resolves as before |
| Paths.TreeChanged | drivers/fat.c:594-597 | One member of one folder changed is one name of the tree changed |
| Atomicity.AtomicCommit | drivers/fat.c:594-597 | Writes that keep the old volume, one commit and writes that keep the new one make an operation atomic |
| FileCommits.Moved | drivers/fat.c:544-578 | Free clusters after a replace: the new chain's taken, the old one's back, the count exact |
| Boot.ReadBoot | drivers/fat.c:64-117 | The 32-bit layout arithmetic gives the geometry of the boot sector in unbounded numbers, and a refused one leaves the stated variables |
| Format.BootTaken | drivers/fat.c:64-86 | Which boot sectors fat_mount takes, from their bytes |
| Format.BootLayout | drivers/fat.c:68-91 | The layout, from the bytes of the boot sector |
| Format.BootClusters | drivers/fat.c:93-117 | The number of clusters: what the sectors left hold, but no more than one FAT has entries for |
| Boot.BootRoom | drivers/fat.c:88-117 | Every cluster has a FAT entry and sectors on the volume, with no 32-bit wrap |
| Boot.MountSound | drivers/fat.c:64-117 | An accepted geometry is sound if and only if there is a reserved sector and no cluster number reaches 0x0FFFFFF7 (0xFFF7) |
| Boot.TooManyClusters | drivers/fat.c:115-117 | An accepted FAT16 boot sector with a cluster whose number reads as an end mark |
| Boot.NoReservedSector | drivers/fat.c:88-88 | An accepted boot sector whose first FAT row is the boot sector |
| Boot.RemountTaken | drivers/fat.c:69-86 | A boot sector that names the mounted layout is refused if and only if its sector size is not 512 or, on FAT32, it counts root entries |
| Boot.RemountZeros | drivers/fat.c:69-86 | A refused sector of zeros leaves a cluster size of zero |
| Layout.ClusterInside | drivers/fat.c:125-127 | Every in-range cluster's sectors lie in the data area, and cluster_to_lba does not wrap |
| Format.ClusterPlace | drivers/fat.c:125-127 | Sector s of cluster c is sector reserved + copies * FAT size + root sectors + (c - 2) * cluster size + s |
| Format.FileByte | drivers/fat.c:335-350 | Each byte of a file, by its sector and place on the device |
| Layout.ClustersApart | drivers/fat.c:125-127 | Different places in the data area are different sectors |
| Layout.EntryPlace | drivers/fat.c:133-139 | Every entry's row lies inside its own FAT copy |
| FatTable.EntryWritten | drivers/fat.c:159-173 | Storing one entry changes just that entry, and no top bits |
| Dns.DnsSkip | drivers/dns.h:7-15 | Goes past a name exactly as the recursive grammar does, reading only below n |
| Dns.DnsAnswer | drivers/dns.h:18-33 | Equals the recursive reference parser on any bytes; -1 for a message of less than 12 bytes or with another id, 0 for one of this id with no answers |
| Dns.AnswersTake | drivers/dns.h:24-31 | An answer section read to its end takes at least 11 bytes of the message per answer |
| Dns.NeverWraps | drivers/dns.h:7-15 | A position cannot wrap in a message of n bytes if and only if n is at least 192 below 4 GB |
| Dns.MessageRead | drivers/dns.h:18-33 | For any reply with one question and any records, it gives the four bytes of the first record of type 1 and length 4, or none if there is no such record |
| Dns.CutReply | drivers/dns.h:7-33 | Any such reply cut anywhere before the end of a record that has no address record before it, the first address record among them, is answered with -1 |
| Dns.ReplyRead | drivers/dns.h:18-33 | One reply of 49 bytes, with an alias before the address and pointers for names, and what its own query and another make of it |

## Left out

- Driver.FatDriver.FatWriteAt: in-place writes promise no crash atomicity and none is stated; a cut leaves some first part of the data written.
- Driver.FatDriver.FatMount: asks for a sound geometry (the condition of MountSound) and a device as long as the volume says; after a failed mount that leaves other values in the layout variables of a mounted driver, no operation is modelled.
- Dns.DnsSkip: messages less than 192 bytes short of 4 GB, the lengths at which a position can wrap (NeverWraps), are excluded.
- Read faults inside the device: a search would answer "not found" for a name that is there, and a write could then store it twice.
- The recovery's completeness on volumes whose folders share clusters: it fails there (SharedLoses), and no exact condition short of running the scan (MarkScan) is given.
- At most one FAT row differing between copies during a recovery that starts with copies that differ.
- kmalloc and its failure, which mounts without the repair; SCAN_MAX_CLUSTERS is a parameter.
- fat_list and its callback, fat_read_file, fat_write_file and fat_replace_file (calls of the modelled functions with fixed arguments), fat_cwd_get, fat_cwd_set and VFS registration.
- Timestamps and reserved entry bytes, which are written as zero and never read.
- drivers/ata.c and drivers/blockdev.c, replaced by the device above.
- Sector buffers are values that are reassigned, not memory edited in place; the caller's read buffer is the returned sequence; the bitmap of the scan is a sequence of booleans, not packed bytes; the scan's one buffer per nesting level is a local value.
- Some C functions are split into several methods along their loops and labels; the parts carry their own contracts.
- worker.js, the row encoders of the web service.
