# Verified model of five kernel modules

This project models the five modules of the LKM collection that own state or a protocol of their own,
and proves what they keep over every run.

- **simplefs** is a small file system: a superblock with a bitmap of free blocks, an append-only inode
  table in one block, directories held as arrays of 256-byte records, in-core inodes written through to
  the table, and three nested mutexes. `FsState` is the state and its well-formedness. `FsMachine` is any
  number of threads inside create, mkdir and write, one lock operation or one access to shared state at a
  time, one byte at a time for data. `FsInvariant` says what each elementary change keeps, `FsLocking`
  treats locks and progress, `FsSafety` proves the invariant of the machine, `FsTheorems` and
  `FsNamespace` draw the consequences for whole runs. `FsOps` shows that an operation that is left
  undisturbed amounts to one function of the state, `FsLongNames` when that keeps the tree. `FsEffects`
  says when operations take effect in a run, `FsCommute` and `FsWork` which accesses commute and which are
  left to make, `FsAtomic` that creates are atomic in every run, `FsSerial` and `FsLinear` that concurrent
  runs amount to whole operations one after the other, `FsOverlap` which two writes on one file spoil
  that. `FsLookup` is about lookups and listings made while creates go on. `SimpleFs` is the code in its
  own imperative form, proved against the same functions. `FsFiles` is about file contents, `Layout`,
  `Bitmap` and `Bytes` about encodings, `Mkfs` about the image `mkfs` writes.
- **RCU** (`Rcu`): publishing, retiring and reclaiming, with any number of readers and updates, for
  reclaim by callback and for reclaim after waiting.
- **mutex** (`MutexBuffer`): a shared buffer whose copies are made byte by byte under a mutex.
- **block_device** (`BlockDevice`): a RAM disk that serves requests segment by segment.
- **ftrace** (`FtraceHooks`, `FtraceCalls`): installing and removing hooks, and what hooked calls do.

A *well-formed* image (`FsState.WellFormed`) has the root directory, number 1, in slot 0; distinct inode
numbers, that in slot k between 1 and k + 8; directories of at most 16 records and files of at most 4096
bytes; a data block in 2..63 for each inode that no other inode has and that is not marked free; and
directories that form a tree: every inode but the root is named by exactly one record, in a directory
whose slot is earlier. Every in-core inode equals its slot. The flag `fault` is set by any access that
leaves its block, by a name that leaves its field, and by a `file_size` past the block, even if no byte
was written there; no run is excluded. `FsTheorems.FaultIffAsked` says exactly which runs set it.

Properties that do not hold of the code are stated with the exact condition under which they do:
`Layout.RecordKeepsNumberIff` and `FsLongNames.CreateKeepsTreeIff` (long names run over the inode number,
full directories take records), `FsOverlap.TwoWritesSerialIff` (writes on one file mix their bytes),
`FsFiles.ReadsRightIff` (reads ignore the offset), `SimpleFs.ShiftsDefinedIff` (32-bit shifts),
`FsInvariant.SearchAgreesIff` (the search looks one slot too far), `Mkfs.MkfsWellFormedIff` (blocks in
use are marked free), `BlockDevice.InBoundsIff` and `BlockDevice.BugIffPastEnd` (requests past the end),
and `FtraceHooks.RestoredIff`: the comment at `ftrace/ftrace_hook.c:181` promises that all hooks are
removed when one fails, while the code ignores the errors of removal, and clears filters it did not add.

## Model

| member | source | states |
|---|---|---|
| `FsSafety.StepInv` | simplefs/simple.c:315-411 | every step of every thread keeps the whole invariant: consistency up to the one block taken, slot not yet linked and inode not yet saved by the lock holders, and what each thread relies on |
| `FsSafety.RunInv` | simplefs/simple.c:247-411 | the invariant holds after every run, of any number of threads, in any interleaving |
| `FsSafety.InitialInv` | simplefs/simple.c:485-512 | a freshly mounted well-formed image satisfies it |
| `FsSafety.Acts` | simplefs/simple.c:326-405 | whichever step the acting thread takes, the file system stays consistent up to what is then pending, and a save finds its slot |
| `FsSafety.OtherKeeps` | simplefs/simple.c:247-293 | no step of one thread invalidates what another relies on, given the locks they hold |
| `FsSafety.PendingAfter` | simplefs/simple.c:58-79 | blocks taken, slots unlinked and inodes unsaved belong to the holders of the directory and inode locks, before and after every step |
| `FsTheorems.QuietIsWellFormed` | simplefs/simple.c:315-411 | when all operations of a run have ended, the image is a well-formed tree again and no lock is held |
| `FsTheorems.OneRecordEach` | simplefs/simple.c:382-397 | in a well-formed image every inode but the root is named by exactly one record, in an earlier slot, and there are `inodes_count` - 1 records in all |
| `FsTheorems.StoreUsesCurrentCount` | simplefs/simple.c:330-376 | the count a create read is still the count when it stores its inode, and its number and block belong to nobody |
| `FsTheorems.AllocTakesLowest` | simplefs/simple.c:93-103 | in every reachable state, the block a create takes is the lowest of 2..63 that is free, and only that one stops being free; when there is none the create gets -28 and nothing changes |
| `FsTheorems.CreatedNumbers` | simplefs/simple.c:355 | the i-th object created in a run has the number `inodes_count` at its start + i + 8 |
| `FsTheorems.TableIsCreated` | simplefs/simple.c:52-80 | over every run the inode table is the old table, sizes aside, followed by exactly the inodes created, in order |
| `FsTheorems.CreatesNeverCollide` | simplefs/simple.c:326-376 | no two creates of any run get the same inode number or block, and none gets one of an inode already there |
| `FsTheorems.FaultIffUnchecked` | simplefs/simple.c:247-293 | a step raises `fault` exactly when it stores a 17th record, a name of 248 bytes or more, a data byte past 4096, or a file size past 4096, which a write of no bytes at a large offset also does |
| `FsTheorems.FaultIffAsked` | simplefs/simple.c:247-405 | a run raises `fault` exactly when one of its steps asks for one of those |
| `FsTheorems.SavesNeverFail` | simplefs/simple.c:219-245 | no save ends in -EIO in any reachable state |
| `FsTheorems.EveryRunDrains` | simplefs/simple.c:326-405 | from every reachable state all operations under way can be finished within a bound, leaving no lock held |
| `FsLocking.LockOrder` | simplefs/simple.c:58-67 | locks are taken in the order directory-children, inodes-mgmt, superblock |
| `FsLocking.LocksKept` | simplefs/simple.c:326-405 | the mutexes are always held by exactly the threads whose position says so |
| `FsLocking.ChangesAreLocked` | simplefs/simple.c:58-108 | a step changes the count only under all three locks, the bitmap under the directory and superblock locks, the inode table under the inode and superblock locks, in-core inodes under the inode lock |
| `FsLocking.NoDeadlock` | simplefs/simple.c:282-290 | while any operation is under way, some thread can step |
| `FsLocking.RunsEnd` | simplefs/simple.c:247-411 | under every schedule the operations under way take a bounded number of steps in all |
| `FsLocking.Drains` | simplefs/simple.c:326-405 | some schedule brings every operation to its end with no lock held |
| `FsNamespace.EntriesAreAppended` | simplefs/simple.c:382-397 | over every run every directory, in core or not, is its old list of records followed by those that creates counted in it |
| `FsNamespace.CreateResolves` | simplefs/simple.c:382-397 | counting a record makes a free name resolve to the new inode, and changes the resolution of no other name in any directory, in core or not |
| `FsNamespace.ResolvesForever` | simplefs/simple.c:448-468 | a name that resolves goes on resolving to the same inode over every run |
| `FsNamespace.InodeForever` | simplefs/simple.c:162-187 | an inode keeps its slot, mode and block over every run |
| `FsNamespace.LoadBringsIn` | simplefs/simple.c:423-446 | in every reachable state a load gives the inode in a slot its in-core copy, unless it has one, and changes nothing else; then an idle thread can be sent to write it, or to create in it |
| `FsNamespace.FirstMatchIs` | simplefs/simple.c:456-465 | the match of a lookup is the first record with the name in order, and there is none exactly when no record has it |
| `FsNamespace.CreatedIsFoundForever` | simplefs/simple.c:315-411 | after the create of a name that was free, every later lookup in every run finds that inode, with the mode asked for |
| `FsNamespace.StepTouchesOnlyItsTarget` | simplefs/simple.c:247-293 | a step on one inode changes neither slot nor data nor in-core copy of any other, in core or not: writes change no directory and no other file |
| `FsNamespace.RunTouchesOnlyTargets` | simplefs/simple.c:247-411 | over every run an inode that no operation is made on keeps its slot and every byte, whatever is done to the others and whether or not it is loaded |
| `FsNamespace.RunConserves` | simplefs/simple.c:82-109 | over every run, failed creates included, the number of free blocks in 2..63 plus objects plus the block a create has in hand is constant |
| `FsNamespace.AtMost62Objects` | simplefs/simple.c:69-72 | in every reachable state there are at most 62 objects, so the inode table never overflows its block |
| `FsNamespace.ReloadAgrees` | simplefs/simple.c:162-187 | in every reachable state an in-core inode that no save is pending for is what a reload returns |
| `FsSerial.Serializable` | simplefs/simple.c:247-411 | serializability: any run of creates, mkdirs, writes and loads by any number of threads, in which writes that are under way on one file at the same time agree on every offset both cover, ends in exactly the state that the whole operations produce one after the other: all the operations started, each once |
| `FsSerial.RunFollows` | simplefs/simple.c:247-411 | at every moment of such a run, finishing the create and the save under way gives the state that the operations effective so far produce in sequence, with the bytes copied by writes that are not effective yet on top |
| `FsSerial.SizeFollows` | simplefs/simple.c:282-286 | a write takes effect as a whole where it sets the size, whichever writes on the same file are under way, if their bytes agree |
| `FsSerial.CreateFollows` | simplefs/simple.c:315-411 | a create takes effect as a whole where it takes its block, or gives up |
| `FsEffects.SerialIsStarted` | simplefs/simple.c:247-411 | the operations that take effect in a run that ends quiet are, as a multiset, those that were started in it, failed creates included |
| `FsEffects.OnceWithin` | simplefs/simple.c:247-411 | every call that returns takes effect with exactly one event between its start and its return, and returns the error it had then |
| `FsEffects.CallsReturn` | simplefs/simple.c:247-411 | every call that is not under way any more at the end of a run has returned at some moment of it |
| `FsEffects.SameName` | simplefs/simple.c:315-317 | operations count as the same only if they differ in nothing but whether memory was short |
| `FsLinear.RealTimeOrder` | simplefs/simple.c:247-411 | linearizability: a call that has returned before another is made takes effect at an earlier place of the serial order |
| `FsLinear.ErrorIsSerial` | simplefs/simple.c:330-374 | and a create returns the error it would return if it ran alone after the operations before its place in that order |
| `FsLinear.WritesAgreeIff` | simplefs/simple.c:269-275 | the runs serializability is about: a write that starts agrees, on each offset both cover, with every write on that file that has not set the size yet |
| `FsAtomic.CreatesAreAtomic` | simplefs/simple.c:315-411 | without any condition on overlap, a run that ends quiet amounts to its creates and loads, each as a whole, and the single accesses of its writes, one after the other; the creates and loads are those started, each once, and the accesses of each thread are those of its writes, in order |
| `FsCommute.Commute` | simplefs/simple.c:52-80 | an access to one in-core inode commutes with every access to another, with storing and counting a new inode, and with accesses to the same one that concern other bytes, put the same byte there, or another field |
| `FsCommute.MoveAllAhead` | simplefs/simple.c:247-293 | so do whole sequences of accesses |
| `FsCommute.LoadPastAll` | simplefs/simple.c:423-446 | loading an inode commutes with any accesses under way |
| `FsOverlap.TwoWritesSerialIff` | simplefs/simple.c:269-290 | in every run of two given writes on one file the outcome is that of one after the other, if and only if the writes differ at no offset both cover, or at one only and end at the same offset |
| `FsOverlap.HarmlessIsSerial` | simplefs/simple.c:269-290 | one direction: whatever the interleaving, such writes end in one of the two serial outcomes |
| `FsOverlap.OverlappingWritesMix` | simplefs/simple.c:269-275 | from every well-formed image with a file there is a run of two overlapping writes whose result neither order of them produces |
| `FsLookup.WalksAreAtomic` | simplefs/simple.c:448-468 | a lookup that reads the count and the records one at a time, without a lock, at any moments of any run, answers what one of these moments gives, and a listing made in the same way shows the records of one of them; both come to an end |
| `FsLookup.FoundIsThere` | simplefs/simple.c:423-431 | the number such a lookup finds has a slot at every later moment, so that loading it never meets NULL |
| `FsLookup.RecordsResolveNow` | simplefs/simple.c:458-460 | in every reachable state, creates under way included, every record a directory counts in core names an inode that has a slot |
| `FsLongNames.CreateKeepsTreeIff` | simplefs/simple.c:376-397 | faults aside, the image after a create is consistent exactly when the create fails, or there is room in the directory and the name leaves the number in the record as it was |
| `FsInvariant.SearchAgreesIff` | simplefs/simple.c:39-50 | the search that looks one slot too far agrees with the bounded scan unless that slot holds the number and no counted one does |
| `FsInvariant.TakeBlockKeeps` | simplefs/simple.c:82-109 | taking the lowest free block keeps consistency, with that block in limbo |
| `FsInvariant.CountInodeKeeps` | simplefs/simple.c:69-72 | counting a stored inode makes its slot an orphan and takes its block out of limbo, and keeps the rest |
| `FsInvariant.WriteRecordKeeps` | simplefs/simple.c:382-389 | a record written past the counted ones changes no directory |
| `FsInvariant.SaveDirKeeps` | simplefs/simple.c:396-397 | saving the directory that counts the orphan's record completes the tree |
| `FsInvariant.SaveFileKeeps` | simplefs/simple.c:285-286 | saving a file's new size restores agreement and keeps the tree |
| `FsInvariant.CopyByteKeeps` | simplefs/simple.c:269-275 | a data byte written to an open file keeps consistency |
| `FsInvariant.LoadInodeKeeps` | simplefs/simple.c:423-446 | loading an inode keeps consistency |
| `FsInvariant.LoadEffect` | simplefs/simple.c:423-446 | loading puts the one slot with the number in core if it is not there, and otherwise does nothing |
| `FsInvariant.TreeLink` | simplefs/simple.c:382-397 | linking the one orphan from an earlier slot makes a tree |
| `FsState.LowestFree` | simplefs/simple.c:93-95 | the first set bit from 2 on, or 64 when there is none |
| `FsState.SlotFrom` | simplefs/simple.c:176-183 | the first slot with the number, or the end of the range when none has it |
| `FsState.SearchSlot` | simplefs/simple.c:39-50 | the first slot, up to one past the last inode, that holds the number, or the value past it when none does |
| `FsOps.Alone` | simplefs/simple.c:315-411 | a thread that nobody disturbs ends its operation in a run of the machine, with the effect computed for it |
| `FsOps.FinishCreate` | simplefs/simple.c:315-411 | the twenty-odd steps of an undisturbed create, errors included, amount to one function of the state |
| `FsOps.CreateErrorIs` | simplefs/simple.c:336-374 | a create succeeds exactly when there are fewer than 64 objects, the mode is of a directory or file, memory suffices and some block of 2..63 is free; the error is -28, -22, -12 or -28 in the order in which these are found missing |
| `FsOps.FinishWrite` | simplefs/simple.c:247-293 | the byte copies and steps of an undisturbed write amount to one function of the state |
| `FsOps.CopyAllIs` | simplefs/simple.c:269-275 | copying byte by byte is overwriting the stretch at once |
| `FsOps.CreateKeepsWellFormed` | simplefs/simple.c:315-411 | a create the kernel may ask for keeps the image well-formed exactly when it fails, or the directory has room and the name at most 247 bytes |
| `FsOps.WriteKeepsWellFormed` | simplefs/simple.c:247-293 | a write keeps the image well-formed exactly when it ends within 4096 bytes |
| `SimpleFs.Volume.constructor` | simplefs/simple.c:485-512 | mounting reads superblock, table and blocks and loads the root inode |
| `SimpleFs.Volume.GetFreeBlock` | simplefs/simple.c:82-109 | returns the lowest block of 2..63 in the free set and takes exactly it out, or -28 and no change exactly when none of them is free |
| `SimpleFs.Volume.InodeSearch` | simplefs/simple.c:39-50 | the loop returns the slot of the first match, with the comparison one past the end |
| `SimpleFs.Volume.GetInode` | simplefs/simple.c:162-187 | the loop returns the first of the counted inodes with the number, or nothing |
| `SimpleFs.Volume.InodeAdd` | simplefs/simple.c:52-80 | the inode is stored in the slot past the last and counted |
| `SimpleFs.Volume.InodeSave` | simplefs/simple.c:219-245 | the in-core inode replaces its slot, or -EIO when the search fails |
| `SimpleFs.Volume.AppendRecord` | simplefs/simple.c:378-405 | the record is written, or leaves the block, and is counted and saved without error |
| `SimpleFs.Volume.CreateFsObject` | simplefs/simple.c:315-411 | the same effect and error as the machine's undisturbed create; when it succeeds is spelled out; the image stays well-formed exactly when it fails or everything fits |
| `SimpleFs.CreateEffect` | simplefs/simple.c:370-405 | the whole effect of a create that succeeds and fits: lowest free block taken, inode numbered count + 8 of size 0 stored, counted and in core, one record appended to the directory, whose size grows in core and in its slot, and nothing else changed |
| `SimpleFs.Volume.Mkdir` | simplefs/simple.c:413-416 | a create of directory type, which is never refused for its mode |
| `SimpleFs.Volume.Write` | simplefs/simple.c:247-293 | the same effect as the machine's undisturbed write, the length returned and the position advanced; the image stays well-formed exactly when the data ends within the block |
| `SimpleFs.Volume.Read` | simplefs/simple.c:189-217 | nothing at or past the end of the file, else the first min(length, size) bytes of the block; the position advances by that many |
| `SimpleFs.Volume.Lookup` | simplefs/simple.c:448-468 | finds the inode of the first record with the name, which is in core afterwards as its slot has it unless it was before, while nothing else in core changes; or nothing and no change; the image stays well-formed |
| `SimpleFs.Volume.Iterate` | simplefs/simple.c:123-159 | offers each of the directory's records once, in order, from position 0, as a 248-byte name and a number, and shows those that `dir_emit` accepts; refused ones are passed over; when none is, what is shown is the bytes of the records as they lie in the block; -20 for anything else |
| `SimpleFs.AllShown` | simplefs/simple.c:150-155 | when none is refused, what is shown is exactly the directory's list of records |
| `SimpleFs.RecordsResolve` | simplefs/simple.c:458-460 | every record of every in-core directory names an inode that has a slot |
| `SimpleFs.ShiftsDefinedIff` | simplefs/simple.c:93-95 | the scan evaluates only shifts that are defined for a 32-bit int exactly when some block in 2..30 is free |
| `FsFiles.WriteEffect` | simplefs/simple.c:247-293 | a write changes the file's size, in core and in its slot, and the bytes it covers, and nothing else |
| `FsFiles.WritesReadBack` | simplefs/simple.c:189-293 | any contiguous writes from offset 0 of at most 4096 bytes, then a long enough read at 0, return their concatenation |
| `FsFiles.ReaderStops` | simplefs/simple.c:189-217 | a reader that calls read for n bytes, from offset 0, each time where the last one left the position, stops after `file_size` / n, rounded up, non-empty reads |
| `FsFiles.ReadIsReturned` | simplefs/simple.c:197-216 | a read depends only on the file's content, the length and the offset |
| `FsFiles.ReadsRightIff` | simplefs/simple.c:205-208 | reads are right for every content exactly at offset 0, at or past the end, or for length 0 |
| `Layout.PutRecordGet` | simplefs/simple.c:382-385 | a record stored in a block, with a name that fits, is read back |
| `Layout.PutRecordFrame` | simplefs/simple.c:382-385 | no other record of the block changes, whatever the name's length |
| `Layout.RecordPlace` | simplefs/simple.h:18-28 | record i is the 256 bytes from 256 i on, its name up to the NUL, its number in the last eight |
| `Layout.StoredName` | simplefs/simple.c:385 | every name is read back as it was stored, whatever its length |
| `Layout.RecordKeepsNumberIff` | simplefs/simple.c:384-385 | the number stored before the name survives it exactly when the name has at most 247 bytes, or 249 with the number itself as the byte that runs over |
| `Bitmap.ClearBit` | simplefs/simple.c:103 | clearing a bit takes exactly that block out of the free ones |
| `Bitmap.BitIs` | simplefs/simple.c:94 | block i is free exactly when the binary digit of weight 2^i is 1 |
| `Mkfs.InodeRoundTrip` | simplefs/simple.h:30-38 | the 32 bytes of an inode give it back |
| `Mkfs.InodeBytes` | simplefs/simple.h:30-38 | the places of mode, number, block and size in those bytes |
| `Mkfs.SuperBytes` | simplefs/simple.h:41-47 | the places of magic number, block size, count and bitmap in the superblock |
| `Mkfs.OnDevice` | simplefs/mkfs.c:41-53 | block b lies from byte 4096 b on, slot k from byte 4096 + 32 k on; mounting reads count and bitmap at bytes 16 and 24 |
| `Mkfs.PutInodesGet` | simplefs/mkfs.c:41-46 | whatever distinct inodes are written at their numbers, each slot gives back exactly its inode |
| `Mkfs.ScanFindsWritten` | simplefs/simple.c:176-183 | of inodes numbered 1..n that were written, the scan of the mounted table finds each, as it was |
| `Mkfs.PutInodesElsewhere` | simplefs/mkfs.c:41-46 | inode writes stay inside the inode store |
| `Mkfs.PutBlockFrame` | simplefs/mkfs.c:48-53 | a block write stays inside its block |
| `Mkfs.Disk.WriteInode` | simplefs/mkfs.c:41-46 | seek and write put the inode in the slot its number gives it |
| `Mkfs.Disk.WriteBlock` | simplefs/mkfs.c:48-53 | seek and write replace exactly one block |
| `Mkfs.Disk.MakeFs` | simplefs/mkfs.c:114-129 | the seven writes, starting at offset 0, produce the image |
| `Mkfs.MkfsMounts` | simplefs/mkfs.c:59-101 | mounting the image, whatever was on the device, yields three inodes, the root's two records, and all blocks but number 5 free |
| `Mkfs.MkfsContents` | simplefs/mkfs.c:59-101 | the three inodes, the two records and the texts of the two files, byte by byte |
| `Mkfs.MkfsWellFormedIff` | simplefs/mkfs.c:28-39 | with any other bitmap the image is well-formed exactly when the three blocks in use are not marked free |
| `Mkfs.MountedMachine` | simplefs/simple.c:485-512 | such an image is a start for runs of any number of threads, with the root directory to operate on |
| `Mkfs.MkfsImageIsNotWellFormed` | simplefs/mkfs.c:34 | the bitmap mkfs writes marks them free, and the root directory's block is the first that a create takes |
| `Rcu.StepInv` | RCU/simple.c:26-115 | every step keeps the invariant: live objects are the published one, the retired ones and the updater's own; what a reader holds cannot be freed yet |
| `Rcu.RunInv` | RCU/simple.c:26-115 | it holds after every run, of any number of readers and updates, for both kinds of reclaim |
| `Rcu.InitialInv` | RCU/simple.c:117-131 | it holds after init |
| `Rcu.NoUseAfterFree` | RCU/simple.c:31-37 | in every run no reader in its section holds a freed object, none is freed twice, and no access hits a freed one |
| `Rcu.ReaderProtected` | RCU/simple.c:42-47 | retiring, reclaiming and leaving a section never take away what another reader holds |
| `Rcu.ReadsAscend` | RCU/simple.c:57-68 | the values a reader prints over a whole run never decrease |
| `Rcu.PrintsPublished` | RCU/simple.c:31-36 | what a reader prints between locking and unlocking is held by the object that was the published one, with that value already in it, at some moment of the run between that lock and the print |
| `Rcu.PublishedInOrder` | RCU/simple.c:55-69 | the objects published in a run are distinct and hold 0, 1, 2, ... for the pointer, 0, 1000, 1001, ... for the list |
| `Rcu.FreeIffAllHaveLeft` | RCU/simple.c:98-112 | in every run a retired object that has not been freed may be freed exactly when every reader that was in its section at the retirement has left it since |
| `Rcu.ReaderSeesNewest` | RCU/simple.c:31-37 | in every reachable state a reader that is out can go through a section, and prints the newest value |
| `Rcu.UpdaterPublishes` | RCU/simple.c:55-69 | in every reachable state a resting updater can publish its next value in an unused object and retire the old one, whoever is reading |
| `Rcu.NothingLeaks` | RCU/simple.c:55-69 | once readers are out and the updater rests, reclaim can go on until only the published object is left |
| `MutexBuffer.StepInv` | mutex/simple.c:40-66 | every step keeps the tie between the buffer, the holder's copy so far and the log of completed calls |
| `MutexBuffer.Linearizable` | mutex/simple.c:40-66 | in every run the log is an order of its calls, each entry for one `Invoke` and none for two; it is a legal history of an atomic buffer, every return hands its caller the answer to the call that caller made, and calls take effect between being made and returning |
| `MutexBuffer.ReadsLastWritten` | mutex/simple.c:40-66 | in every run each byte a read hands back is that of the last write before it in that order that reaches so far, or the first contents |
| `MutexBuffer.CallReturns` | mutex/simple.c:40-66 | whenever the mutex is free an idle thread can make any call and have it return |
| `MutexBuffer.NoMixedReads` | mutex/poc.c:4-11 | when every write invoked in the run is of a full constant buffer, every return hands out as many bytes as that caller asked for, all equal, and the beginning of the first contents or of one writer's data |
| `MutexBuffer.SharedBuffer.ReadFile` | mutex/simple.c:40-52 | one call hands over what the atomic buffer answers, byte for byte, and the rest of the caller's buffer is untouched |
| `MutexBuffer.SharedBuffer.WriteFile` | mutex/simple.c:54-66 | one call has the effect of the atomic write, byte for byte |
| `BlockDevice.CopyBytes` | block_device/simple.c:86-89 | the copy overwrites exactly the stretch |
| `BlockDevice.Device.constructor` | block_device/simple.c:146-148 | the buffer has as many bytes as the capacity in sectors |
| `BlockDevice.Device.MoveSegment` | block_device/simple.c:74-90 | one segment, clipped to the end of the device, is moved in the right direction and nothing else changes |
| `BlockDevice.Device.DoRequest` | block_device/simple.c:60-98 | the segment loop has the effect of one transfer of min(total length, device size - 512 sector) bytes on the flat array, in either direction |
| `BlockDevice.CapacityExact` | block_device/simple.c:146-148 | no byte is lost between pages and sectors |
| `BlockDevice.ServeRefinesFlatArray` | block_device/simple.c:60-98 | after any sequence of requests byte x is that of the last write that covers it from byte 512 sector on, or of the first contents |
| `BlockDevice.SegmentPlace` | block_device/simple.c:66-95 | byte j of segment i goes to, or comes from, byte 512 sector + the lengths of the segments before + j; past the end nothing moves |
| `BlockDevice.ReadReturnsBytes` | block_device/simple.c:84-90 | a read of n bytes at a sector returns bytes 512 sector to 512 sector + n of the device |
| `BlockDevice.ApartIndependent` | block_device/simple.c:60-98 | requests on disjoint ranges commute, and neither sees the other |
| `BlockDevice.SegmentationIrrelevant` | block_device/simple.c:71-95 | the way transfers are cut into segments changes neither the device nor what any request reads |
| `BlockDevice.WriteReadRoundTrip` | block_device/simple.c:84-90 | what is written is read back |
| `BlockDevice.BugIffPastEnd` | block_device/simple.c:101-124 | bytes stay outstanding, and BUG() is reached, exactly when 512 sector + total length is past the end |
| `BlockDevice.InBoundsIff` | block_device/simple.c:79-82 | with its arithmetic modulo 2^64, for lengths and positions as their types bound them, the clipping keeps every copy in the buffer exactly when the request starts within the device or has no segment |
| `BlockDevice.Clipped` | block_device/simple.c:79-82 | the clipped length is what is left of the device, or, past its end, 2^64 less the distance |
| `FtraceHooks.FirstFailure` | ftrace/ftrace_hook.c:190-194 | the first hook that fails to install, with all before it succeeding |
| `FtraceHooks.FailureIs` | ftrace/ftrace_hook.c:122-155 | all hooks before the first failure have an address and neither call fails for them; the error is -2 for a missing address, else that of setting the filter, else that of registering |
| `FtraceHooks.HookManager.InstallHook` | ftrace/ftrace_hook.c:122-155 | succeeds exactly when the address is not 0 and neither call fails, and sets filter and registration then; otherwise returns -2, the error of setting the filter, or that of registering, leaves the registrations alone and the filter as setting and clearing it left it |
| `FtraceHooks.HookManager.RemoveHook` | ftrace/ftrace_hook.c:161-174 | removes what the kernel lets it remove |
| `FtraceHooks.HookManager.InstallHooks` | ftrace/ftrace_hook.c:185-204 | returns 0 exactly when every hook has an address and neither call fails for it, with all filters and registrations added; otherwise the error of the first for which that is not so, and the registry as the failing hook and the backward removal of the others left it |
| `FtraceHooks.HookManager.Unwind` | ftrace/ftrace_hook.c:198-201 | removing backwards has the effect of removing them all |
| `FtraceHooks.HookManager.RemoveHooks` | ftrace/ftrace_hook.c:211-217 | removing forwards has the same effect |
| `FtraceHooks.UnwindLeaves` | ftrace/ftrace_hook.c:198-203 | a failed installation makes of any registry: what was there, less everything it could remove, whoever had put it there, plus what it had set and could not remove |
| `FtraceHooks.RestoredIff` | ftrace/ftrace_hook.c:185-204 | a failed installation leaves any registry as it was exactly when those of the hooks concerned that ftrace did not know are removed and those it did know are not |
| `FtraceHooks.NewHooksRestoredIff` | ftrace/ftrace_hook.c:185-204 | for hooks ftrace does not know yet: exactly when every removal made goes through |
| `FtraceHooks.KnownHookIsLost` | ftrace/ftrace_hook.c:147-152 | installing a hook again that is installed loses its filter, although every removal goes through |
| `FtraceHooks.InstallRemoveRoundTripIff` | ftrace/ftrace_hook.c:185-217 | installing all and removing all restores any registry exactly when those it did not know are removed and those it did know are not |
| `FtraceCalls.HookingIsTransparent` | ftrace/ftrace_hook.c:102-114 | whatever functions do, their next call depending on the state and on earlier results: in every execution the originals run as they do without the module, with the same arguments, order, nesting, results and final visible state, provided the replacements' own calls would leave that alone on a kernel without hooks |
| `FtraceCalls.HookedCallEnds` | ftrace/ftrace_hook.c:291-307 | conversely, a call that comes to an end without the module comes to the same end with it, provided what the replacements do of their own ends |
| `FtraceCalls.OneExecution` | ftrace/ftrace_hook.c:102-114 | from one state a call has one execution at most, so that the two are each other's counterpart |
| `FtraceCalls.ExecReplays` | ftrace/ftrace_hook.c:102-114 | what an interpreter of calls produces, given enough depth, is an execution |
| `FtraceCalls.ReplayExecs` | ftrace/ftrace_hook.c:102-114 | and every execution is what it produces |
| `FtraceCalls.LoggingIsDiscreet` | ftrace/ftrace_hook.c:238-249 | replacements that only change what nobody sees meet what transparency asks of them |
| `FtraceCalls.AllIsRespected` | ftrace/ftrace_hook.c:102-114 | with the whole state visible, transparency asks nothing of the functions that are called |
| `FtraceCalls.RedirectionIsOrderly` | ftrace/ftrace_hook.c:238-249 | a call is redirected exactly when some registered hook has a filter on its address and the caller is outside the module, with the original directly inside; calls from the module never are, so redirection does not recurse |
| `FtraceCalls.UnhookedIsLeftAlone` | ftrace/ftrace_hook.c:102-114 | in no execution is a function replaced that no registered hook has a filter on |
| `FtraceCalls.OncePerCall` | ftrace/ftrace_hook.c:291-307 | over a whole execution originals of a traced function run once for each replacement, and once for each call of the module's own |
| `FtraceCalls.InstalledTraces` | ftrace/ftrace_hook.c:141-147 | after installation exactly the resolved addresses are traced, besides those traced before and those of filters the hooks already had |
| `FtraceCalls.ExactlyTheHooked` | ftrace/ftrace_hook.c:141-147 | after installation on a kernel without hooks a call is redirected exactly when its address was resolved and the caller is outside, and nothing else is ever replaced |

## Left out

- `MutexBuffer.SharedBuffer.ReadFile`: requires at most 0x100 bytes, which the code does not check; the same holds of `WriteFile` and of the calls in the machine.
- `BlockDevice.Device.DoRequest`: requires the request to start within the device; `InBoundsIff` says what the clipping does otherwise. Segment buffers are distinct whole arrays.
- `FsSerial.Serializable`: takes writes on one file that disagree on an offset and are under way at the same time out of account; for two of them `TwoWritesSerialIff` says exactly which outcomes are serial, and for all runs `CreatesAreAtomic` takes writes access by access. Three or more such writes are not characterised.
- `FsFiles.WriteEffect`: and `WritesReadBack` are about writes that end within the block.
- What happens after `fault` has been set is not modelled, but for the one create of `CreateKeepsTreeIff`; the invariant is claimed as long as `fault` is not set.
- Interrupted lock attempts (-EINTR) and the unbalanced locks they leave: acquisitions succeed once the lock is free.
- Failing block reads, failing copies from and to user space, buffer-head reference counts and slab allocation: a block read is access to an array of blocks. Failure of `new_inode` and the errors of ftrace are parameters.
- The bitmap uses the 64-bit masks that the code intends, not the sign-extended 32-bit shifts; `ShiftsDefinedIff` says when the scan agrees with C.
- The device has all 64 blocks; `simplefs/Makefile:22` makes an image of 16.
- The kernel keeps at most one in-core copy per inode and never evicts one; `simplefs_iget` itself always makes a new one. A new object counts as in core from the moment it is counted, earlier than `d_add`.
- Read takes no lock and is modelled as a whole call only. In concurrent runs a lookup reads the record it compares in one step, which is right because counted records never change.
- Ownership, timestamps, dentries and permission checks. A mode is its type bits and the twelve bits below them.
- The RCU model begins after init and ends before exit: the module starts its threads before it publishes and frees before it stops them. The list is its one element, which is what its updater replaces.
- RCU, mutexes, ftrace, `list_replace_rcu` and `blk_update_request` themselves are represented by what they guarantee.
- The demo without the writer's mutex, and the other user-space programs.
- The variant of the thunk that jumps over the ftrace call, and `duplicate_filename`: a replacement may make any calls of its own before and after the original.
- Module and device registration, and the modules that are thin wrappers around kernel services: pci, netlink, udp_send, netfilter, netdev, notifier, pernet, timers, tasklet, softirq, workqueue, worker, wake_up, umh, char_device, misc_device, ioctl_mmap, proc_fs, sysfs, debugfs, idr, process_list, LSM, EXPORT_SYMBOL.
