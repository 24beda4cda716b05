/**
 * The state of a mounted simplefs and the elementary changes its code makes to it.
 *
 * Every change is total: where the C code would leave the block it works in, or a name its field, the change
 * raises `fault`, so that no run is ruled out beforehand.
 */
module FsState {
  import opened Bytes
  import opened Layout

  datatype Fs = Fs(
    count: nat,              // superblock: inodes_count
    free: set<nat>,          // superblock: the bits set in free_blocks
    table: seq<Inode>,       // the inode store block
    blocks: seq<Block>,      // the device, by block number
    core: map<nat, Inode>,   // in-core inodes, by inode number
    fault: bool)             // some access has left its block, or a name its field

  const DEVICE_BLOCKS: nat := 64

  // ---------- scanning the inode table ----------

  /** The first slot in `[k, n)` that holds number `no`, or `n`. */
  function SlotFrom(table: seq<Inode>, k: nat, n: nat, no: nat): (r: nat)
    requires k <= n <= |table|
    ensures k <= r <= n
    ensures r < n ==> table[r].no == no
    ensures forall i :: k <= i < r ==> table[i].no != no
    decreases n - k
  {
    if k == n || table[k].no == no then k else SlotFrom(table, k + 1, n, no)
  }

  function SlotOf(fs: Fs, no: nat): (r: nat)
    requires fs.count <= |fs.table|
    ensures r <= fs.count
    ensures r < fs.count ==> fs.table[r].no == no
    ensures forall i :: 0 <= i < r ==> fs.table[i].no != no
  {
    SlotFrom(fs.table, 0, fs.count, no)
  }

  /** The slot `simplefs_inode_search` returns; `count + 1` stands for NULL. It also looks at the slot past the end. */
  function SearchSlot(table: seq<Inode>, count: nat, no: nat): (r: nat)
    requires count < |table|
    ensures r <= count + 1
    ensures r <= count ==> table[r].no == no
    ensures forall k :: 0 <= k < r && k <= count ==> table[k].no != no
  {
    SlotFrom(table, 0, count + 1, no)
  }

  // ---------- elementary changes ----------

  /** The lowest free block number in `[i, 64)`, or 64. */
  function LowestFree(free: set<nat>, i: nat): (r: nat)
    requires i <= MAX_OBJECTS
    ensures i <= r <= MAX_OBJECTS
    ensures r < MAX_OBJECTS ==> r in free
    ensures forall j :: i <= j < r ==> j !in free
    decreases MAX_OBJECTS - i
  {
    if i == MAX_OBJECTS || i in free then i else LowestFree(free, i + 1)
  }

  function FreeBlock(fs: Fs): nat { LowestFree(fs.free, FIRST_DATA_BLOCK) }

  function TakeBlock(fs: Fs): Fs
  {
    fs.(free := fs.free - {FreeBlock(fs)})
  }

  function StoreInode(fs: Fs, inode: Inode): Fs
  {
    if fs.count < |fs.table| then fs.(table := fs.table[fs.count := inode]) else fs.(fault := true)
  }

  /** `inodes_count++`; from here on the new in-core inode has a slot of its own. */
  function CountInode(fs: Fs, inode: Inode): Fs
  {
    fs.(count := fs.count + 1, core := fs.core[inode.no := inode])
  }

  predicate RecordFits(fs: Fs, dir: nat, name: Name)
  {
    && dir in fs.core
    && fs.core[dir].block < |fs.blocks|
    && fs.core[dir].size < RECORDS_PER_BLOCK
    && |name| <= VFS_NAME_MAX
  }

  /** Write a record just past the directory's current ones. */
  function WriteRecord(fs: Fs, dir: nat, name: Name, no: nat): Fs
  {
    if RecordFits(fs, dir, name) then
      var b := fs.core[dir].block;
      fs.(blocks := fs.blocks[b := PutRecord(fs.blocks[b], fs.core[dir].size, name, no)],
          fault := fs.fault || |name| >= FILENAME_MAXLEN)
    else
      fs.(fault := true)
  }

  /** Assign `file_size` / `dir_children_count` of an in-core inode. */
  function SetSize(fs: Fs, no: nat, size: nat): Fs
  {
    if no in fs.core then fs.(core := fs.core[no := fs.core[no].(size := size)]) else fs.(fault := true)
  }

  /** `simplefs_inode_save` succeeds, as far as the search goes. */
  predicate SaveFinds(fs: Fs, no: nat)
  {
    no in fs.core && fs.count < |fs.table| && SearchSlot(fs.table, fs.count, no) <= fs.count
  }

  function SaveInode(fs: Fs, no: nat): Fs
  {
    if SaveFinds(fs, no) then
      fs.(table := fs.table[SearchSlot(fs.table, fs.count, no) := fs.core[no]])
    else if no in fs.core && fs.count < |fs.table| then fs
    else fs.(fault := true)
  }

  function CopyByte(fs: Fs, no: nat, off: nat, v: Byte): Fs
  {
    if no in fs.core && fs.core[no].block < |fs.blocks| && off < BLOCK_SIZE then
      var b := fs.core[no].block;
      fs.(blocks := fs.blocks[b := fs.blocks[b][off := v]])
    else
      fs.(fault := true)
  }

  /** `simplefs_iget` for an inode that has no in-core copy yet. */
  function LoadInode(fs: Fs, no: nat): Fs
  {
    if fs.count <= |fs.table| && SlotOf(fs, no) < fs.count && no !in fs.core then
      fs.(core := fs.core[no := fs.table[SlotOf(fs, no)]])
    else
      fs
  }

  // ---------- well-formedness ----------

  ghost predicate Shape(fs: Fs)
  {
    |fs.table| == INODES_PER_BLOCK && |fs.blocks| == DEVICE_BLOCKS && 1 <= fs.count < INODES_PER_BLOCK
  }

  ghost predicate NumbersOk(fs: Fs)
    requires Shape(fs)
  {
    && fs.table[0].no == ROOT_INO && IsDir(fs.table[0].mode)
    && (forall k :: 0 <= k < fs.count ==> 1 <= fs.table[k].no <= NewNumber(k))
    && (forall k, l :: 0 <= k < l < fs.count ==> fs.table[k].no != fs.table[l].no)
  }

  /** Every inode owns a data block of its own; `limbo` are blocks taken but not yet in the table. */
  ghost predicate BlocksOk(fs: Fs, limbo: set<nat>)
    requires Shape(fs)
  {
    && (forall k :: 0 <= k < fs.count ==>
          FIRST_DATA_BLOCK <= fs.table[k].block < DEVICE_BLOCKS
          && fs.table[k].block !in fs.free && fs.table[k].block !in limbo)
    && (forall k, l :: 0 <= k < l < fs.count ==> fs.table[k].block != fs.table[l].block)
    && (forall b :: b in limbo ==> FIRST_DATA_BLOCK <= b < DEVICE_BLOCKS && b !in fs.free)
  }

  ghost predicate InodeOk(i: Inode)
  {
    (IsDir(i.mode) && i.size <= RECORDS_PER_BLOCK) || (IsReg(i.mode) && i.size <= BLOCK_SIZE)
  }

  ghost predicate KindsOk(fs: Fs)
    requires Shape(fs)
  {
    forall k :: 0 <= k < fs.count ==> InodeOk(fs.table[k])
  }

  // The tree of directories: the number in each slot, and the numbers its records name.
  datatype Tree = Tree(nos: seq<nat>, kids: seq<seq<nat>>)

  /** The inode numbers in the records of an inode; a regular file has none. */
  ghost function KidsOf(blocks: seq<Block>, i: Inode): (r: seq<nat>)
    requires i.block < |blocks| && InodeOk(i)
    ensures |r| == if IsDir(i.mode) then i.size else 0
  {
    if IsDir(i.mode) then seq(i.size, j requires 0 <= j < i.size => RecordAt(blocks[i.block], j).no) else []
  }

  ghost predicate Readable(fs: Fs)
  {
    fs.count <= |fs.table| && forall k :: 0 <= k < fs.count ==> fs.table[k].block < |fs.blocks| && InodeOk(fs.table[k])
  }

  ghost function TreeOf(fs: Fs): (t: Tree)
    requires Readable(fs)
    ensures |t.nos| == |t.kids| == fs.count
    ensures forall k :: 0 <= k < fs.count ==> t.nos[k] == fs.table[k].no
    ensures forall k :: 0 <= k < fs.count ==> t.kids[k] == KidsOf(fs.blocks, fs.table[k])
  {
    Tree(seq(fs.count, k requires 0 <= k < fs.count => fs.table[k].no),
         seq(fs.count, k requires 0 <= k < fs.count => KidsOf(fs.blocks, fs.table[k])))
  }

  /** Slot `c` is named by record `j` of slot `k`. */
  ghost predicate Link(t: Tree, k: int, j: int, c: int)
  {
    0 <= k < |t.kids| && 0 <= j < |t.kids[k]| && 0 <= c < |t.nos| && t.kids[k][j] == t.nos[c]
  }

  ghost predicate HasRec(t: Tree, c: int)
  {
    exists k, j :: Link(t, k, j, c)
  }

  function Total(kids: seq<seq<nat>>): nat
  {
    if kids == [] then 0 else Total(kids[..|kids| - 1]) + |kids[|kids| - 1]|
  }

  /** Every record names a slot later than its directory's. */
  ghost predicate Resolves(t: Tree, k: int, j: int)
  {
    exists c :: k < c && Link(t, k, j, c)
  }

  /**
   * The directories form a tree: every record names a later slot, no slot is named twice,
   * and every slot but the root's and those in `orphans` is named.
   */
  ghost predicate TreeOk(t: Tree, orphans: set<nat>)
  {
    && |t.nos| == |t.kids|
    && (forall c, d :: 0 <= c < d < |t.nos| ==> t.nos[c] != t.nos[d])
    && (forall k, j :: 0 <= k < |t.kids| && 0 <= j < |t.kids[k]| ==> Resolves(t, k, j))
    && (forall k, j, k', j', c :: Link(t, k, j, c) && Link(t, k', j', c) ==> k == k' && j == j')
    && (forall c :: HasRec(t, c) <==> 1 <= c < |t.nos| && c !in orphans)
    && (forall c :: c in orphans ==> 1 <= c < |t.nos|)
    && Total(t.kids) + |orphans| + 1 == |t.nos|
  }

  /** An in-core inode and its slot agree; only the sizes of those in `dirty` may differ. */
  ghost predicate CoreEntryOk(fs: Fs, no: nat, dirty: set<nat>)
    requires Shape(fs) && no in fs.core
  {
    var k := SlotOf(fs, no);
    && k < fs.count
    && fs.core[no] == fs.table[k].(size := fs.core[no].size)
    && (no !in dirty ==> fs.core[no] == fs.table[k])
  }

  ghost predicate CoreOk(fs: Fs, dirty: set<nat>)
    requires Shape(fs)
  {
    forall no :: no in fs.core ==> CoreEntryOk(fs, no, dirty)
  }

  ghost predicate Flat(fs: Fs, limbo: set<nat>)
    ensures Flat(fs, limbo) ==> Readable(fs)
  {
    Shape(fs) && NumbersOk(fs) && BlocksOk(fs, limbo) && KindsOk(fs)
  }

  /** Consistency while operations are under way, up to the taken blocks, orphans and unsaved inodes named. */
  ghost predicate Consistent(fs: Fs, limbo: set<nat>, orphans: set<nat>, dirty: set<nat>)
  {
    && Flat(fs, limbo)
    && TreeOk(TreeOf(fs), orphans) && CoreOk(fs, dirty)
  }

  /** No operation is under way: a complete image with nothing pending. */
  ghost predicate WellFormed(fs: Fs)
  {
    Consistent(fs, {}, {}, {}) && !fs.fault
  }
}
