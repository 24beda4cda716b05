/** simplefs as one caller sees it: the operations in their own imperative form, on the mounted volume. */
module SimpleFs {
  import opened Bytes
  import opened Wrappers
  import opened Layout
  import opened Bitmap
  import opened FsState
  import opened FsInvariant
  import opened FsMachine
  import opened FsNamespace
  import opened FsOps

  const ENOTDIR: int := -20

  /** The scan for a free block evaluates `1 << i`. */
  predicate ShiftUsed(free: set<nat>, i: nat)
  {
    FIRST_DATA_BLOCK <= i < MAX_OBJECTS && i <= LowestFree(free, FIRST_DATA_BLOCK)
  }

  /**
   * In C the mask is an `int`, so `1 << i` is defined only up to `i == 30`. The scan keeps to
   * that exactly when some block up to 30 is free.
   */
  lemma ShiftsDefinedIff(free: set<nat>)
    ensures (forall i :: ShiftUsed(free, i) ==> i <= 30) <==> (exists b :: b in free && FIRST_DATA_BLOCK <= b <= 30)
  {
    var r := LowestFree(free, FIRST_DATA_BLOCK);
    if r <= 30 {
      assert r in free;
    } else {
      assert ShiftUsed(free, 31);
    }
  }

  class Volume {
    var inodesCount: nat
    var freeBlocks: nat
    var table: seq<Inode>
    var blocks: seq<Block>
    var core: map<nat, Inode>
    var fault: bool // some access has left its block

    ghost function State(): Fs
      reads this
    {
      Fs(inodesCount, FreeSet(freeBlocks), table, blocks, core, fault)
    }

    /** Mount: the superblock, inode store and blocks as read from the device; the root inode is loaded. */
    constructor (count: nat, free: nat, inodes: seq<Inode>, data: seq<Block>)
      requires 1 <= count < |inodes| && SlotFrom(inodes, 0, count, ROOT_INO) < count
      ensures State() == LoadInode(Fs(count, FreeSet(free), inodes, data, map[], false), ROOT_INO)
      ensures core.Keys == {1} && core[1].no == 1 && core[1] in table[..inodesCount]
    {
      inodesCount, freeBlocks, table, blocks := count, free, inodes, data;
      core, fault := map[], false;
      new;
      var root := GetInode(ROOT_INO);
      core := map[ROOT_INO := root.value];
    }

    /** simplefs_sb_get_a_freeblock */
    method GetFreeBlock() returns (err: int, out: nat)
      modifies this`freeBlocks
      ensures err == (if FreeBlock(old(State())) == MAX_OBJECTS then ENOSPC else 0)
      ensures err == 0 ==> out == FreeBlock(old(State())) && State() == TakeBlock(old(State()))
      ensures err != 0 ==> State() == old(State())
      ensures err == -28 <==> forall b :: 2 <= b < 64 ==> b !in old(State()).free
      ensures err == 0 <==> exists b :: 2 <= b < 64 && b in old(State()).free
      ensures err == 0 ==> 2 <= out < 64 && out in old(State()).free && State().free == old(State()).free - {out}
      ensures err == 0 ==> forall j :: 2 <= j < out ==> j !in old(State()).free
    {
      var i := FIRST_DATA_BLOCK;
      while i < MAX_OBJECTS && !Bit(freeBlocks, i)
        invariant FIRST_DATA_BLOCK <= i <= MAX_OBJECTS
        invariant forall j :: FIRST_DATA_BLOCK <= j < i ==> !Bit(freeBlocks, j)
      {
        i := i + 1;
      }
      ScanFinds(FreeSet(freeBlocks), FIRST_DATA_BLOCK, i);
      if i == MAX_OBJECTS {
        return ENOSPC, 0;
      }
      ClearBit(freeBlocks, i);
      freeBlocks := Clear(freeBlocks, i);
      return 0, i;
    }

    /** simplefs_inode_search, from the start of the inode store; the slot past the last inode is compared too. */
    method InodeSearch(no: nat) returns (slot: nat)
      requires inodesCount < |table|
      ensures slot == SearchSlot(table, inodesCount, no)
    {
      slot := 0;
      while table[slot].no != no && slot < inodesCount
        invariant slot <= inodesCount
        invariant forall i :: 0 <= i < slot ==> table[i].no != no
        decreases inodesCount - slot
      {
        slot := slot + 1;
      }
      if table[slot].no != no {
        slot := inodesCount + 1;
      }
      SlotFound(table, inodesCount + 1, no, slot);
    }

    /** simplefs_get_inode */
    method GetInode(no: nat) returns (r: Option<Inode>)
      requires inodesCount <= |table|
      ensures r == if SlotOf(State(), no) < inodesCount then Some(table[SlotOf(State(), no)]) else None
    {
      var i := 0;
      while i < inodesCount
        invariant i <= inodesCount
        invariant forall k :: 0 <= k < i ==> table[k].no != no
      {
        if table[i].no == no {
          SlotFound(table, inodesCount, no, i);
          return Some(table[i]);
        }
        i := i + 1;
      }
      SlotFound(table, inodesCount, no, i);
      return None;
    }

    /** simplefs_inode_add, together with the new in-core inode becoming known. */
    method InodeAdd(inode: Inode)
      requires inodesCount < |table|
      modifies this`inodesCount, this`table, this`core
      ensures State() == AddInode(old(State()), inode)
    {
      table := table[inodesCount := inode];
      inodesCount := inodesCount + 1;
      core := core[inode.no := inode];
    }

    /** simplefs_inode_save */
    method InodeSave(no: nat) returns (err: int)
      requires inodesCount < |table| && no in core
      modifies this`table
      ensures State() == SaveInode(old(State()), no)
      ensures err == if SaveFinds(old(State()), no) then 0 else -5
    {
      var slot := InodeSearch(no);
      if slot <= inodesCount {
        table := table[slot := core[no]];
        return 0;
      }
      return EIO;
    }

    /** The last part of simplefs_create_fs_object: write the record, count it, save the directory. */
    method AppendRecord(dir: nat, name: Name, no: nat) returns (err: int)
      requires dir in core && core[dir].block < |blocks| && |name| <= VFS_NAME_MAX
      requires inodesCount < |table| && SearchSlot(table, inodesCount, dir) <= inodesCount
      modifies this`blocks, this`core, this`table, this`fault
      ensures err == 0 && State() == LinkInto(old(State()), dir, name, no)
    {
      hide PutRecord, SearchSlot, FreeSet;
      var parent := core[dir];
      if parent.size < RECORDS_PER_BLOCK {
        blocks := blocks[parent.block := PutRecord(blocks[parent.block], parent.size, name, no)];
        fault := fault || |name| >= FILENAME_MAXLEN;
      } else {
        fault := true;
      }
      core := core[dir := parent.(size := parent.size + 1)];
      err := InodeSave(dir);
    }

    /** simplefs_create_fs_object; `noMem` says whether `new_inode` fails. */
    method CreateFsObject(dir: nat, name: Name, mode: Mode, noMem: bool) returns (err: int)
      requires WellFormed(State()) && CanCreate(State(), dir, name)
      modifies this
      ensures err == CreateError(old(State()), mode, noMem)
      ensures err == 0 <==>
        old(inodesCount) < 64 && mode.ftype in {4, 8} && !noMem && exists b :: 2 <= b < 64 && b in old(State()).free
      ensures err != 0 ==> err in {-28, -22, -12} && State() == old(State())
      ensures State() == CreateResult(old(State()), dir, name, mode, noMem)
      ensures WellFormed(State()) <==> err != 0 || CreateFits(old(State()), dir, name)
    {
      CreateErrorIs(State(), mode, noMem);
      hide WellFormed, LinkInto, SearchSlot, FreeSet, FreeBlock, SlotOf;
      CreateKeepsWellFormed(State(), dir, name, mode, noMem);
      CreateFrame(State(), dir, name, mode, noMem);
      var count := inodesCount;
      if count >= MAX_OBJECTS { return ENOSPC; }
      if !IsDir(mode) && !IsReg(mode) { return EINVAL; }
      if noMem { return ENOMEM; }
      var error, block := GetFreeBlock();
      if error < 0 { return error; }
      var inode := Inode(mode, count + START_INO - RESERVED_INODES + 1, block, 0);
      InodeAdd(inode);
      err := AppendRecord(dir, name, inode.no);
    }

    /** simplefs_mkdir; the kernel passes permission bits only. */
    method Mkdir(dir: nat, name: Name, perm: nat, noMem: bool) returns (err: int)
      requires WellFormed(State()) && CanCreate(State(), dir, name)
      modifies this
      ensures err == CreateError(old(State()), Mode(DIR_TYPE, perm), noMem) && err != EINVAL
      ensures State() == CreateResult(old(State()), dir, name, Mode(DIR_TYPE, perm), noMem)
      ensures WellFormed(State()) <==> err != 0 || CreateFits(old(State()), dir, name)
    {
      err := CreateFsObject(dir, name, Mode(DIR_TYPE, perm), noMem);
    }

    /** The copy of simplefs_write. */
    method CopyFromUser(no: nat, data: seq<Byte>, ppos: nat)
      requires no in core && core[no].block < |blocks|
      modifies this`blocks, this`fault
      ensures State() == CopyAll(old(State()), no, ppos, data, 0)
    {
      hide FreeSet;
      var b := core[no].block;
      for i := 0 to |data|
        invariant b < |blocks| && CopyAll(State(), no, ppos, data, i) == CopyAll(old(State()), no, ppos, data, 0)
      {
        if ppos + i < BLOCK_SIZE {
          blocks := blocks[b := blocks[b][ppos + i := data[i]]];
        } else {
          fault := true;
        }
      }
    }

    /** simplefs_write */
    method Write(no: nat, data: seq<Byte>, ppos: nat) returns (ret: int, pos: nat)
      requires WellFormed(State()) && no in core && IsReg(core[no].mode)
      modifies this`blocks, this`core, this`table, this`fault
      ensures ret == |data| && pos == ppos + |data|
      ensures State() == WriteResult(old(State()), no, ppos, data)
      ensures WellFormed(State()) <==> ppos + |data| <= BLOCK_SIZE
    {
      hide WellFormed, SearchSlot, FreeSet, CopyAll;
      WriteKeepsWellFormed(State(), no, ppos, data);
      CopyFrame(State(), no, ppos, data, 0);
      CopyFromUser(no, data, ppos);
      pos := ppos + |data|;
      core := core[no := core[no].(size := pos)];
      fault := fault || pos > BLOCK_SIZE;
      var err := InodeSave(no);
      ret := if err != 0 then err else |data|;
    }

    /** simplefs_read: the data is always taken from the start of the block. */
    method Read(no: nat, len: nat, ppos: nat) returns (data: seq<Byte>, pos: nat)
      requires WellFormed(State()) && no in core && IsReg(core[no].mode)
      ensures data == ReadResult(State(), no, len, ppos) && pos == ppos + |data|
      ensures |data| == if ppos >= core[no].size then 0 else if core[no].size < len then core[no].size else len
      ensures |data| <= 4096 && core[no].block < |blocks| && data == blocks[core[no].block][..|data|]
    {
      InCore(State(), no);
      if ppos >= core[no].size {
        return [], ppos;
      }
      var n := if core[no].size < len then core[no].size else len;
      return blocks[core[no].block][..n], ppos + n;
    }

    /** simplefs_lookup: the inode found is loaded unless it has an in-core copy. */
    method Lookup(dir: nat, name: Name) returns (r: Option<Inode>)
      requires WellFormed(State()) && dir in core && IsDir(core[dir].mode)
      modifies this`core
      ensures WellFormed(State())
      ensures var m := FirstMatch(Entries(old(State()), dir), name);
        if m.None? then r == None && State() == old(State())
        else State() == LoadInode(old(State()), m.value)
             && SlotOf(State(), m.value) < inodesCount && r == Some(table[SlotOf(State(), m.value)])
      ensures var m := FirstMatch(Entries(old(State()), dir), name);
        m.Some? ==>
          && r.Some? && r.value.no == m.value && r.value in table[..inodesCount]
          && core == if m.value in old(core) then old(core) else old(core)[m.value := r.value]
    {
      hide WellFormed, Entries, RecordAt, FreeSet, SlotFrom;
      ghost var fs := State();
      LookupFacts(fs, dir);
      var parent := core[dir];
      var i := 0;
      ghost var es := Entries(fs, dir);
      while i < parent.size
        invariant i <= parent.size && State() == fs
        invariant FirstMatch(es, name) == FirstMatch(es[i..], name)
      {
        var record := RecordAt(blocks[parent.block], i);
        assert es[i..][1..] == es[i + 1..];
        if record.name == name {
          r := GetInode(record.no);
          if record.no !in core {
            core := core[record.no := r.value];
          }
          return;
        }
        i := i + 1;
      }
      return None;
    }

    /**
     * simplefs_iterate: emits each record once, when the directory position is 0, whether or not `dir_emit` accepts it.
     */
    method Iterate(dir: nat, ctxPos: nat, accepts: nat -> bool) returns (err: int, emitted: seq<Emission>, pos: nat)
      requires WellFormed(State()) && dir in core
      ensures ctxPos != 0 ==> err == 0 && emitted == [] && pos == ctxPos
      ensures ctxPos == 0 && !IsDir(core[dir].mode) ==> err == -20 && emitted == [] && pos == ctxPos
      ensures ctxPos == 0 && IsDir(core[dir].mode) ==>
                err == 0 && pos == RECORD_SIZE * |Entries(State(), dir)|
                  && ShowsAccepted(emitted, Entries(State(), dir), accepts)
      ensures ctxPos == 0 && IsDir(core[dir].mode) && (forall j :: 0 <= j < core[dir].size ==> accepts(j)) ==>
                && |emitted| == core[dir].size
                && forall j :: 0 <= j < |emitted| ==> EmittedAs(emitted[j], j, blocks, core[dir])
    {
      hide WellFormed, Entries, ShowsAccepted, EmissionAt, RecordAt, SlotFrom, EmittedAs;
      emitted, pos := [], ctxPos;
      if ctxPos != 0 { return 0, emitted, pos; }
      if !IsDir(core[dir].mode) { return ENOTDIR, emitted, pos; }
      LookupFacts(State(), dir);
      NoneShown(accepts);
      var i := 0;
      while i < core[dir].size
        invariant i <= core[dir].size && pos == RECORD_SIZE * i
        invariant ShowsAccepted(emitted, Entries(State(), dir)[..i], accepts)
        invariant (forall j :: 0 <= j < i ==> accepts(j)) ==>
          |emitted| == i && forall j :: 0 <= j < i ==> EmittedAs(emitted[j], j, blocks, core[dir])
      {
        var e := EmissionAt(blocks[core[dir].block], i);
        AcceptOne(emitted, Entries(State(), dir), i, accepts, blocks[core[dir].block]);
        EmissionPlace(blocks, i, core[dir]);
        if accepts(i) { emitted := emitted + [e]; }
        pos := pos + RECORD_SIZE;
        i := i + 1;
      }
      assert Entries(State(), dir)[..i] == Entries(State(), dir);
      return 0, emitted, pos;
    }
  }

  // ---------- what iterate emits ----------

  /** What `dir_emit` is given: a name of fixed length, with whatever follows the NUL in it, and a number. */
  datatype Emission = Emission(field: seq<Byte>, no: nat)

  function EmissionAt(b: Block, i: nat): Emission
    requires i < RECORDS_PER_BLOCK
  {
    Emission(RecordBytes(b, i)[..FILENAME_MAXLEN], FromLe(RecordBytes(b, i)[FILENAME_MAXLEN..]))
  }

  /** Emission `j` is record `j` of the directory's block as it lies there. */
  predicate EmittedAs(e: Emission, j: nat, blocks: seq<Block>, d: Inode)
  {
    && d.block < |blocks| && j < 16 && e.field == blocks[d.block][256 * j..256 * j + 248]
    && e.no == FromLe(blocks[d.block][256 * j + 248..256 * j + 256])
  }

  lemma EmissionPlace(blocks: seq<Block>, j: nat, d: Inode)
    requires d.block < |blocks| && j < RECORDS_PER_BLOCK
    ensures EmittedAs(EmissionAt(blocks[d.block], j), j, blocks, d)
  {
    assert RecordBytes(blocks[d.block], j)[FILENAME_MAXLEN..] == blocks[d.block][256 * j + 248..256 * j + 256];
  }

  /** The emission shows the record: its number, and its name as far as the field goes. */
  predicate Shows(e: Emission, r: DirRecord)
  {
    && e.no == r.no && |e.field| == FILENAME_MAXLEN
    && CString(e.field) == if |r.name| < FILENAME_MAXLEN then r.name else r.name[..FILENAME_MAXLEN]
  }

  /** The emissions show, in order, the records whose emission was accepted. */
  predicate ShowsAccepted(es: seq<Emission>, rs: seq<DirRecord>, accepts: nat -> bool)
  {
    if rs == [] then es == []
    else
      var n := |rs| - 1;
      if accepts(n) then es != [] && Shows(es[|es| - 1], rs[n]) && ShowsAccepted(es[..|es| - 1], rs[..n], accepts)
      else ShowsAccepted(es, rs[..n], accepts)
  }

  lemma NoneShown(accepts: nat -> bool)
    ensures ShowsAccepted([], [], accepts)
  {
  }

  lemma {:induction false} CStringPrefix(s: seq<Byte>, n: nat)
    requires n <= |s|
    ensures CString(s[..n]) == if |CString(s)| < n then CString(s) else CString(s)[..n]
    decreases n
  {
    if n > 0 && s[0] != 0 {
      CStringPrefix(s[1..], n - 1);
      assert s[..n][1..] == s[1..][..n - 1];
    }
  }

  lemma EmissionShows(b: Block, i: nat)
    requires i < RECORDS_PER_BLOCK
    ensures Shows(EmissionAt(b, i), RecordAt(b, i))
  {
    CStringPrefix(RecordBytes(b, i), FILENAME_MAXLEN);
  }

  lemma AcceptOne(es: seq<Emission>, rs: seq<DirRecord>, i: nat, accepts: nat -> bool, b: Block)
    requires i < |rs| <= RECORDS_PER_BLOCK && rs[i] == RecordAt(b, i) && ShowsAccepted(es, rs[..i], accepts)
    ensures ShowsAccepted(if accepts(i) then es + [EmissionAt(b, i)] else es, rs[..i + 1], accepts)
  {
    EmissionShows(b, i);
    assert rs[..i + 1][..i] == rs[..i];
    assert accepts(i) ==> (es + [EmissionAt(b, i)])[..|es|] == es;
  }

  /** When every emission is accepted, every record is shown, once and in order. */
  lemma {:induction false} AllShown(es: seq<Emission>, rs: seq<DirRecord>, accepts: nat -> bool)
    requires ShowsAccepted(es, rs, accepts) && forall j :: 0 <= j < |rs| ==> accepts(j)
    ensures |es| == |rs| && forall j :: 0 <= j < |rs| ==> Shows(es[j], rs[j])
    decreases |rs|
  {
    if rs != [] {
      AllShown(es[..|es| - 1], rs[..|rs| - 1], accepts);
    }
  }

  // ---------- what a create does ----------

  /**
   * The whole effect of a create that succeeds and fits. The lowest free block is taken; the new inode, numbered eight
   * past its slot and of size 0, is stored, counted and in core; the directory counts one record more, in core and in
   * its slot `p`, which is the name with the new number; nothing else changes.
   */
  lemma CreateEffect(fs: Fs, dir: nat, name: Name, mode: Mode) returns (b: nat, p: nat)
    requires WellFormed(fs) && CreateFits(fs, dir, name) && CreateError(fs, mode, false) == 0
    ensures 2 <= b < 64 && b in fs.free && forall j :: 2 <= j < b ==> j !in fs.free
    ensures p < fs.count < |fs.table| && fs.table[p].no == dir && fs.core[dir].block < |fs.blocks|
    ensures var fs' := CreateResult(fs, dir, name, mode, false); var i := Inode(mode, fs.count + 8, b, 0);
      var d := fs.core[dir].(size := fs.core[dir].size + 1);
      && fs'.free == fs.free - {b} && fs'.count == fs.count + 1 && !fs'.fault
      && fs'.table == fs.table[fs.count := i][p := d] && fs'.core == fs.core[fs.count + 8 := i][dir := d]
      && |fs'.blocks| == |fs.blocks|
      && (forall x :: 0 <= x < |fs.blocks| && x != fs.core[dir].block ==> fs'.blocks[x] == fs.blocks[x])
      && Entries(fs', dir) == Entries(fs, dir) + [DirRecord(name, fs.count + 8)]
  {
    hide WellFormed, PutRecord, EntriesIn;
    CreateFrame(fs, dir, name, mode, false);
    InCore(fs, dir);
    CoreSlot(fs, dir);
    b, p := FreeBlock(fs), SlotOf(fs, dir);
    var fs3 := AddInode(TakeBlock(fs), NewInode(fs, mode));
    SavedIn(fs, fs3, dir, p);
    RecordAppended(fs.blocks[fs.core[dir].block], fs.core[dir].size, name, NewNumber(fs.count));
  }

  lemma SavedIn(fs: Fs, fs3: Fs, dir: nat, p: nat)
    requires fs.count < MAX_OBJECTS && |fs.table| == INODES_PER_BLOCK && p < fs.count && p == SlotOf(fs, dir)
    requires fs3.count == fs.count + 1 && |fs3.table| == |fs.table|
    requires forall k :: 0 <= k < fs.count ==> fs3.table[k] == fs.table[k]
    ensures SearchSlot(fs3.table, fs3.count, dir) == p
  {
  }

  lemma RecordAppended(b: Block, n: nat, name: Name, no: nat)
    requires n < RECORDS_PER_BLOCK && VfsName(name) && |name| < FILENAME_MAXLEN && no < 256
    ensures EntriesIn(PutRecord(b, n, name, no), n + 1) == EntriesIn(b, n) + [DirRecord(name, no)]
  {
    hide PutRecord, EntriesIn;
    Pow256Values();
    PutRecordEntries(b, n, name, no);
    EntriesGrow(PutRecord(b, n, name, no), n);
    PutRecordGet(b, n, name, no);
  }

  // ---------- supporting facts ----------

  lemma {:induction false} ScanFinds(free: set<nat>, lo: nat, i: nat)
    requires lo <= i <= MAX_OBJECTS && (forall j :: lo <= j < i ==> j !in free) && (i < MAX_OBJECTS ==> i in free)
    ensures LowestFree(free, lo) == i
    decreases i - lo
  {
  }

  lemma SlotFound(table: seq<Inode>, n: nat, no: nat, i: nat)
    requires i <= n <= |table| && (forall k :: 0 <= k < i ==> table[k].no != no) && (i < n ==> table[i].no == no)
    ensures SlotFrom(table, 0, n, no) == i
  {
  }

  lemma InCore(fs: Fs, no: nat)
    requires WellFormed(fs) && no in fs.core
    ensures fs.core[no].block < |fs.blocks| && InodeOk(fs.core[no]) && fs.count < |fs.table|
    ensures no != NewNumber(fs.count)
  {
    assert CoreEntryOk(fs, no, {});
  }

  function ReadResult(fs: Fs, no: nat, len: nat, ppos: nat): seq<Byte>
    requires no in fs.core && fs.core[no].block < |fs.blocks| && fs.core[no].size <= BLOCK_SIZE
  {
    if ppos >= fs.core[no].size then []
    else fs.blocks[fs.core[no].block][..if fs.core[no].size < len then fs.core[no].size else len]
  }

  lemma CoreSlot(fs: Fs, no: nat)
    requires WellFormed(fs) && no in fs.core
    ensures fs.count < |fs.table| && SlotOf(fs, no) < fs.count && fs.table[SlotOf(fs, no)] == fs.core[no]
  {
    assert CoreEntryOk(fs, no, {});
  }

  /** The save at the end of a create finds the directory's slot. */
  lemma CreateFrame(fs: Fs, dir: nat, name: Name, mode: Mode, noMem: bool)
    requires WellFormed(fs) && CanCreate(fs, dir, name)
    ensures fs.core[dir].block < |fs.blocks| && fs.count < |fs.table| == INODES_PER_BLOCK && dir != NewNumber(fs.count)
    ensures !fs.fault
    ensures forall t: seq<Inode> :: |t| == |fs.table| && t[..fs.count] == fs.table[..fs.count] && fs.count < MAX_OBJECTS
              ==> SearchSlot(t, fs.count + 1, dir) <= fs.count + 1
  {
    InCore(fs, dir);
    CoreSlot(fs, dir);
    var p := SlotOf(fs, dir);
    forall t: seq<Inode> | |t| == |fs.table| && t[..fs.count] == fs.table[..fs.count] && fs.count < MAX_OBJECTS
      ensures SearchSlot(t, fs.count + 1, dir) <= fs.count + 1
    {
      assert t[p] == t[..fs.count][p];
    }
  }

  lemma {:induction false} CopyKeeps(fs: Fs, no: nat, pos: nat, data: seq<Byte>, done: nat)
    requires done <= |data|
    ensures var fs' := CopyAll(fs, no, pos, data, done);
      fs'.core == fs.core && fs'.table == fs.table && fs'.count == fs.count
    decreases |data| - done
  {
    if done < |data| { CopyKeeps(CopyByte(fs, no, pos + done, data[done]), no, pos, data, done + 1); }
  }

  /** The copy of a write leaves what its save goes by alone, and the save finds its slot. */
  lemma CopyFrame(fs: Fs, no: nat, pos: nat, data: seq<Byte>, done: nat)
    requires WellFormed(fs) && no in fs.core && done <= |data|
    ensures fs.core[no].block < |fs.blocks| && fs.count < |fs.table| && SearchSlot(fs.table, fs.count, no) <= fs.count
    ensures var fs' := CopyAll(fs, no, pos, data, done);
      fs'.core == fs.core && fs'.table == fs.table && fs'.count == fs.count
  {
    InCore(fs, no);
    CoreSlot(fs, no);
    SearchAgreesIff(fs.table, fs.count, no);
    CopyKeeps(fs, no, pos, data, done);
  }

  lemma WriteFrame(fs: Fs, no: nat, pos: nat, data: seq<Byte>)
    requires WellFormed(fs) && WriteFits(fs, no, pos, data)
    ensures fs.core[no].block < |fs.blocks| && fs.count < |fs.table| && SearchSlot(fs.table, fs.count, no) <= fs.count
    ensures CopyAll(fs, no, pos, data, 0)
         == fs.(blocks := fs.blocks[fs.core[no].block := Overwrite(fs.blocks[fs.core[no].block], pos, data)])
  {
    InCore(fs, no);
    CoreSlot(fs, no);
    SearchAgreesIff(fs.table, fs.count, no);
    CopyAllIs(fs, no, pos, data, 0);
    assert data[0..] == data;
  }

  /** Every record of a directory names an inode that has a slot. */
  lemma RecordsResolve(fs: Fs, dir: nat, j: nat)
    requires WellFormed(fs) && dir in fs.core && IsDir(fs.core[dir].mode) && j < fs.core[dir].size
    ensures j < RECORDS_PER_BLOCK && fs.core[dir].block < |fs.blocks| && fs.count < |fs.table|
    ensures SlotOf(fs, RecordAt(fs.blocks[fs.core[dir].block], j).no) < fs.count
  {
    InCore(fs, dir);
    CoreSlot(fs, dir);
    var p := SlotOf(fs, dir);
    var t := TreeOf(fs);
    assert t.kids[p][j] == RecordAt(fs.blocks[fs.core[dir].block], j).no;
    assert Resolves(t, p, j);
    var c :| p < c && Link(t, p, j, c);
    assert fs.table[c].no == t.kids[p][j];
  }

  lemma LookupFacts(fs: Fs, dir: nat)
    requires WellFormed(fs) && dir in fs.core && IsDir(fs.core[dir].mode)
    ensures fs.core[dir].size <= RECORDS_PER_BLOCK && fs.core[dir].block < |fs.blocks| && fs.count < |fs.table|
    ensures forall j :: 0 <= j < fs.core[dir].size ==>
      SlotOf(fs, RecordAt(fs.blocks[fs.core[dir].block], j).no) < fs.count
    ensures |Entries(fs, dir)| == fs.core[dir].size
    ensures forall j :: 0 <= j < fs.core[dir].size ==> Entries(fs, dir)[j] == RecordAt(fs.blocks[fs.core[dir].block], j)
    ensures forall no :: WellFormed(LoadInode(fs, no))
  {
    hide WellFormed;
    InCore(fs, dir);
    forall j | 0 <= j < fs.core[dir].size
      ensures SlotOf(fs, RecordAt(fs.blocks[fs.core[dir].block], j).no) < fs.count
    {
      RecordsResolve(fs, dir, j);
    }
    forall no ensures WellFormed(LoadInode(fs, no)) { LoadKeepsWellFormed(fs, no); }
  }

  lemma LoadKeepsWellFormed(fs: Fs, no: nat)
    requires WellFormed(fs)
    ensures WellFormed(LoadInode(fs, no))
  {
    hide Consistent;
    LoadInodeKeeps(fs, no, {}, {}, {});
  }
}
