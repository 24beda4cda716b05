/** What names that run over the end of their field do to the tree. */
module FsLongNames {
  import opened Layout
  import opened FsState
  import opened FsInvariant
  import opened FsSafety
  import opened FsOps

  /** The inode number stored before the name survives it. */
  predicate NumberKept(name: Name, no: nat)
  {
    |name| < FILENAME_MAXLEN || (|name| == FILENAME_MAXLEN + 1 && name[FILENAME_MAXLEN] == no)
  }

  /** The file system after the new inode has been counted: consistent but for the record that is missing. */
  lemma Added(fs: Fs, mode: Mode, dir: nat)
    requires Consistent(fs, {}, {}, {}) && CreateError(fs, mode, false) == 0 && dir in fs.core
      && IsDir(fs.core[dir].mode)
    ensures Consistent(AddInode(TakeBlock(fs), NewInode(fs, mode)), {}, {fs.count}, {})
  {
    var i := NewInode(fs, mode);
    hide Consistent;
    TakeBlockKeeps(fs, {});
    StoreInodeKeeps(TakeBlock(fs), i, {i.block}, {}, {});
    Stored(fs, i);
    CountInodeKeeps(StoreInode(TakeBlock(fs), i), i, {});
  }

  lemma Stored(fs: Fs, i: Inode)
    requires Consistent(fs, {}, {}, {}) && fs.count < MAX_OBJECTS && i.no == NewNumber(fs.count) && i.size == 0
      && (IsDir(i.mode) || IsReg(i.mode))
    ensures FreshInode(StoreInode(TakeBlock(fs), i), i)
  {
  }

  /** The directory in it: clean, in an earlier slot, and not the new inode. */
  lemma DirThere(fs: Fs, mode: Mode, dir: nat)
    requires Consistent(fs, {}, {}, {}) && CreateError(fs, mode, false) == 0 && dir in fs.core
      && IsDir(fs.core[dir].mode)
    ensures var fs3 := AddInode(TakeBlock(fs), NewInode(fs, mode));
      && CleanDir(fs3, dir) && fs3.core[dir] == fs.core[dir] && SlotOf(fs3, dir) < fs.count < fs3.count
        && fs.core[dir].block < |fs3.blocks|
      && fs3.table[fs.count].no == NewNumber(fs.count) < 256 && fs.core[dir].size <= RECORDS_PER_BLOCK
  {
    hide Flat, CoreOk, SlotFrom;
    Basics(fs, {}, {}, {});
    CleanSlot(fs, dir, {});
    CoreIsOld(fs, dir, {}, {});
    var fs3 := AddInode(TakeBlock(fs), NewInode(fs, mode));
    SlotThere(fs, fs3, dir);
    DirKind(fs, dir);
  }

  lemma SlotThere(fs: Fs, fs3: Fs, dir: nat)
    requires Shape(fs) && SlotOf(fs, dir) < fs.count && fs3.count == fs.count + 1 <= |fs3.table|
    requires forall k :: 0 <= k < fs.count ==> fs3.table[k] == fs.table[k]
    ensures SlotOf(fs3, dir) == SlotOf(fs, dir)
  {
  }

  lemma DirKind(fs: Fs, dir: nat)
    requires Flat(fs, {}) && CoreOk(fs, {}) && dir in fs.core && IsDir(fs.core[dir].mode)
    ensures fs.core[dir].size <= RECORDS_PER_BLOCK
  {
    assert CoreEntryOk(fs, dir, {});
  }

  // ---------- with room in the directory ----------

  /** The record is written and counted, whatever number it has come to hold. */
  lemma Counted(fs: Fs, dir: nat, name: Name, no: nat, c: nat)
    requires Consistent(fs, {}, {c}, {}) && CleanDir(fs, dir) && SlotOf(fs, dir) < c < fs.count
      && RecordFits(fs, dir, name)
    ensures var fs5 := SetSize(WriteRecord(fs, dir, name, no), dir, fs.core[dir].size + 1);
      && Consistent(fs5, {}, {c}, {dir}) && GrownDir(fs5, dir, c) && fs5.table == fs.table && fs5.count == fs.count
      && fs5.core[dir] == fs.core[dir].(size := fs.core[dir].size + 1)
      && fs5.blocks[fs.core[dir].block] == PutRecord(fs.blocks[fs.core[dir].block], fs.core[dir].size, name, no)
  {
    hide Consistent, PutRecord, SlotFrom;
    WriteRecordKeeps(fs, dir, name, no, {}, {c}, {});
    SetSizeKeeps(WriteRecord(fs, dir, name, no), dir, fs.core[dir].size + 1, {}, {c});
  }

  /** The slot of the new inode is named by nothing if the new record does not name it. */
  lemma StaysOrphan(t: Tree, p: nat, c: nat, n: nat)
    requires TreeOk(t, {c}) && p < c < |t.nos| && n != t.nos[c]
    ensures !TreeOk(t.(kids := t.kids[p := t.kids[p] + [n]]), {})
  {
    var t' := t.(kids := t.kids[p := t.kids[p] + [n]]);
    forall k, j ensures !Link(t', k, j, c) {
      assert !HasRec(t, c);
      assert Link(t', k, j, c) ==> Link(t, k, j, c);
    }
    assert !HasRec(t', c);
  }

  lemma SavedLater(fs: Fs, dir: nat, c: nat)
    requires Consistent(fs, {}, {c}, {dir}) && GrownDir(fs, dir, c)
    ensures Consistent(SaveInode(fs, dir), {}, {}, {})
       <==> RecordAt(fs.blocks[fs.core[dir].block], fs.core[dir].size - 1).no == fs.table[c].no
  {
    if RecordAt(fs.blocks[fs.core[dir].block], fs.core[dir].size - 1).no == fs.table[c].no {
      hide Consistent;
      SaveDirKeeps(fs, dir, c);
    } else {
      SaveFlat(fs, dir, {});
      SaveDirTree(fs, dir, c);
      hide Flat, CoreOk, TreeOk, SaveInode;
      StaysOrphan(TreeOf(fs), SlotOf(fs, dir), c, RecordAt(fs.blocks[fs.core[dir].block], fs.core[dir].size - 1).no);
    }
  }

  lemma WithRoom(fs: Fs, dir: nat, name: Name, no: nat, c: nat)
    requires Consistent(fs, {}, {c}, {}) && CleanDir(fs, dir) && SlotOf(fs, dir) < c < fs.count
      && RecordFits(fs, dir, name)
    requires VfsName(name) && fs.table[c].no == no && 1 <= no < 256
    ensures Consistent(LinkInto(fs, dir, name, no), {}, {}, {}) <==> NumberKept(name, no)
  {
    hide Consistent, PutRecord, GrownDir, SaveInode, RecordAt;
    Counted(fs, dir, name, no, c);
    var fs5 := SetSize(WriteRecord(fs, dir, name, no), dir, fs.core[dir].size + 1);
    SavedLater(fs5, dir, c);
    RecordKeepsNumberIff(fs.blocks[fs.core[dir].block], fs.core[dir].size, name, no);
  }

  // ---------- with none ----------

  lemma Overfull(fs: Fs, dir: nat)
    requires CleanDir(fs, dir) && fs.core[dir].size == RECORDS_PER_BLOCK
    ensures !Flat(SaveInode(SetSize(fs, dir, RECORDS_PER_BLOCK + 1), dir), {})
  {
    var fs5 := SetSize(fs, dir, RECORDS_PER_BLOCK + 1);
    SearchAgreesIff(fs.table, fs.count, dir);
    var fs6 := SaveInode(fs5, dir);
    var p := SlotOf(fs, dir);
    assert fs6.table[p] == fs5.core[dir];
    assert !InodeOk(fs6.table[p]);
  }

  lemma WithoutRoom(fs: Fs, dir: nat, name: Name, no: nat)
    requires CleanDir(fs, dir) && fs.core[dir].size == RECORDS_PER_BLOCK
    ensures !Flat(LinkInto(fs, dir, name, no), {})
  {
    hide Flat, SaveInode;
    var fs4 := WriteRecord(fs, dir, name, no);
    assert fs4 == fs.(fault := true);
    assert SlotOf(fs4, dir) == SlotOf(fs, dir);
    Overfull(fs4, dir);
  }

  /**
   * Whether the image is consistent after a create, faults aside: exactly when the create fails, or there was room
   * for the record and the name left the number in it as it was.
   */
  lemma CreateKeepsTreeIff(fs: Fs, dir: nat, name: Name, mode: Mode, noMem: bool)
    requires WellFormed(fs) && dir in fs.core && IsDir(fs.core[dir].mode) && |name| <= 255 && 0 !in name
    ensures Consistent(CreateResult(fs, dir, name, mode, noMem), {}, {}, {})
       <==> CreateError(fs, mode, noMem) != 0
            || (fs.core[dir].size < 16 && (|name| < 248 || (|name| == 249 && name[248] == fs.count + 8)))
  {
    hide Consistent, LinkInto, AddInode, TakeBlock, NewInode, CleanDir, SlotOf;
    if CreateError(fs, mode, noMem) == 0 {
      assert CreateError(fs, mode, false) == 0;
      hide CreateError, CreateResult;
      var fs3 := AddInode(TakeBlock(fs), NewInode(fs, mode));
      Added(fs, mode, dir);
      DirThere(fs, mode, dir);
      assert CreateResult(fs, dir, name, mode, noMem)
        == LinkInto(fs3, dir, name, NewNumber(fs.count)) by { Succeeds(fs, dir, name, mode, noMem); }
      if fs.core[dir].size < RECORDS_PER_BLOCK {
        Core(fs3, dir);
        WithRoom(fs3, dir, name, NewNumber(fs.count), fs.count);
      } else {
        WithoutRoom(fs3, dir, name, NewNumber(fs.count));
        NotFlat(LinkInto(fs3, dir, name, NewNumber(fs.count)));
      }
    }
  }

  lemma Succeeds(fs: Fs, dir: nat, name: Name, mode: Mode, noMem: bool)
    requires CreateError(fs, mode, noMem) == 0
    ensures CreateResult(fs, dir, name, mode, noMem)
      == LinkInto(AddInode(TakeBlock(fs), NewInode(fs, mode)), dir, name, NewNumber(fs.count))
  {
  }

  lemma Core(fs: Fs, dir: nat)
    requires CleanDir(fs, dir)
    ensures dir in fs.core
  {
  }

  lemma NotFlat(fs: Fs)
    requires !Flat(fs, {})
    ensures !Consistent(fs, {}, {}, {})
  {
  }
}
