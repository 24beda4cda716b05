/** What each elementary change keeps of the consistency of the file system. */
module FsInvariant {
  import opened Bytes
  import opened Layout
  import opened FsState

  // ---------- scans of related tables ----------

  ghost predicate SameNumbers(t: seq<Inode>, t': seq<Inode>, n: nat)
  {
    n <= |t| && n <= |t'| && forall i :: 0 <= i < n ==> t[i].no == t'[i].no
  }

  lemma SlotSame(t: seq<Inode>, t': seq<Inode>, n: nat, no: nat)
    requires SameNumbers(t, t', n)
    ensures SlotFrom(t, 0, n, no) == SlotFrom(t', 0, n, no)
  {
  }

  /** A slot that is found stays found when the table grows. */
  lemma SlotGrows(t: seq<Inode>, n: nat, n': nat, no: nat)
    requires n <= n' <= |t| && SlotFrom(t, 0, n, no) < n
    ensures SlotFrom(t, 0, n', no) == SlotFrom(t, 0, n, no)
  {
  }

  lemma SlotUnique(fs: Fs, k: nat)
    requires Shape(fs) && NumbersOk(fs) && k < fs.count
    ensures SlotOf(fs, fs.table[k].no) == k
  {
  }

  /** The one-past-end search and the bounded scan agree unless only the slot past the end holds the number. */
  lemma SearchAgreesIff(table: seq<Inode>, count: nat, no: nat)
    requires count < |table|
    ensures (SearchSlot(table, count, no) <= count <==> SlotFrom(table, 0, count, no) < count)
       <==> !(table[count].no == no && forall k :: 0 <= k < count ==> table[k].no != no)
    ensures SlotFrom(table, 0, count, no) < count ==> SearchSlot(table, count, no) == SlotFrom(table, 0, count, no)
  {
    if SlotFrom(table, 0, count, no) < count {
      SlotGrows(table, count, count + 1, no);
    }
  }

  // ---------- the tree of directories ----------

  lemma TreeSame(fs: Fs, fs': Fs)
    requires Readable(fs) && Readable(fs') && fs'.count == fs.count
    requires forall k :: 0 <= k < fs.count ==>
               fs'.table[k].no == fs.table[k].no && KidsOf(fs'.blocks, fs'.table[k]) == KidsOf(fs.blocks, fs.table[k])
    ensures TreeOf(fs') == TreeOf(fs)
  {
    var t, t' := TreeOf(fs), TreeOf(fs');
    assert t'.nos == t.nos && t'.kids == t.kids;
  }

  lemma {:induction false} TotalAppend(kids: seq<seq<nat>>, x: seq<nat>)
    ensures Total(kids + [x]) == Total(kids) + |x|
  {
    assert (kids + [x])[..|kids|] == kids;
  }

  /** A slot appended to the table is an orphan until some record names it. */
  lemma TreeAppend(t: Tree, no: nat)
    requires TreeOk(t, {}) && no !in t.nos && |t.nos| >= 1
    ensures TreeOk(Tree(t.nos + [no], t.kids + [[]]), {|t.nos|})
  {
    var t' := Tree(t.nos + [no], t.kids + [[]]);
    TotalAppend(t.kids, []);
    assert forall k, j, c :: Link(t', k, j, c) ==> Link(t, k, j, c) by {
      forall k, j, c | Link(t', k, j, c) ensures Link(t, k, j, c) {
        assert k < |t.kids|;
        assert Resolves(t, k, j);
        var c' :| k < c' && Link(t, k, j, c');
        assert t'.nos[c'] == t'.nos[c];
      }
    }
    assert forall k, j, c :: Link(t, k, j, c) ==> Link(t', k, j, c);
    forall k, j | 0 <= k < |t'.kids| && 0 <= j < |t'.kids[k]| ensures Resolves(t', k, j) {
      assert Resolves(t, k, j);
      var c :| k < c && Link(t, k, j, c);
      assert Link(t', k, j, c);
    }
    SameRecs(t, t');
  }

  lemma SameRecs(t: Tree, t': Tree)
    requires forall k, j, c :: Link(t, k, j, c) <==> Link(t', k, j, c)
    ensures forall c :: HasRec(t, c) <==> HasRec(t', c)
  {
    forall c ensures HasRec(t, c) <==> HasRec(t', c) {
      if HasRec(t, c) {
        var k, j :| Link(t, k, j, c);
        assert Link(t', k, j, c);
      }
      if HasRec(t', c) {
        var k, j :| Link(t', k, j, c);
        assert Link(t, k, j, c);
      }
    }
  }

  lemma {:induction false} TotalBump(kids: seq<seq<nat>>, p: nat, no: nat)
    requires p < |kids|
    ensures Total(kids[p := kids[p] + [no]]) == Total(kids) + 1
  {
    var kids' := kids[p := kids[p] + [no]];
    var n := |kids| - 1;
    if p == n {
      assert kids'[..n] == kids[..n];
    } else {
      TotalBump(kids[..n], p, no);
      assert kids'[..n] == kids[..n][p := kids[p] + [no]];
    }
  }

  /** A record for the orphan in an earlier directory completes the tree. */
  lemma TreeLink(t: Tree, p: nat, c: nat)
    requires TreeOk(t, {c}) && p < c
    ensures TreeOk(t.(kids := t.kids[p := t.kids[p] + [t.nos[c]]]), {})
  {
    var t' := t.(kids := t.kids[p := t.kids[p] + [t.nos[c]]]);
    var n := |t.kids[p]|;
    TotalBump(t.kids, p, t.nos[c]);
    forall k, j, d | Link(t, k, j, d) ensures Link(t', k, j, d) {}
    assert Link(t', p, n, c);
    assert forall k, j, d :: Link(t', k, j, d) ==> Link(t, k, j, d) || (k == p && j == n && d == c);
    assert !HasRec(t, c);
    forall k, j | 0 <= k < |t'.kids| && 0 <= j < |t'.kids[k]| ensures Resolves(t', k, j) {
      if k != p || j != n { assert Resolves(t, k, j); }
    }
    forall d ensures HasRec(t', d) <==> HasRec(t, d) || d == c {
      if HasRec(t, d) {
        var k, j :| Link(t, k, j, d);
        assert Link(t', k, j, d);
      }
    }
  }

  // ---------- the elementary changes ----------

  /** Flatness depends only on the numbered part of the table and on the bitmap. */
  lemma FlatFrame(fs: Fs, fs': Fs, limbo: set<nat>)
    requires Flat(fs, limbo) && Shape(fs') && fs'.count == fs.count && fs'.free == fs.free
    requires forall i :: 0 <= i < fs.count ==> fs'.table[i] == fs.table[i]
    ensures Flat(fs', limbo)
  {
  }

  lemma TakeBlockFlat(fs: Fs)
    requires Flat(fs, {}) && FreeBlock(fs) < MAX_OBJECTS
    ensures Flat(TakeBlock(fs), {FreeBlock(fs)})
  {
  }

  lemma TakeBlockKeeps(fs: Fs, dirty: set<nat>)
    requires Consistent(fs, {}, {}, dirty) && FreeBlock(fs) < MAX_OBJECTS
    ensures Consistent(TakeBlock(fs), {FreeBlock(fs)}, {}, dirty)
  {
    TakeBlockFlat(fs);
    TreeSame(fs, TakeBlock(fs));
    CoreFrame(fs, TakeBlock(fs), dirty);
  }

  /** In-core inodes depend only on the numbered part of the table. */
  lemma CoreFrame(fs: Fs, fs': Fs, dirty: set<nat>)
    requires Shape(fs) && Shape(fs') && CoreOk(fs, dirty)
    requires fs'.core == fs.core && fs'.count == fs.count
    requires forall i :: 0 <= i < fs.count ==> fs'.table[i] == fs.table[i]
    ensures CoreOk(fs', dirty)
  {
    forall no | no in fs'.core ensures CoreEntryOk(fs', no, dirty) {
      SlotSame(fs.table, fs'.table, fs.count, no);
      assert CoreEntryOk(fs, no, dirty);
    }
  }

  lemma StoreInodeKeeps(fs: Fs, inode: Inode, limbo: set<nat>, orphans: set<nat>, dirty: set<nat>)
    requires Consistent(fs, limbo, orphans, dirty)
    ensures Consistent(StoreInode(fs, inode), limbo, orphans, dirty)
  {
    var fs' := StoreInode(fs, inode);
    FlatFrame(fs, fs', limbo);
    TreeSame(fs, fs');
    CoreFrame(fs, fs', dirty);
  }

  // -- counting a stored inode --

  ghost predicate FreshInode(fs: Fs, inode: Inode)
  {
    && Shape(fs) && fs.count + 1 < INODES_PER_BLOCK && fs.table[fs.count] == inode
    && inode.no == NewNumber(fs.count) && inode.size == 0
    && (IsDir(inode.mode) || IsReg(inode.mode))
  }

  lemma CountInodeNumbers(fs: Fs, inode: Inode)
    requires FreshInode(fs, inode) && NumbersOk(fs)
    ensures NumbersOk(CountInode(fs, inode))
  {
    assert forall k :: 0 <= k < fs.count ==> fs.table[k].no < inode.no;
  }

  lemma CountInodeBlocks(fs: Fs, inode: Inode)
    requires FreshInode(fs, inode) && BlocksOk(fs, {inode.block})
    ensures BlocksOk(CountInode(fs, inode), {})
  {
    assert forall k :: 0 <= k < fs.count ==> fs.table[k].block != inode.block;
    assert inode.block in {inode.block};
  }

  lemma CountInodeFlat(fs: Fs, inode: Inode)
    requires FreshInode(fs, inode) && Flat(fs, {inode.block})
    ensures Flat(CountInode(fs, inode), {})
  {
    hide NumbersOk, BlocksOk;
    CountInodeNumbers(fs, inode);
    CountInodeBlocks(fs, inode);
  }

  lemma CountInodeTree(fs: Fs, inode: Inode)
    requires FreshInode(fs, inode) && NumbersOk(fs) && Readable(fs) && inode.block < |fs.blocks|
    ensures Readable(CountInode(fs, inode))
    ensures TreeOf(CountInode(fs, inode)) == Tree(TreeOf(fs).nos + [inode.no], TreeOf(fs).kids + [[]])
    ensures inode.no !in TreeOf(fs).nos
  {
    var t, t' := TreeOf(fs), TreeOf(CountInode(fs, inode));
    assert KidsOf(fs.blocks, inode) == [];
    assert t'.nos == t.nos + [inode.no];
    assert t'.kids == t.kids + [[]];
  }

  lemma CountInodeCore(fs: Fs, inode: Inode, dirty: set<nat>)
    requires FreshInode(fs, inode) && NumbersOk(fs) && CoreOk(fs, dirty)
    ensures CoreOk(CountInode(fs, inode), dirty)
  {
    var fs' := CountInode(fs, inode);
    forall no | no in fs'.core ensures CoreEntryOk(fs', no, dirty) {
      if no != inode.no {
        assert CoreEntryOk(fs, no, dirty);
        SlotGrows(fs.table, fs.count, fs.count + 1, no);
      } else {
        assert forall i :: 0 <= i < fs.count ==> fs'.table[i].no < no;
      }
    }
  }

  lemma CountInodeKeeps(fs: Fs, inode: Inode, dirty: set<nat>)
    requires Consistent(fs, {inode.block}, {}, dirty) && FreshInode(fs, inode)
    ensures Consistent(CountInode(fs, inode), {}, {fs.count}, dirty)
  {
    CountInodeFlat(fs, inode);
    CountInodeTree(fs, inode);
    TreeAppend(TreeOf(fs), inode.no);
    CountInodeCore(fs, inode, dirty);
  }

  // -- writing a record past the end of a directory --

  /** `no` is an in-core directory whose copy is up to date. */
  ghost predicate CleanDir(fs: Fs, no: nat)
  {
    && Shape(fs) && no in fs.core && IsDir(fs.core[no].mode)
    && SlotOf(fs, no) < fs.count && fs.core[no] == fs.table[SlotOf(fs, no)]
  }

  /** Storing record `i` changes no record before it. */
  lemma PutRecordKids(blocks: seq<Block>, d: Inode, name: Name, no: nat)
    requires d.block < |blocks| && InodeOk(d) && IsDir(d.mode) && d.size < RECORDS_PER_BLOCK && |name| <= VFS_NAME_MAX
    ensures KidsOf(blocks[d.block := PutRecord(blocks[d.block], d.size, name, no)], d) == KidsOf(blocks, d)
  {
    forall j | 0 <= j < d.size
      ensures RecordAt(PutRecord(blocks[d.block], d.size, name, no), j) == RecordAt(blocks[d.block], j)
    {
      PutRecordFrame(blocks[d.block], d.size, name, no, j);
    }
  }

  lemma WriteRecordTree(fs: Fs, dir: nat, name: Name, no: nat, limbo: set<nat>)
    requires Flat(fs, limbo) && CleanDir(fs, dir) && RecordFits(fs, dir, name)
    ensures Readable(WriteRecord(fs, dir, name, no))
    ensures TreeOf(WriteRecord(fs, dir, name, no)) == TreeOf(fs)
  {
    var fs' := WriteRecord(fs, dir, name, no);
    var p := SlotOf(fs, dir);
    PutRecordKids(fs.blocks, fs.core[dir], name, no);
    forall k | 0 <= k < fs.count
      ensures KidsOf(fs'.blocks, fs'.table[k]) == KidsOf(fs.blocks, fs.table[k])
    {
      if k != p { assert fs'.blocks[fs.table[k].block] == fs.blocks[fs.table[k].block]; }
    }
    TreeSame(fs, fs');
  }

  lemma WriteRecordKeeps(fs: Fs, dir: nat, name: Name, no: nat, limbo: set<nat>, orphans: set<nat>, dirty: set<nat>)
    requires Consistent(fs, limbo, orphans, dirty) && CleanDir(fs, dir) && RecordFits(fs, dir, name)
    ensures Consistent(WriteRecord(fs, dir, name, no), limbo, orphans, dirty)
  {
    FlatFrame(fs, WriteRecord(fs, dir, name, no), limbo);
    WriteRecordTree(fs, dir, name, no, limbo);
    CoreFrame(fs, WriteRecord(fs, dir, name, no), dirty);
  }

  // -- in-core sizes and their write-through --

  lemma SetSizeCore(fs: Fs, no: nat, size: nat)
    requires Shape(fs) && CoreOk(fs, {}) && no in fs.core
    ensures CoreOk(SetSize(fs, no, size), {no})
  {
    var fs' := SetSize(fs, no, size);
    forall x | x in fs'.core ensures CoreEntryOk(fs', x, {no}) {
      assert CoreEntryOk(fs, x, {});
    }
  }

  lemma SetSizeKeeps(fs: Fs, no: nat, size: nat, limbo: set<nat>, orphans: set<nat>)
    requires Consistent(fs, limbo, orphans, {}) && no in fs.core
    ensures Consistent(SetSize(fs, no, size), limbo, orphans, {no})
  {
    FlatFrame(fs, SetSize(fs, no, size), limbo);
    TreeSame(fs, SetSize(fs, no, size));
    SetSizeCore(fs, no, size);
  }

  lemma SaveSlot(fs: Fs, no: nat, dirty: set<nat>)
    requires Shape(fs) && CoreOk(fs, dirty) && no in fs.core
    ensures SaveFinds(fs, no) && SlotOf(fs, no) < fs.count
    ensures SaveInode(fs, no) == fs.(table := fs.table[SlotOf(fs, no) := fs.core[no]])
    ensures fs.core[no] == fs.table[SlotOf(fs, no)].(size := fs.core[no].size)
  {
    assert CoreEntryOk(fs, no, dirty);
    SearchAgreesIff(fs.table, fs.count, no);
  }

  lemma SaveCore(fs: Fs, no: nat)
    requires Shape(fs) && NumbersOk(fs) && CoreOk(fs, {no}) && no in fs.core
    ensures Shape(SaveInode(fs, no)) && CoreOk(SaveInode(fs, no), {})
  {
    SaveSlot(fs, no, {no});
    var fs' := SaveInode(fs, no);
    forall x | x in fs'.core ensures CoreEntryOk(fs', x, {}) {
      assert CoreEntryOk(fs, x, {no});
      SlotSame(fs.table, fs'.table, fs.count, x);
    }
  }

  lemma ResizeFlat(fs: Fs, p: nat, size: nat, limbo: set<nat>)
    requires Flat(fs, limbo) && p < fs.count && InodeOk(fs.table[p].(size := size))
    ensures Flat(fs.(table := fs.table[p := fs.table[p].(size := size)]), limbo)
  {
    var fs' := fs.(table := fs.table[p := fs.table[p].(size := size)]);
    assert forall k :: 0 <= k < fs.count ==>
      fs'.table[k].no == fs.table[k].no && fs'.table[k].block == fs.table[k].block;
  }

  lemma SaveFlat(fs: Fs, no: nat, limbo: set<nat>)
    requires Flat(fs, limbo) && CoreOk(fs, {no}) && no in fs.core && InodeOk(fs.core[no])
    ensures Flat(SaveInode(fs, no), limbo)
  {
    SaveSlot(fs, no, {no});
    ResizeFlat(fs, SlotOf(fs, no), fs.core[no].size, limbo);
  }

  lemma SaveFileKeeps(fs: Fs, no: nat, limbo: set<nat>, orphans: set<nat>)
    requires Consistent(fs, limbo, orphans, {no}) && no in fs.core
    requires IsReg(fs.core[no].mode) && fs.core[no].size <= BLOCK_SIZE
    ensures Consistent(SaveInode(fs, no), limbo, orphans, {})
  {
    hide NumbersOk, BlocksOk, CoreOk, TreeOk;
    SaveFlat(fs, no, limbo);
    SaveCore(fs, no);
    SaveFileTree(fs, no);
  }

  lemma SaveFileTree(fs: Fs, no: nat)
    requires Shape(fs) && CoreOk(fs, {no}) && no in fs.core && IsReg(fs.core[no].mode)
    requires Readable(fs) && Readable(SaveInode(fs, no))
    ensures TreeOf(SaveInode(fs, no)) == TreeOf(fs)
  {
    SaveSlot(fs, no, {no});
    TreeSame(fs, SaveInode(fs, no));
  }

  // -- saving a directory that has gained a record --

  /** The directory's in-core copy counts one more record than its slot, which lies before slot `c`. */
  ghost predicate GrownDir(fs: Fs, dir: nat, c: nat)
  {
    && Shape(fs) && dir in fs.core && IsDir(fs.core[dir].mode)
    && SlotOf(fs, dir) < c < fs.count
    && fs.core[dir] == fs.table[SlotOf(fs, dir)].(size := fs.table[SlotOf(fs, dir)].size + 1)
    && fs.core[dir].size <= RECORDS_PER_BLOCK && fs.core[dir].block < |fs.blocks|
  }

  /** And that record names slot `c`. */
  ghost predicate GainedRecord(fs: Fs, dir: nat, c: nat)
  {
    GrownDir(fs, dir, c) && RecordAt(fs.blocks[fs.core[dir].block], fs.core[dir].size - 1).no == fs.table[c].no
  }

  lemma KidsGrow(blocks: seq<Block>, d: Inode)
    requires d.block < |blocks| && IsDir(d.mode) && d.size < RECORDS_PER_BLOCK
    ensures KidsOf(blocks, d.(size := d.size + 1)) == KidsOf(blocks, d) + [RecordAt(blocks[d.block], d.size).no]
  {
  }

  lemma SaveDirTree(fs: Fs, dir: nat, c: nat)
    requires Shape(fs) && NumbersOk(fs) && CoreOk(fs, {dir}) && GrownDir(fs, dir, c)
    requires Readable(fs) && Readable(SaveInode(fs, dir))
    ensures var p := SlotOf(fs, dir); var t := TreeOf(fs);
            && p < c < |t.nos|
            && TreeOf(SaveInode(fs, dir))
              == t.(kids := t.kids[p := t.kids[p] + [RecordAt(fs.blocks[fs.core[dir].block], fs.core[dir].size - 1).no]])
  {
    SaveSlot(fs, dir, {dir});
    var p := SlotOf(fs, dir);
    var t, t' := TreeOf(fs), TreeOf(SaveInode(fs, dir));
    KidsGrow(fs.blocks, fs.table[p]);
    assert t'.nos == t.nos;
    assert t'.kids == t.kids[p := t.kids[p] + [RecordAt(fs.blocks[fs.core[dir].block], fs.core[dir].size - 1).no]];
  }

  lemma SaveDirKeeps(fs: Fs, dir: nat, c: nat)
    requires Consistent(fs, {}, {c}, {dir}) && GainedRecord(fs, dir, c)
    ensures Consistent(SaveInode(fs, dir), {}, {}, {})
  {
    SaveFlat(fs, dir, {});
    SaveCore(fs, dir);
    SaveDirTree(fs, dir, c);
    TreeLink(TreeOf(fs), SlotOf(fs, dir), c);
  }

  // -- writing file data, loading inodes --

  ghost predicate OpenFile(fs: Fs, no: nat)
  {
    no in fs.core && IsReg(fs.core[no].mode)
  }

  lemma CopyByteElsewhere(fs: Fs, no: nat, off: nat, v: Byte, limbo: set<nat>, dirty: set<nat>)
    requires Shape(fs) && BlocksOk(fs, limbo) && CoreOk(fs, dirty) && no in fs.core && off < BLOCK_SIZE
    ensures CopyByte(fs, no, off, v).fault == fs.fault
    ensures forall k :: 0 <= k < fs.count && k != SlotOf(fs, no)
              ==> CopyByte(fs, no, off, v).blocks[fs.table[k].block] == fs.blocks[fs.table[k].block]
  {
    assert CoreEntryOk(fs, no, dirty);
  }

  lemma CopyByteKeeps(fs: Fs, no: nat, off: nat, v: Byte, limbo: set<nat>, orphans: set<nat>, dirty: set<nat>)
    requires Consistent(fs, limbo, orphans, dirty) && OpenFile(fs, no) && off < BLOCK_SIZE
    ensures Consistent(CopyByte(fs, no, off, v), limbo, orphans, dirty)
  {
    var fs' := CopyByte(fs, no, off, v);
    assert CoreEntryOk(fs, no, dirty);
    CopyByteElsewhere(fs, no, off, v, limbo, dirty);
    FlatFrame(fs, fs', limbo);
    TreeSame(fs, fs');
    CoreFrame(fs, fs', dirty);
  }

  lemma LoadInodeCore(fs: Fs, no: nat, dirty: set<nat>)
    requires Shape(fs) && CoreOk(fs, dirty)
    ensures CoreOk(LoadInode(fs, no), dirty)
  {
    var fs' := LoadInode(fs, no);
    forall x | x in fs'.core ensures CoreEntryOk(fs', x, dirty) {
      if x in fs.core { assert CoreEntryOk(fs, x, dirty); }
    }
  }

  lemma LoadInodeKeeps(fs: Fs, no: nat, limbo: set<nat>, orphans: set<nat>, dirty: set<nat>)
    requires Consistent(fs, limbo, orphans, dirty)
    ensures Consistent(LoadInode(fs, no), limbo, orphans, dirty)
  {
    FlatFrame(fs, LoadInode(fs, no), limbo);
    TreeSame(fs, LoadInode(fs, no));
    LoadInodeCore(fs, no, dirty);
  }

  /** What loading does: the slot that holds the number gets its in-core copy, if it has none; nothing else changes. */
  lemma LoadEffect(fs: Fs, no: nat, limbo: set<nat>)
    requires Flat(fs, limbo)
    ensures no in fs.core ==> LoadInode(fs, no) == fs
    ensures (forall k :: 0 <= k < fs.count ==> fs.table[k].no != no) ==> LoadInode(fs, no) == fs
    ensures forall k :: 0 <= k < fs.count && fs.table[k].no == no && no !in fs.core ==>
      LoadInode(fs, no) == fs.(core := fs.core[no := fs.table[k]])
  {
  }
}
