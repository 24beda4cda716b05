/** mkfs: writing the initial image, and reading it back as the mounted file system does. */
module Mkfs {
  import opened Bytes
  import opened Bitmap
  import opened Layout
  import opened FsState
  import opened FsMachine
  import opened FsInvariant

  const MAGIC: nat := 0x10032013
  const IMAGE_SIZE: nat := DEVICE_BLOCKS * BLOCK_SIZE
  const B_INODE: nat := 1
  const B_ROOT: nat := 2
  const B_DATA1: nat := 3
  const B_DATA2: nat := 4
  const NR_BLOCK: nat := 5
  const I_DATA1: nat := 2
  const I_DATA2: nat := 3
  const NR_INODE: nat := 4

  type Image = s: seq<Byte> | |s| == IMAGE_SIZE witness seq(IMAGE_SIZE, _ => 0)

  // ---------- encoding ----------

  predicate Encodable(i: Inode)
  {
    i.mode.ftype < 16 && i.mode.perm < 0x1000 && i.no < Pow256(8) && i.block < Pow256(8) && i.size < Pow256(8)
  }

  /** `struct simplefs_inode`: four bytes of mode, four of padding, three 64-bit words. */
  function EncodeInode(i: Inode): (s: seq<Byte>)
    ensures |s| == INODE_SIZE
  {
    ToLe(i.mode.ftype * 0x1000 + i.mode.perm, 4) + [0, 0, 0, 0] + ToLe(i.no, 8) + ToLe(i.block, 8) + ToLe(i.size, 8)
  }

  function DecodeInode(s: seq<Byte>): Inode
    requires |s| == INODE_SIZE
  {
    var mode := FromLe(s[..4]);
    Inode(Mode(mode / 0x1000, mode % 0x1000), FromLe(s[8..16]), FromLe(s[16..24]), FromLe(s[24..]))
  }

  /** Cutting a concatenation of fields back into its fields. */
  lemma CutFields(m: seq<Byte>, p: seq<Byte>, a: seq<Byte>, b: seq<Byte>, c: seq<Byte>)
    requires |m| == 4 && |p| == 4 && |a| == 8 && |b| == 8 && |c| == 8
    ensures var s := m + p + a + b + c; s[..4] == m && s[8..16] == a && s[16..24] == b && s[24..] == c
  {
  }

  lemma InodeRoundTrip(i: Inode)
    requires Encodable(i)
    ensures DecodeInode(EncodeInode(i)) == i
  {
    hide ToLe, FromLe, Pow256;
    var n := i.mode.ftype * 0x1000 + i.mode.perm;
    Pow256Values();
    CutFields(ToLe(n, 4), [0, 0, 0, 0], ToLe(i.no, 8), ToLe(i.block, 8), ToLe(i.size, 8));
    LeRoundTrip(n, 4);
    LeRoundTrip(i.no, 8);
    LeRoundTrip(i.block, 8);
    LeRoundTrip(i.size, 8);
  }

  /** Where the fields of an inode lie in its 32 bytes. */
  lemma InodeBytes(i: Inode)
    ensures EncodeInode(i)[0..4] == ToLe(0x1000 * i.mode.ftype + i.mode.perm, 4)
    ensures EncodeInode(i)[4..8] == [0, 0, 0, 0] && EncodeInode(i)[8..16] == ToLe(i.no, 8)
    ensures EncodeInode(i)[16..24] == ToLe(i.block, 8) && EncodeInode(i)[24..32] == ToLe(i.size, 8)
  {
    hide ToLe;
  }

  /** `struct simplefs_super_block` */
  function EncodeSuper(count: nat, free: nat): (s: seq<Byte>)
    ensures |s| == BLOCK_SIZE
  {
    ToLe(MAGIC, 8) + ToLe(BLOCK_SIZE, 8) + ToLe(count, 8) + ToLe(free, 8) + seq(4064, _ => 0)
  }

  /** Where the fields of the superblock lie. */
  lemma SuperBytes(count: nat, free: nat)
    ensures EncodeSuper(count, free)[0..8] == ToLe(0x10032013, 8) && EncodeSuper(count, free)[8..16] == ToLe(4096, 8)
    ensures EncodeSuper(count, free)[16..24] == ToLe(count, 8) && EncodeSuper(count, free)[24..32] == ToLe(free, 8)
  {
    hide ToLe;
  }

  // ---------- reading an image ----------

  function BlockAt(img: Image, b: nat): Block
    requires b < DEVICE_BLOCKS
  {
    img[b * BLOCK_SIZE..(b + 1) * BLOCK_SIZE]
  }

  function SlotOffset(k: nat): nat { B_INODE * BLOCK_SIZE + k * INODE_SIZE }

  function SlotAt(img: Image, k: nat): Inode
    requires k < INODES_PER_BLOCK
  {
    DecodeInode(img[SlotOffset(k)..SlotOffset(k) + INODE_SIZE])
  }

  /** The file system as mounted from an image: superblock, inode store, blocks, and the root inode in core. */
  function Mounted(img: Image): Fs
  {
    LoadInode(Fs(FromLe(img[16..24]), FreeSet(FromLe(img[24..32])),
                 seq(INODES_PER_BLOCK, k requires 0 <= k < INODES_PER_BLOCK => SlotAt(img, k)),
                 seq(DEVICE_BLOCKS, b requires 0 <= b < DEVICE_BLOCKS => BlockAt(img, b)), map[], false), ROOT_INO)
  }

  /** Where blocks and inode slots lie on the device. */
  lemma OnDevice(img: Image, b: nat, k: nat)
    requires b < 64 && k < 128
    ensures BlockAt(img, b) == img[4096 * b..4096 * b + 4096]
    ensures SlotAt(img, k) == DecodeInode(img[4096 + 32 * k..4096 + 32 * k + 32])
    ensures Mounted(img).count == FromLe(img[16..24]) && Mounted(img).free == FreeSet(FromLe(img[24..32]))
    ensures Mounted(img).table == seq(128, j requires 0 <= j < 128 => SlotAt(img, j))
    ensures Mounted(img).blocks == seq(64, j requires 0 <= j < 64 => BlockAt(img, j))
  {
  }

  // ---------- writing an image ----------

  function PutInode(img: Image, i: Inode): Image
    requires 1 <= i.no <= INODES_PER_BLOCK
  {
    Overwrite(img, SlotOffset(i.no - 1), EncodeInode(i))
  }

  function PutBlock(img: Image, content: Block, b: nat): Image
    requires b < DEVICE_BLOCKS
  {
    Overwrite(img, b * BLOCK_SIZE, content)
  }

  /** Every inode goes into the slot its number gives it. */
  predicate Placed(inodes: seq<Inode>)
  {
    && (forall k :: 0 <= k < |inodes| ==> Encodable(inodes[k]) && 1 <= inodes[k].no <= INODES_PER_BLOCK)
    && (forall k, l :: 0 <= k < l < |inodes| ==> inodes[k].no != inodes[l].no)
  }

  function PutInodes(img: Image, inodes: seq<Inode>): Image
    requires forall k :: 0 <= k < |inodes| ==> 1 <= inodes[k].no <= INODES_PER_BLOCK
  {
    if inodes == [] then img else PutInode(PutInodes(img, inodes[..|inodes| - 1]), inodes[|inodes| - 1])
  }

  lemma PutInodeGet(img: Image, i: Inode)
    requires Encodable(i) && 1 <= i.no <= INODES_PER_BLOCK
    ensures SlotAt(PutInode(img, i), i.no - 1) == i
  {
    InodeRoundTrip(i);
  }

  lemma PutInodeFrame(img: Image, i: Inode, k: nat)
    requires 1 <= i.no <= INODES_PER_BLOCK && k < INODES_PER_BLOCK && k != i.no - 1
    ensures SlotAt(PutInode(img, i), k) == SlotAt(img, k)
  {
    hide EncodeInode, DecodeInode, Overwrite;
    OverwriteFrame(img, SlotOffset(i.no - 1), EncodeInode(i), SlotOffset(k), SlotOffset(k) + INODE_SIZE);
  }

  /** Image round trip: whatever inodes are written, the table gives back exactly each of them. */
  lemma {:induction false} PutInodesGet(img: Image, inodes: seq<Inode>, k: nat)
    requires Placed(inodes) && k < |inodes|
    ensures SlotAt(PutInodes(img, inodes), inodes[k].no - 1) == inodes[k]
    decreases |inodes|
  {
    hide SlotAt, PutInode;
    var n := |inodes| - 1;
    var before := PutInodes(img, inodes[..n]);
    if k == n {
      PutInodeGet(before, inodes[n]);
    } else {
      PutInodesGet(img, inodes[..n], k);
      PutInodeFrame(before, inodes[n], inodes[k].no - 1);
    }
  }

  /** Inodes numbered 1..n: mounted with that count, the scan of the table finds each of them, as it was written. */
  lemma ScanFindsWritten(img: Image, inodes: seq<Inode>, k: nat)
    requires |inodes| <= INODES_PER_BLOCK
      && (forall l :: 0 <= l < |inodes| ==> Encodable(inodes[l]) && inodes[l].no == l + 1)
    requires k < |inodes|
    ensures var table := Mounted(PutInodes(img, inodes)).table;
      |inodes| <= |table| && SlotFrom(table, 0, |inodes|, k + 1) == k && table[k] == inodes[k]
  {
    hide SlotAt, PutInodes;
    var table := Mounted(PutInodes(img, inodes)).table;
    forall l | 0 <= l < |inodes| ensures table[l] == inodes[l] {
      PutInodesGet(img, inodes, l);
    }
    var r := SlotFrom(table, 0, |inodes|, k + 1);
    assert table[k].no == k + 1;
    if r < |inodes| { assert table[r] == inodes[r]; }
  }

  /** A stretch outside the inode store is left alone by the inode writes. */
  lemma {:induction false} PutInodesElsewhere(img: Image, inodes: seq<Inode>, lo: nat, hi: nat)
    requires forall k :: 0 <= k < |inodes| ==> 1 <= inodes[k].no <= INODES_PER_BLOCK
    requires lo <= hi <= IMAGE_SIZE && (hi <= B_INODE * BLOCK_SIZE || (B_INODE + 1) * BLOCK_SIZE <= lo)
    ensures PutInodes(img, inodes)[lo..hi] == img[lo..hi]
    decreases |inodes|
  {
    if inodes != [] {
      var n := |inodes| - 1;
      PutInodesElsewhere(img, inodes[..n], lo, hi);
      OverwriteFrame(PutInodes(img, inodes[..n]), SlotOffset(inodes[n].no - 1), EncodeInode(inodes[n]), lo, hi);
    }
  }

  lemma PutBlockFrame(img: Image, content: Block, b: nat, lo: nat, hi: nat)
    requires b < DEVICE_BLOCKS && lo <= hi <= IMAGE_SIZE && (hi <= b * BLOCK_SIZE || (b + 1) * BLOCK_SIZE <= lo)
    ensures PutBlock(img, content, b)[lo..hi] == img[lo..hi]
  {
    OverwriteFrame(img, b * BLOCK_SIZE, content, lo, hi);
  }

  // ---------- the image mkfs makes ----------

  function Ones(n: nat): nat
  {
    if n == 0 then 0 else 2 * Ones(n - 1) + 1
  }

  /** `(~0) & ~(1 << NR_BLOCK)`, widened to 64 bits: only the bit after the last block used is clear. */
  function FreeWord(): nat { Clear(Ones(64), NR_BLOCK) }

  function ZeroBlock(): Block { seq(BLOCK_SIZE, _ => 0) }

  const DATA1: Name := [68, 97, 116, 97, 49]
  const DATA2: Name := [68, 97, 116, 97, 50]
  const TEXT: seq<Byte> := [73, 32, 97, 109, 32, 68, 97, 116, 97, 32]

  function RootBlock(): Block { PutRecord(PutRecord(ZeroBlock(), 0, DATA1, I_DATA1), 1, DATA2, I_DATA2) }

  /** "I am Data 1" or "I am Data 2", a newline, zeros. */
  function DataBlock(digit: Byte): Block { Overwrite(ZeroBlock(), 0, TEXT + [digit, 10]) }

  const ROOT_INODE: Inode := Inode(Mode(DIR_TYPE, 0), ROOT_INO, B_ROOT, 2)
  const DATA1_INODE: Inode := Inode(Mode(REG_TYPE, 0), I_DATA1, B_DATA1, 13)
  const DATA2_INODE: Inode := Inode(Mode(REG_TYPE, 0), I_DATA2, B_DATA2, 13)

  function PutSuper(dev: Image): Image { Overwrite(dev, 0, EncodeSuper(NR_INODE - 1, FreeWord())) }

  function WithInodes(dev: Image): Image
  {
    PutInode(PutInode(PutInode(PutSuper(dev), ROOT_INODE), DATA1_INODE), DATA2_INODE)
  }

  function MkfsImage(dev: Image): Image
  {
    PutBlock(PutBlock(PutBlock(WithInodes(dev), RootBlock(), B_ROOT), DataBlock(49), B_DATA1), DataBlock(50), B_DATA2)
  }

  /** An open device: `write` goes to the current offset and advances it. */
  class Disk {
    var data: seq<Byte>
    var offset: nat

    constructor (contents: Image)
      ensures data == contents && offset == 0
    {
      data, offset := contents, 0;
    }

    method Seek(to: nat)
      modifies this`offset
      ensures offset == to
    {
      offset := to;
    }

    method Write(buf: seq<Byte>)
      requires offset + |buf| <= |data|
      modifies this
      ensures data == Overwrite(old(data), old(offset), buf) && offset == old(offset) + |buf|
    {
      data := Overwrite(data, offset, buf);
      offset := offset + |buf|;
    }

    method WriteInode(i: Inode)
      requires |data| == IMAGE_SIZE && 1 <= i.no <= INODES_PER_BLOCK
      modifies this
      ensures |data| == IMAGE_SIZE && data == PutInode(old(data), i)
      ensures data == Overwrite(old(data), 4096 + 32 * (i.no - 1), EncodeInode(i))
    {
      Seek(B_INODE * BLOCK_SIZE + (i.no - 1) * INODE_SIZE);
      Write(EncodeInode(i));
    }

    method WriteBlock(content: Block, b: nat)
      requires |data| == IMAGE_SIZE && b < DEVICE_BLOCKS
      modifies this
      ensures |data| == IMAGE_SIZE && data == PutBlock(old(data), content, b)
      ensures data == Overwrite(old(data), 4096 * b, content)
    {
      Seek(b * BLOCK_SIZE);
      Write(content);
    }

    /** main, once the device is open: the file offset is 0. */
    method MakeFs()
      requires |data| == IMAGE_SIZE && offset == 0
      modifies this
      ensures data == MkfsImage(old(data))
    {
      hide PutInode, PutBlock, EncodeSuper, RootBlock, DataBlock, FreeWord;
      Write(EncodeSuper(NR_INODE - 1, FreeWord()));
      WriteInode(ROOT_INODE);
      WriteInode(DATA1_INODE);
      WriteInode(DATA2_INODE);
      WriteBlock(RootBlock(), B_ROOT);
      WriteBlock(DataBlock(49), B_DATA1);
      WriteBlock(DataBlock(50), B_DATA2);
    }
  }

  // -- what is on it --

  /** The three data blocks leave everything below them alone. */
  lemma BelowBlocks(dev: Image, lo: nat, hi: nat)
    requires lo <= hi <= B_ROOT * BLOCK_SIZE
    ensures MkfsImage(dev)[lo..hi] == WithInodes(dev)[lo..hi]
  {
    hide PutBlock, WithInodes, RootBlock, DataBlock;
    var a := WithInodes(dev);
    var b := PutBlock(a, RootBlock(), B_ROOT);
    var c := PutBlock(b, DataBlock(49), B_DATA1);
    PutBlockFrame(a, RootBlock(), B_ROOT, lo, hi);
    PutBlockFrame(b, DataBlock(49), B_DATA1, lo, hi);
    PutBlockFrame(c, DataBlock(50), B_DATA2, lo, hi);
  }

  lemma BlocksOnIt(dev: Image)
    ensures BlockAt(MkfsImage(dev), B_ROOT) == RootBlock()
    ensures BlockAt(MkfsImage(dev), B_DATA1) == DataBlock(49) && BlockAt(MkfsImage(dev), B_DATA2) == DataBlock(50)
  {
    hide WithInodes, RootBlock, DataBlock;
    var a := WithInodes(dev);
    var b := PutBlock(a, RootBlock(), B_ROOT);
    var c := PutBlock(b, DataBlock(49), B_DATA1);
    PutBlockFrame(b, DataBlock(49), B_DATA1, B_ROOT * BLOCK_SIZE, B_DATA1 * BLOCK_SIZE);
    PutBlockFrame(c, DataBlock(50), B_DATA2, B_ROOT * BLOCK_SIZE, B_DATA1 * BLOCK_SIZE);
    PutBlockFrame(c, DataBlock(50), B_DATA2, B_DATA1 * BLOCK_SIZE, B_DATA2 * BLOCK_SIZE);
  }

  lemma InodesOnIt(dev: Image)
    ensures SlotAt(MkfsImage(dev), 0) == ROOT_INODE
    ensures SlotAt(MkfsImage(dev), 1) == DATA1_INODE && SlotAt(MkfsImage(dev), 2) == DATA2_INODE
  {
    hide MkfsImage, PutInode, SlotAt, PutSuper;
    Pow256Values();
    var a := PutSuper(dev);
    var b := PutInode(a, ROOT_INODE);
    var c := PutInode(b, DATA1_INODE);
    PutInodeGet(a, ROOT_INODE);
    PutInodeGet(b, DATA1_INODE);
    PutInodeGet(c, DATA2_INODE);
    PutInodeFrame(b, DATA1_INODE, 0);
    PutInodeFrame(c, DATA2_INODE, 0);
    PutInodeFrame(c, DATA2_INODE, 1);
    SlotBelow(dev, 0);
    SlotBelow(dev, 1);
    SlotBelow(dev, 2);
  }

  lemma SlotBelow(dev: Image, k: nat)
    requires k < INODES_PER_BLOCK
    ensures SlotAt(MkfsImage(dev), k) == SlotAt(WithInodes(dev), k)
  {
    BelowBlocks(dev, SlotOffset(k), SlotOffset(k) + INODE_SIZE);
  }

  lemma SuperOnIt(dev: Image, lo: nat, hi: nat)
    requires lo <= hi <= BLOCK_SIZE
    ensures MkfsImage(dev)[lo..hi] == EncodeSuper(NR_INODE - 1, FreeWord())[lo..hi]
  {
    hide MkfsImage, EncodeInode, EncodeSuper, FreeWord;
    BelowBlocks(dev, lo, hi);
    var a := PutSuper(dev);
    var b := PutInode(a, ROOT_INODE);
    var c := PutInode(b, DATA1_INODE);
    OverwriteFrame(a, SlotOffset(0), EncodeInode(ROOT_INODE), lo, hi);
    OverwriteFrame(b, SlotOffset(1), EncodeInode(DATA1_INODE), lo, hi);
    OverwriteFrame(c, SlotOffset(2), EncodeInode(DATA2_INODE), lo, hi);
  }

  lemma CutSuper(a: seq<Byte>, b: seq<Byte>, c: seq<Byte>, d: seq<Byte>, e: seq<Byte>)
    requires |a| == 8 && |b| == 8 && |c| == 8 && |d| == 8
    ensures var s := a + b + c + d + e; s[16..24] == c && s[24..32] == d
  {
  }

  lemma OnesFour(k: nat)
    ensures Ones(k + 4) == 16 * Ones(k) + 15
  {
    assert Ones(k + 2) == 2 * Ones(k + 1) + 1 == 4 * Ones(k) + 3;
    assert Ones(k + 3) == 2 * Ones(k + 2) + 1;
  }

  lemma {:induction false} OnesBound(w: nat)
    ensures Ones(8 * w) < Pow256(w)
  {
    if w > 0 {
      OnesBound(w - 1);
      OnesFour(8 * w - 8);
      OnesFour(8 * w - 4);
    }
  }

  lemma {:induction false} OnesBits(n: nat, i: nat)
    ensures Bit(Ones(n), i) == (i < n)
    decreases n
  {
    if n == 0 {
      ZeroBits(i);
    } else if i > 0 {
      OnesBits(n - 1, i - 1);
    }
  }

  lemma {:induction false} ZeroBits(i: nat)
    ensures !Bit(0, i)
  {
    if i > 0 { ZeroBits(i - 1); }
  }

  lemma FreeOnIt()
    ensures FreeWord() < Pow256(8)
    ensures forall b :: b in FreeSet(FreeWord()) <==> 0 <= b < 64 && b != NR_BLOCK
  {
    hide Ones, Pow256;
    OnesBound(8);
    forall b: nat ensures Bit(FreeWord(), b) == (b < 64 && b != NR_BLOCK) {
      OnesBits(64, b);
      ClearOne(Ones(64), NR_BLOCK, b);
    }
  }

  /** The file system mounted from the image mkfs makes on any device. */
  lemma MkfsMounts(dev: Image)
    ensures var fs := Mounted(MkfsImage(dev));
      && fs.count == 3 && |fs.table| == INODES_PER_BLOCK && |fs.blocks| == DEVICE_BLOCKS && !fs.fault
      && fs.table[0] == ROOT_INODE && fs.table[1] == DATA1_INODE && fs.table[2] == DATA2_INODE
      && fs.blocks[B_ROOT] == RootBlock() && fs.blocks[B_DATA1] == DataBlock(49) && fs.blocks[B_DATA2] == DataBlock(50)
      && (forall b :: b in fs.free <==> 0 <= b < 64 && b != NR_BLOCK)
      && fs.core == map[ROOT_INO := ROOT_INODE]
  {
    hide MkfsImage, FreeSet, FreeWord, SlotAt, RootBlock, DataBlock, ToLe, FromLe, Pow256;
    var img := MkfsImage(dev);
    SuperOnIt(dev, 16, 24);
    SuperOnIt(dev, 24, 32);
    CutSuper(ToLe(MAGIC, 8), ToLe(BLOCK_SIZE, 8), ToLe(NR_INODE - 1, 8), ToLe(FreeWord(), 8), seq(4064, _ => 0));
    Pow256Values();
    FreeOnIt();
    LeRoundTrip(NR_INODE - 1, 8);
    LeRoundTrip(FreeWord(), 8);
    InodesOnIt(dev);
    BlocksOnIt(dev);
  }

  /** What is in the image, spelled out: the root's records, and the text of the two files, NUL included. */
  lemma MkfsContents(dev: Image)
    ensures var fs := Mounted(MkfsImage(dev)); |fs.table| == 128 && |fs.blocks| == 64
    ensures var fs := Mounted(MkfsImage(dev));
      && fs.table[..3] == [Inode(Mode(4, 0), 1, 2, 2), Inode(Mode(8, 0), 2, 3, 13), Inode(Mode(8, 0), 3, 4, 13)]
      && RecordAt(fs.blocks[2], 0) == DirRecord([68, 97, 116, 97, 49], 2)
      && RecordAt(fs.blocks[2], 1) == DirRecord([68, 97, 116, 97, 50], 3)
      && fs.blocks[3][..13] == [73, 32, 97, 109, 32, 68, 97, 116, 97, 32, 49, 10, 0]
      && fs.blocks[4][..13] == [73, 32, 97, 109, 32, 68, 97, 116, 97, 32, 50, 10, 0]
  {
    hide Mounted, MkfsImage, RootBlock, RecordAt;
    MkfsMounts(dev);
    RootRecords();
    var fs := Mounted(MkfsImage(dev));
    assert fs.table[..3] == [fs.table[0], fs.table[1], fs.table[2]];
    DataText(49);
    DataText(50);
  }

  lemma DataText(digit: Byte)
    ensures DataBlock(digit)[..13] == [73, 32, 97, 109, 32, 68, 97, 116, 97, 32, digit, 10, 0]
  {
    var d := TEXT + [digit, 10];
    assert DataBlock(digit)[..13] == DataBlock(digit)[0..0 + |d|] + [DataBlock(digit)[12]];
  }

  lemma RootRecords()
    ensures RecordAt(RootBlock(), 0) == DirRecord(DATA1, I_DATA1)
      && RecordAt(RootBlock(), 1) == DirRecord(DATA2, I_DATA2)
  {
    hide PutRecord, RecordAt;
    Pow256Values();
    var b := PutRecord(ZeroBlock(), 0, DATA1, I_DATA1);
    PutRecordGet(ZeroBlock(), 0, DATA1, I_DATA1);
    PutRecordGet(b, 1, DATA2, I_DATA2);
    PutRecordFrame(b, 1, DATA2, I_DATA2, 0);
  }

  lemma MkfsTree()
    ensures TreeOk(Tree([1, 2, 3], [[2, 3], [], []]), {})
  {
    hide TreeOk;
    var t0 := Tree([1], [[]]);
    RootOnly(t0);
    TreeAppend(t0, 2);
    var t1 := Tree([1, 2], [[], []]);
    assert t0.nos + [2] == t1.nos && t0.kids + [[]] == t1.kids;
    TreeLink(t1, 0, 1);
    var t2 := Tree([1, 2], [[2], []]);
    assert t1.kids[0] + [t1.nos[1]] == [2];
    assert t1.kids[0 := [2]] == t2.kids;
    TreeAppend(t2, 3);
    var t3 := Tree([1, 2, 3], [[2], [], []]);
    assert t2.nos + [3] == t3.nos && t2.kids + [[]] == t3.kids;
    TreeLink(t3, 0, 2);
    assert t3.kids[0] + [t3.nos[2]] == [2, 3];
    assert t3.kids[0 := [2, 3]] == [[2, 3], [], []];
  }

  lemma RootOnly(t: Tree)
    requires |t.nos| == 1 && t.kids == [[]]
    ensures TreeOk(t, {})
  {
    assert Total(t.kids[..0]) == 0;
  }

  /** The mounted file system with some other set of blocks marked free. */
  function WithFree(dev: Image, free: set<nat>): Fs
  {
    Mounted(MkfsImage(dev)).(free := free)
  }

  lemma MkfsFlat(dev: Image, free: set<nat>)
    requires free !! {B_ROOT, B_DATA1, B_DATA2}
    ensures Flat(WithFree(dev, free), {})
  {
    hide Mounted, MkfsImage, RootBlock;
    MkfsMounts(dev);
    var fs := WithFree(dev, free);
    forall k | 0 <= k < fs.count
      ensures fs.table[k].no == k + 1 && fs.table[k].block == k + 2 && InodeOk(fs.table[k])
    {
      if k == 0 {} else if k == 1 {} else {}
    }
  }

  lemma MkfsTreeOf(dev: Image, free: set<nat>)
    requires Flat(WithFree(dev, free), {})
    ensures TreeOf(WithFree(dev, free)) == Tree([1, 2, 3], [[2, 3], [], []])
  {
    hide Mounted, MkfsImage, RootBlock, Flat, RecordAt;
    MkfsMounts(dev);
    RootRecords();
    var t := TreeOf(WithFree(dev, free));
    assert t.kids[0] == [2, 3];
    assert t.kids[1] == [] && t.kids[2] == [];
    assert t.nos == [1, 2, 3];
    assert t.kids == [[2, 3], [], []];
  }

  /**
   * The image is in order up to the bitmap: it is well-formed exactly when the three blocks in use are not marked free.
   */
  lemma MkfsWellFormedIff(dev: Image, free: set<nat>)
    ensures WellFormed(WithFree(dev, free)) <==> free !! {B_ROOT, B_DATA1, B_DATA2}
  {
    hide WellFormed, WithFree;
    if free !! {B_ROOT, B_DATA1, B_DATA2} {
      MkfsWellFormed(dev, free);
    } else if WellFormed(WithFree(dev, free)) {
      BlocksInUse(dev, free);
    }
  }

  lemma BlocksInUse(dev: Image, free: set<nat>)
    requires WellFormed(WithFree(dev, free))
    ensures free !! {B_ROOT, B_DATA1, B_DATA2}
  {
    hide Mounted, MkfsImage, RootBlock;
    MkfsMounts(dev);
    var fs := WithFree(dev, free);
    assert fs.table[0].block !in free && fs.table[1].block !in free && fs.table[2].block !in free;
  }

  lemma MkfsWellFormed(dev: Image, free: set<nat>)
    requires free !! {B_ROOT, B_DATA1, B_DATA2}
    ensures WellFormed(WithFree(dev, free))
  {
    hide Mounted, MkfsImage, RootBlock, Flat, TreeOk;
    MkfsFlat(dev, free);
    MkfsTreeOf(dev, free);
    MkfsTree();
    MkfsMounts(dev);
    RootInCore(WithFree(dev, free));
  }

  /** With a bitmap that spares the blocks in use, the image is a place for any number of threads to start from. */
  lemma MountedMachine(dev: Image, free: set<nat>, n: nat, idle: Thread) returns (m: Machine)
    requires free !! {B_ROOT, B_DATA1, B_DATA2} && idle.pc == Idle
    ensures Initial(m) && m.fs == WithFree(dev, free) && |m.threads| == n
    ensures ROOT_INO in m.fs.core && IsDir(m.fs.core[ROOT_INO].mode)
  {
    hide WellFormed, Mounted, MkfsImage;
    MkfsWellFormed(dev, free);
    MkfsMounts(dev);
    m := Machine(WithFree(dev, free), map[], seq(n, _ => idle));
  }

  lemma RootInCore(fs: Fs)
    requires fs.count == 3 && |fs.table| == INODES_PER_BLOCK && |fs.blocks| == DEVICE_BLOCKS
      && fs.table[0] == ROOT_INODE
    requires fs.core == map[ROOT_INO := ROOT_INODE]
    ensures CoreOk(fs, {})
  {
    assert SlotOf(fs, ROOT_INO) == 0;
  }

  /** As mkfs writes it, it is not: the root directory's block counts as free, and is the first to be taken. */
  lemma MkfsImageIsNotWellFormed(dev: Image)
    ensures var fs := Mounted(MkfsImage(dev));
      !WellFormed(fs) && FreeBlock(fs) == B_ROOT == fs.table[0].block
  {
    hide Mounted, MkfsImage, RootBlock, WellFormed;
    MkfsMounts(dev);
    var fs := Mounted(MkfsImage(dev));
    MkfsWellFormedIff(dev, fs.free);
    assert B_ROOT in fs.free;
    assert WithFree(dev, fs.free) == fs;
  }
}
