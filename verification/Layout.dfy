/** On-disk layout of simplefs: constants, inodes, and directory records inside a block. */
module Layout {
  import opened Bytes

  const BLOCK_SIZE: nat := 4096
  const FILENAME_MAXLEN: nat := 248
  const RECORD_SIZE: nat := 256
  const RECORDS_PER_BLOCK: nat := 16
  const INODE_SIZE: nat := 32
  const INODES_PER_BLOCK: nat := 128
  const MAX_OBJECTS: nat := 64
  const START_INO: nat := 10
  const RESERVED_INODES: nat := 3
  const ROOT_INO: nat := 1
  const FIRST_DATA_BLOCK: nat := 2
  /** Longest file name the kernel passes down (NAME_MAX). */
  const VFS_NAME_MAX: nat := 255
  const DIR_TYPE: nat := 4
  const REG_TYPE: nat := 8

  type Block = b: seq<Byte> | |b| == BLOCK_SIZE witness seq(BLOCK_SIZE, _ => 0)
  type Name = seq<Byte>

  /** A `mode_t`, split into the file type bits (`mode >> 12`) and the twelve bits below them. */
  datatype Mode = Mode(ftype: nat, perm: nat)

  /** `size` is the union of `file_size` and `dir_children_count`. */
  datatype Inode = Inode(mode: Mode, no: nat, block: nat, size: nat)

  datatype DirRecord = DirRecord(name: Name, no: nat)

  predicate IsDir(mode: Mode) { mode.ftype == DIR_TYPE }

  predicate IsReg(mode: Mode) { mode.ftype == REG_TYPE }

  /** A name as the kernel passes it: a C string of at most NAME_MAX bytes. */
  predicate VfsName(name: Name) { |name| <= VFS_NAME_MAX && 0 !in name }

  /** The number `simplefs_create_fs_object` gives to the object created at count `count`. */
  function NewNumber(count: nat): nat { count + START_INO - RESERVED_INODES + 1 }

  function RecordBytes(b: Block, i: nat): (r: seq<Byte>)
    requires i < RECORDS_PER_BLOCK
    ensures |r| == RECORD_SIZE
  {
    b[i * RECORD_SIZE..(i + 1) * RECORD_SIZE]
  }

  function DecodeRecord(s: seq<Byte>): DirRecord
    requires |s| == RECORD_SIZE
  {
    DirRecord(CString(s), FromLe(s[FILENAME_MAXLEN..]))
  }

  /** The record at index `i`, as `simplefs_lookup` and `simplefs_iterate` read it. */
  function RecordAt(b: Block, i: nat): DirRecord
    requires i < RECORDS_PER_BLOCK
  {
    DecodeRecord(RecordBytes(b, i))
  }

  /** Record `i` is the 256 bytes from 256 * i on: the name up to its NUL, and in the last eight the number. */
  lemma RecordPlace(b: Block, i: nat)
    requires i < 16
    ensures RecordAt(b, i).name == CString(b[256 * i..256 * i + 256])
    ensures RecordAt(b, i).no == FromLe(b[256 * i + 248..256 * i + 256])
  {
    assert RecordBytes(b, i)[FILENAME_MAXLEN..] == b[256 * i + 248..256 * i + 256];
  }

  /** A record's bytes after storing `inode_no` and then doing `strcpy(filename, name)`. */
  function StoreRecord(s: seq<Byte>, name: Name, no: nat): (r: seq<Byte>)
    requires |s| == RECORD_SIZE && |name| <= VFS_NAME_MAX
    ensures |r| == RECORD_SIZE
  {
    Overwrite(Overwrite(s, FILENAME_MAXLEN, ToLe(no, 8)), 0, name + [0])
  }

  function PutRecord(b: Block, i: nat, name: Name, no: nat): Block
    requires i < RECORDS_PER_BLOCK && |name| <= VFS_NAME_MAX
  {
    Overwrite(b, i * RECORD_SIZE, StoreRecord(RecordBytes(b, i), name, no))
  }

  /** Whatever its length, the name is read back as it was stored. */
  lemma StoredName(s: seq<Byte>, name: Name, no: nat)
    requires |s| == RECORD_SIZE && VfsName(name)
    ensures DecodeRecord(StoreRecord(s, name, no)).name == name
  {
    var r := StoreRecord(s, name, no);
    assert r[..|name| + 1] == name + [0];
    assert r[..|name|] == name;
    CStringUnique(r, |name|);
  }

  lemma NameInField(t: seq<Byte>, name: Name)
    requires |t| == RECORD_SIZE && |name| < FILENAME_MAXLEN
    ensures Overwrite(t, 0, name + [0])[FILENAME_MAXLEN..] == t[FILENAME_MAXLEN..]
  {
    OverwriteFrame(t, 0, name + [0], FILENAME_MAXLEN, RECORD_SIZE);
  }

  /** A name that fits its field leaves the inode number alone. */
  lemma StoredNumber(s: seq<Byte>, name: Name, no: nat)
    requires |s| == RECORD_SIZE && |name| < FILENAME_MAXLEN && no < Pow256(8)
    ensures FromLe(StoreRecord(s, name, no)[FILENAME_MAXLEN..]) == no
  {
    var le := ToLe(no, 8);
    var t := Overwrite(s, FILENAME_MAXLEN, le);
    NameInField(t, name);
    assert t[FILENAME_MAXLEN..] == le;
    LeRoundTrip(no, 8);
  }

  lemma PutRecordGet(b: Block, i: nat, name: Name, no: nat)
    requires i < RECORDS_PER_BLOCK && VfsName(name) && |name| < FILENAME_MAXLEN && no < Pow256(8)
    ensures RecordAt(PutRecord(b, i, name, no), i) == DirRecord(name, no)
  {
    StoredName(RecordBytes(b, i), name, no);
    StoredNumber(RecordBytes(b, i), name, no);
  }

  lemma PutRecordFrame(b: Block, i: nat, name: Name, no: nat, j: nat)
    requires i < RECORDS_PER_BLOCK && j < RECORDS_PER_BLOCK && i != j && |name| <= VFS_NAME_MAX
    ensures RecordAt(PutRecord(b, i, name, no), j) == RecordAt(b, j)
  {
    OverwriteFrame(b, i * RECORD_SIZE, StoreRecord(RecordBytes(b, i), name, no), j * RECORD_SIZE, (j + 1) * RECORD_SIZE);
  }

  /** The bytes of a small number's field once `strcpy` has run over its first ones. */
  lemma OverrunField(s: seq<Byte>, name: Name, no: nat)
    requires |s| == RECORD_SIZE && FILENAME_MAXLEN <= |name| <= VFS_NAME_MAX && no < 256
    ensures var f := StoreRecord(s, name, no)[FILENAME_MAXLEN..];
            && |f| == 8
            && f[..|name| - FILENAME_MAXLEN] == name[FILENAME_MAXLEN..]
            && forall i :: |name| - FILENAME_MAXLEN <= i < 8 ==> f[i] == 0
  {
    var t := Overwrite(s, FILENAME_MAXLEN, ToLe(no, 8));
    var r := StoreRecord(s, name, no);
    assert t[FILENAME_MAXLEN..RECORD_SIZE] == ToLe(no, 8);
    forall i | 1 <= i < 8 ensures ToLe(no, 8)[i] == 0 { SmallLe(no, 8, i); }
    forall i | |name| < i < RECORD_SIZE ensures r[i] == 0 {
      assert r[i] == t[i] == t[FILENAME_MAXLEN..RECORD_SIZE][i - FILENAME_MAXLEN];
    }
    assert r[..|name| + 1] == name + [0];
  }

  lemma {:induction false} SmallLe(n: nat, w: nat, i: nat)
    requires n < 256 && 1 <= i < w
    ensures ToLe(n, w)[i] == 0
  {
    ZeroLe(w - 1, i - 1);
  }

  lemma {:induction false} ZeroLe(w: nat, i: nat)
    requires i < w
    ensures ToLe(0, w)[i] == 0
    decreases w
  {
    if i > 0 { ZeroLe(w - 1, i - 1); }
  }

  lemma {:induction false} ZerosFromLe(s: seq<Byte>)
    requires forall i :: 0 <= i < |s| ==> s[i] == 0
    ensures FromLe(s) == 0
    decreases |s|
  {
    if s != [] { ZerosFromLe(s[1..]); }
  }

  /** The number read from a field whose first bytes a non-empty NUL-free tail ran over. */
  lemma OverrunValue(f: seq<Byte>, tail: seq<Byte>, no: nat)
    requires |f| == 8 && |tail| < 8 && 0 !in tail && 1 <= no < 256
    requires f[..|tail|] == tail && forall i :: |tail| <= i < 8 ==> f[i] == 0
    ensures FromLe(f) == no <==> |tail| == 1 && tail[0] == no
  {
    if |tail| == 0 {
      ZerosFromLe(f);
    } else if |tail| == 1 {
      assert f[0] == f[..1][0];
      ZerosFromLe(f[1..]);
    } else {
      assert f[1] == f[..|tail|][1] && f[1] in tail;
      assert FromLe(f) == f[0] + 256 * (f[1..][0] + 256 * FromLe(f[1..][1..]));
    }
  }

  lemma StoredRecordAt(b: Block, i: nat, name: Name, no: nat)
    requires i < RECORDS_PER_BLOCK && |name| <= VFS_NAME_MAX
    ensures RecordBytes(PutRecord(b, i, name, no), i) == StoreRecord(RecordBytes(b, i), name, no)
  {
  }

  /**
   * There is no length check before `strcpy`. A record keeps the (one-byte) number
   * it was given exactly when the name fits its field, or is two bytes too long and its
   * last byte happens to equal the number.
   */
  lemma RecordKeepsNumberIff(b: Block, i: nat, name: Name, no: nat)
    requires i < RECORDS_PER_BLOCK && |name| <= 255 && 0 !in name && 1 <= no < 256
    ensures RecordAt(PutRecord(b, i, name, no), i).no == no <==> |name| < 248 || (|name| == 249 && name[248] == no)
  {
    StoredRecordAt(b, i, name, no);
    FieldKeepsNumberIff(RecordBytes(b, i), name, no);
  }

  lemma FieldKeepsNumberIff(s: seq<Byte>, name: Name, no: nat)
    requires |s| == RECORD_SIZE && VfsName(name) && 1 <= no < 256
    ensures FromLe(StoreRecord(s, name, no)[FILENAME_MAXLEN..]) == no
       <==> |name| < FILENAME_MAXLEN || (|name| == FILENAME_MAXLEN + 1 && name[FILENAME_MAXLEN] == no)
  {
    if |name| < FILENAME_MAXLEN {
      Pow256Values();
      StoredNumber(s, name, no);
    } else {
      OverrunField(s, name, no);
      OverrunValue(StoreRecord(s, name, no)[FILENAME_MAXLEN..], name[FILENAME_MAXLEN..], no);
    }
  }
}
