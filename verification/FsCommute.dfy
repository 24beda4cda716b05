/** The accesses that operations of simplefs consist of, and which of them commute. */
module FsCommute {
  import opened Bytes
  import opened Layout
  import opened FsState
  import opened FsInvariant
  import opened FsMachine

  // ---------- accesses ----------

  /** The accesses to shared state that operations consist of. All but the last two concern one in-core inode, `x`. */
  datatype Prim =
    | PutByte(x: nat, off: nat, v: Byte)
    | Resize(x: nat, size: nat)
    | PutName(x: nat, name: Name, no: nat)
    | Bump(x: nat)
    | Save(x: nat)
    | Store(inode: Inode)
    | Count(inode: Inode)

  function Do(fs: Fs, p: Prim): Fs
  {
    match p
    case PutByte(x, off, v) => CopyByte(fs, x, off, v)
    case Resize(x, size) => SetFileSize(fs, x, size)
    case PutName(x, name, no) => WriteRecord(fs, x, name, no)
    case Bump(x) => SetSize(fs, x, if x in fs.core then fs.core[x].size + 1 else 0)
    case Save(x) => SaveInode(fs, x)
    case Store(inode) => StoreInode(fs, inode)
    case Count(inode) => CountInode(fs, inode)
  }

  function DoAll(fs: Fs, ps: seq<Prim>): Fs
    decreases |ps|
  {
    if ps == [] then fs else DoAll(Do(fs, ps[0]), ps[1..])
  }

  predicate Local(p: Prim) { !p.Store? && !p.Count? }

  // ---------- one inode at a time ----------

  /** Everything a file system holds about an in-core inode. */
  datatype View = View(inode: Inode, slot: Inode, block: Block)

  ghost predicate Anchored(fs: Fs, x: nat)
  {
    && x in fs.core && fs.core[x].no == x && fs.core[x].block < |fs.blocks|
    && fs.count <= |fs.table| && SlotOf(fs, x) < fs.count
  }

  /** In-core inodes have slots and blocks of their own. */
  ghost predicate Sane(fs: Fs)
  {
    && fs.count < |fs.table|
    && (forall x :: x in fs.core ==> Anchored(fs, x))
    && (forall x, y :: x in fs.core && y in fs.core && x != y ==> fs.core[x].block != fs.core[y].block)
  }

  ghost function Look(fs: Fs, x: nat): View
    requires Anchored(fs, x)
  {
    View(fs.core[x], fs.table[SlotOf(fs, x)], fs.blocks[fs.core[x].block])
  }

  ghost function Put(fs: Fs, x: nat, v: View, bad: bool): Fs
    requires Anchored(fs, x)
  {
    fs.(core := fs.core[x := v.inode], table := fs.table[SlotOf(fs, x) := v.slot],
        blocks := fs.blocks[fs.core[x].block := v.block], fault := fs.fault || bad)
  }

  /** What a local access makes of the view of its inode. */
  function Act(p: Prim, v: View): View
    requires Local(p)
  {
    match p
    case PutByte(_, off, b) => if off < BLOCK_SIZE then v.(block := v.block[off := b]) else v
    case Resize(_, size) => v.(inode := v.inode.(size := size))
    case PutName(_, name, no) =>
      if v.inode.size < RECORDS_PER_BLOCK && |name| <= VFS_NAME_MAX
      then v.(block := PutRecord(v.block, v.inode.size, name, no)) else v
    case Bump(_) => v.(inode := v.inode.(size := v.inode.size + 1))
    case Save(_) => v.(slot := v.inode)
  }

  predicate Bad(p: Prim, v: View)
    requires Local(p)
  {
    match p
    case PutByte(_, off, _) => off >= BLOCK_SIZE
    case Resize(_, size) => size > BLOCK_SIZE
    case PutName(_, name, _) => v.inode.size >= RECORDS_PER_BLOCK || |name| >= FILENAME_MAXLEN
    case _ => false
  }

  lemma DoIsAct(fs: Fs, p: Prim)
    requires Local(p) && Anchored(fs, p.x) && fs.count < |fs.table|
    ensures Do(fs, p) == Put(fs, p.x, Act(p, Look(fs, p.x)), Bad(p, Look(fs, p.x)))
  {
    hide PutRecord, SlotFrom;
    assert fs.core[p.x := fs.core[p.x]] == fs.core;
    if p.Save? { assert SearchSlot(fs.table, fs.count, p.x) == SlotOf(fs, p.x); }
  }

  /** A view of inode `x` that keeps its number and its block. */
  ghost predicate Fits(fs: Fs, x: nat, v: View)
    requires Anchored(fs, x)
  {
    v.inode.no == x && v.inode.block == fs.core[x].block && v.slot.no == x
  }

  lemma ActFits(fs: Fs, p: Prim)
    requires Local(p) && Anchored(fs, p.x)
    ensures Fits(fs, p.x, Act(p, Look(fs, p.x)))
  {
  }

  /** A change of one inode moves no slot, and leaves what is held about the others. */
  lemma PutSlots(fs: Fs, x: nat, v: View, bad: bool, y: nat)
    requires Anchored(fs, x) && Fits(fs, x, v)
    ensures SlotOf(Put(fs, x, v, bad), y) == SlotOf(fs, y)
  {
    SlotSame(fs.table, Put(fs, x, v, bad).table, fs.count, y);
  }

  lemma PutLook(fs: Fs, x: nat, v: View, bad: bool, y: nat)
    requires Sane(fs) && x in fs.core && y in fs.core && x != y && Fits(fs, x, v)
    ensures Anchored(Put(fs, x, v, bad), y) && Look(Put(fs, x, v, bad), y) == Look(fs, y)
  {
    PutSlots(fs, x, v, bad, y);
  }

  lemma PutSane(fs: Fs, x: nat, v: View, bad: bool)
    requires Sane(fs) && x in fs.core && Fits(fs, x, v)
    ensures Sane(Put(fs, x, v, bad))
  {
    hide SlotFrom;
    forall y | y in fs.core ensures Anchored(Put(fs, x, v, bad), y) {
      PutSlots(fs, x, v, bad, y);
    }
  }

  lemma PutsCommute(fs: Fs, x: nat, v: View, bad: bool, y: nat, w: View, worse: bool)
    requires Sane(fs) && x in fs.core && y in fs.core && x != y && Fits(fs, x, v) && Fits(fs, y, w)
    ensures Anchored(Put(fs, x, v, bad), y) && Anchored(Put(fs, y, w, worse), x)
    ensures Put(Put(fs, x, v, bad), y, w, worse) == Put(Put(fs, y, w, worse), x, v, bad)
  {
    hide SlotFrom;
    PutSlots(fs, x, v, bad, y);
    PutSlots(fs, y, w, worse, x);
    assert fs.core[x := v.inode][y := w.inode] == fs.core[y := w.inode][x := v.inode];
  }

  // ---------- accesses that commute ----------

  /** The access finds what it needs. */
  ghost predicate Ok(fs: Fs, p: Prim)
  {
    match p
    case Store(i) => fs.count + 1 < |fs.table|
    case Count(i) =>
      && fs.count + 1 < |fs.table| && fs.table[fs.count] == i && i.no !in fs.core && i.block < |fs.blocks|
      && (forall k :: 0 <= k < fs.count ==> fs.table[k].no != i.no)
      && (forall x :: x in fs.core ==> fs.core[x].block != i.block)
    case _ => p.x in fs.core
  }

  /** The same inodes in core, with the same numbers and blocks, in the same slots. */
  ghost predicate SameFrame(fs: Fs, fs': Fs)
  {
    && fs'.core.Keys == fs.core.Keys && fs'.count == fs.count < |fs.table| == |fs'.table| && |fs'.blocks| == |fs.blocks|
    && SameNumbers(fs.table, fs'.table, fs.count) && fs'.table[fs.count] == fs.table[fs.count] && fs'.free == fs.free
    && (forall x :: x in fs.core ==> fs'.core[x].block == fs.core[x].block)
  }

  lemma PutFrame(fs: Fs, x: nat, v: View, bad: bool)
    requires Sane(fs) && x in fs.core && Fits(fs, x, v)
    ensures SameFrame(fs, Put(fs, x, v, bad))
  {
    assert Anchored(fs, x);
    hide SlotFrom, Sane;
    assert Put(fs, x, v, bad).core.Keys == fs.core.Keys;
  }

  lemma LocalSane(fs: Fs, p: Prim)
    requires Sane(fs) && Local(p) && Ok(fs, p)
    ensures Sane(Do(fs, p)) && SameFrame(fs, Do(fs, p))
  {
    hide Do, Act, Bad, Put, SlotFrom, Fits, SameFrame, Sane;
    Anchors(fs, p.x);
    DoIsAct(fs, p);
    ActFits(fs, p);
    PutSane(fs, p.x, Act(p, Look(fs, p.x)), Bad(p, Look(fs, p.x)));
    PutFrame(fs, p.x, Act(p, Look(fs, p.x)), Bad(p, Look(fs, p.x)));
  }

  lemma LocalsCommute(fs: Fs, p: Prim, q: Prim)
    requires Sane(fs) && Local(p) && Local(q) && Ok(fs, p) && Ok(fs, q) && p.x != q.x
    ensures Do(Do(fs, p), q) == Do(Do(fs, q), p)
  {
    hide Do, Act, Bad, Put, Sane, SlotFrom;
    LocalSane(fs, p);
    LocalSane(fs, q);
    Anchors(fs, p.x);
    Anchors(fs, q.x);
    ActFits(fs, p);
    ActFits(fs, q);
    var v, w := Look(fs, p.x), Look(fs, q.x);
    PutLook(fs, p.x, Act(p, v), Bad(p, v), q.x);
    PutLook(fs, q.x, Act(q, w), Bad(q, w), p.x);
    DoIsAct(fs, p);
    DoIsAct(fs, q);
    Anchors(Do(fs, p), q.x);
    Anchors(Do(fs, q), p.x);
    DoIsAct(Do(fs, p), q);
    DoIsAct(Do(fs, q), p);
    PutsCommute(fs, p.x, Act(p, v), Bad(p, v), q.x, Act(q, w), Bad(q, w));
  }

  lemma Anchors(fs: Fs, x: nat)
    requires Sane(fs) && x in fs.core
    ensures Anchored(fs, x) && fs.count < |fs.table|
  {
  }

  // -- storing and counting a new inode --

  lemma StoreSane(fs: Fs, i: Inode)
    requires Sane(fs) && Ok(fs, Store(i))
    ensures Sane(StoreInode(fs, i))
    ensures forall x :: SlotOf(StoreInode(fs, i), x) == SlotOf(fs, x)
  {
    hide SlotFrom;
    forall x ensures SlotOf(StoreInode(fs, i), x) == SlotOf(fs, x) {
      SlotSame(fs.table, StoreInode(fs, i).table, fs.count, x);
    }
  }

  lemma CountSlots(fs: Fs, i: Inode, x: nat)
    requires Sane(fs) && Ok(fs, Count(i))
    ensures x in fs.core ==> SlotOf(CountInode(fs, i), x) == SlotOf(fs, x)
    ensures x == i.no ==> SlotOf(CountInode(fs, i), x) == fs.count
    ensures SlotOf(fs, x) == fs.count && x != i.no ==> SlotOf(CountInode(fs, i), x) == fs.count + 1
    ensures SlotOf(fs, x) < fs.count ==> SlotOf(CountInode(fs, i), x) == SlotOf(fs, x)
  {
    if x in fs.core { Anchors(fs, x); }
    if SlotOf(fs, x) < fs.count { SlotGrows(fs.table, fs.count, fs.count + 1, x); }
  }

  lemma CountSane(fs: Fs, i: Inode)
    requires Sane(fs) && Ok(fs, Count(i))
    ensures Sane(CountInode(fs, i))
  {
    hide SlotFrom;
    forall x | x in CountInode(fs, i).core ensures Anchored(CountInode(fs, i), x) {
      CountSlots(fs, i, x);
    }
  }

  lemma OkSane(fs: Fs, p: Prim)
    requires Sane(fs) && Ok(fs, p)
    ensures Sane(Do(fs, p)) && fs.core.Keys <= Do(fs, p).core.Keys
  {
    if Local(p) {
      LocalSane(fs, p);
    } else if p.Store? {
      StoreSane(fs, p.inode);
    } else {
      CountSane(fs, p.inode);
    }
  }

  lemma StoreCommutes(fs: Fs, i: Inode, q: Prim)
    requires Sane(fs) && Ok(fs, Store(i)) && Local(q) && Ok(fs, q)
    ensures Do(StoreInode(fs, i), q) == StoreInode(Do(fs, q), i)
  {
    hide Do, Act, Bad, SlotFrom, Sane;
    StoreSane(fs, i);
    Anchors(fs, q.x);
    Anchors(StoreInode(fs, i), q.x);
    DoIsAct(fs, q);
    DoIsAct(StoreInode(fs, i), q);
    assert Look(StoreInode(fs, i), q.x) == Look(fs, q.x);
  }

  lemma CountCommutes(fs: Fs, i: Inode, q: Prim)
    requires Sane(fs) && Ok(fs, Count(i)) && Local(q) && Ok(fs, q)
    ensures Do(CountInode(fs, i), q) == CountInode(Do(fs, q), i)
  {
    hide Do, Act, Bad, SlotFrom, Sane;
    CountSane(fs, i);
    CountSlots(fs, i, q.x);
    Anchors(fs, q.x);
    Anchors(CountInode(fs, i), q.x);
    DoIsAct(fs, q);
    DoIsAct(CountInode(fs, i), q);
    assert Look(CountInode(fs, i), q.x) == Look(fs, q.x);
    var v := Act(q, Look(fs, q.x));
    assert fs.core[q.x := v.inode][i.no := i] == fs.core[i.no := i][q.x := v.inode];
  }

  // -- accesses to the same inode --

  /** Data bytes at different offsets, or of the same value, and data bytes next to sizes and saves. */
  predicate SwapsWithin(p: Prim, q: Prim)
  {
    || (p.PutByte? && q.PutByte? && (p.off != q.off || p.v == q.v))
    || (p.PutByte? && (q.Resize? || q.Save?))
    || (q.PutByte? && (p.Resize? || p.Save?))
  }

  /** The two accesses may change places. */
  predicate Swaps(p: Prim, q: Prim)
  {
    !Local(p) || !Local(q) || p.x != q.x || SwapsWithin(p, q)
  }

  lemma ViewsCommute(p: Prim, q: Prim, v: View)
    requires SwapsWithin(p, q)
    ensures Act(p, Act(q, v)) == Act(q, Act(p, v))
    ensures Bad(p, Act(q, v)) == Bad(p, v) && Bad(q, Act(p, v)) == Bad(q, v)
  {
  }

  lemma PutTwice(fs: Fs, x: nat, v: View, bad: bool, w: View, worse: bool)
    requires Anchored(fs, x) && Fits(fs, x, v)
    ensures Anchored(Put(fs, x, v, bad), x) && Look(Put(fs, x, v, bad), x) == v
    ensures Put(Put(fs, x, v, bad), x, w, worse) == Put(fs, x, w, bad || worse)
  {
    hide SlotFrom;
    PutSlots(fs, x, v, bad, x);
    assert fs.core[x := v.inode][x := w.inode] == fs.core[x := w.inode];
  }

  lemma WithinCommute(fs: Fs, p: Prim, q: Prim)
    requires Sane(fs) && SwapsWithin(p, q) && p.x == q.x && p.x in fs.core
    ensures Do(Do(fs, p), q) == Do(Do(fs, q), p)
  {
    hide Do, Act, Bad, Put, Sane, SlotFrom, Fits;
    Anchors(fs, p.x);
    var v := Look(fs, p.x);
    ActFits(fs, p);
    ActFits(fs, q);
    DoIsAct(fs, p);
    DoIsAct(fs, q);
    ViewsCommute(p, q, v);
    LocalSane(fs, p);
    LocalSane(fs, q);
    Anchors(Do(fs, p), p.x);
    Anchors(Do(fs, q), p.x);
    PutTwice(fs, p.x, Act(p, v), Bad(p, v), Act(q, Act(p, v)), Bad(q, Act(p, v)));
    PutTwice(fs, p.x, Act(q, v), Bad(q, v), Act(p, Act(q, v)), Bad(p, Act(q, v)));
    DoIsAct(Do(fs, p), q);
    DoIsAct(Do(fs, q), p);
    PutFlags(fs, p.x, Act(p, Act(q, v)), Bad(p, v), Bad(q, v));
  }

  lemma PutFlags(fs: Fs, x: nat, v: View, a: bool, b: bool)
    requires Anchored(fs, x)
    ensures Put(fs, x, v, a || b) == Put(fs, x, v, b || a)
  {
  }

  /** An access to one inode commutes with every access to another, and with some to the same one. */
  lemma Commute(fs: Fs, p: Prim, q: Prim)
    requires Sane(fs) && Ok(fs, p) && Local(q) && Ok(fs, q) && Swaps(p, q)
    ensures Do(Do(fs, p), q) == Do(Do(fs, q), p) && Ok(Do(fs, q), p)
  {
    hide Sane, SwapsWithin;
    LocalSane(fs, q);
    if Local(p) {
      hide Do, SameFrame;
      if p.x != q.x { LocalsCommute(fs, p, q); } else { WithinCommute(fs, p, q); }
      SameCore(fs, Do(fs, q));
    } else if p.Store? {
      StoreCommutes(fs, p.inode, q);
    } else {
      CountCommutes(fs, p.inode, q);
    }
  }

  lemma SameCore(fs: Fs, fs': Fs)
    requires SameFrame(fs, fs')
    ensures fs'.core.Keys == fs.core.Keys
  {
  }

  // ---------- sequences of accesses ----------

  ghost predicate OkAll(fs: Fs, ps: seq<Prim>)
    decreases |ps|
  {
    ps == [] || (Ok(fs, ps[0]) && OkAll(Do(fs, ps[0]), ps[1..]))
  }

  predicate AwayFrom(ps: seq<Prim>, x: nat)
  {
    forall k :: 0 <= k < |ps| && Local(ps[k]) ==> ps[k].x != x
  }

  predicate AllSwap(ps: seq<Prim>, q: Prim)
  {
    forall k :: 0 <= k < |ps| ==> Swaps(ps[k], q)
  }

  lemma {:induction false} DoAllAppend(fs: Fs, ps: seq<Prim>, qs: seq<Prim>)
    ensures DoAll(fs, ps + qs) == DoAll(DoAll(fs, ps), qs)
    ensures OkAll(fs, ps + qs) <==> OkAll(fs, ps) && OkAll(DoAll(fs, ps), qs)
    decreases |ps|
  {
    if ps == [] {
      assert ps + qs == qs;
    } else {
      assert (ps + qs)[1..] == ps[1..] + qs;
      DoAllAppend(Do(fs, ps[0]), ps[1..], qs);
    }
  }

  /** An access moves ahead of others that it may change places with. */
  lemma {:induction false} MoveAhead(fs: Fs, ps: seq<Prim>, q: Prim)
    requires Sane(fs) && OkAll(fs, ps) && Local(q) && Ok(fs, q) && AllSwap(ps, q)
    ensures Do(DoAll(fs, ps), q) == DoAll(Do(fs, q), ps) && OkAll(Do(fs, q), ps)
    decreases |ps|
  {
    hide Sane, Do, Ok, Swaps;
    if ps != [] {
      OkSane(fs, ps[0]);
      StillOk(fs, ps[0], q);
      Commute(fs, ps[0], q);
      MoveAhead(Do(fs, ps[0]), ps[1..], q);
    }
  }

  lemma StillOk(fs: Fs, p: Prim, q: Prim)
    requires Sane(fs) && Ok(fs, p) && Local(q) && Ok(fs, q)
    ensures Ok(Do(fs, p), q)
  {
    OkSane(fs, p);
  }

  /** Accesses to single inodes, all of them in core. */
  ghost predicate Tame(fs: Fs, qs: seq<Prim>)
  {
    forall k :: 0 <= k < |qs| ==> Local(qs[k]) && qs[k].x in fs.core
  }

  predicate Apart(ps: seq<Prim>, qs: seq<Prim>)
  {
    forall k :: 0 <= k < |qs| ==> AllSwap(ps, qs[k])
  }

  lemma AwayIsApart(ps: seq<Prim>, qs: seq<Prim>)
    requires forall k :: 0 <= k < |qs| && Local(qs[k]) ==> AwayFrom(ps, qs[k].x)
    ensures Apart(ps, qs)
  {
  }

  /** So does a sequence of such accesses. */
  lemma {:induction false} MoveAllAhead(fs: Fs, ps: seq<Prim>, qs: seq<Prim>)
    requires Sane(fs) && OkAll(fs, ps) && Tame(fs, qs) && Apart(ps, qs)
    ensures DoAll(DoAll(fs, ps), qs) == DoAll(DoAll(fs, qs), ps)
    ensures OkAll(DoAll(fs, qs), ps)
    decreases |qs|
  {
    hide Sane, Do, AllSwap;
    if qs != [] {
      MoveAhead(fs, ps, qs[0]);
      OkSane(fs, qs[0]);
      MoveAllAhead(Do(fs, qs[0]), ps, qs[1..]);
    }
  }

  lemma {:induction false} OkAllSane(fs: Fs, ps: seq<Prim>)
    requires Sane(fs) && OkAll(fs, ps)
    ensures Sane(DoAll(fs, ps)) && fs.core.Keys <= DoAll(fs, ps).core.Keys
    decreases |ps|
  {
    hide Sane, Do, Ok;
    if ps != [] {
      OkSane(fs, ps[0]);
      OkAllSane(Do(fs, ps[0]), ps[1..]);
    }
  }

  lemma {:induction false} TameOk(fs: Fs, qs: seq<Prim>)
    requires Sane(fs) && Tame(fs, qs)
    ensures OkAll(fs, qs) && Sane(DoAll(fs, qs)) && SameFrame(fs, DoAll(fs, qs))
    decreases |qs|
  {
    hide Sane, Do;
    if qs != [] {
      LocalSane(fs, qs[0]);
      TameOk(Do(fs, qs[0]), qs[1..]);
    } else {
      Below(fs);
    }
  }

  /** No access looks at the bitmap. */
  lemma {:induction false} FreeAside(fs: Fs, free: set<nat>, qs: seq<Prim>)
    ensures DoAll(fs.(free := free), qs) == DoAll(fs, qs).(free := free)
    decreases |qs|
  {
    hide PutRecord, SlotFrom;
    if qs != [] {
      FreeAside(Do(fs, qs[0]), free, qs[1..]);
    }
  }

  // -- loading an inode --

  lemma LoadPastLocal(fs: Fs, p: Prim, no: nat)
    requires Sane(fs) && Local(p) && Ok(fs, p)
    ensures LoadInode(Do(fs, p), no) == Do(LoadInode(fs, no), p)
  {
    hide Do, Act, Bad, SlotFrom, Sane;
    LocalSane(fs, p);
    Anchors(fs, p.x);
    SlotSame(fs.table, Do(fs, p).table, fs.count, no);
    if no !in fs.core && SlotOf(fs, no) < fs.count {
      var fs' := LoadInode(fs, no);
      assert SlotOf(fs', p.x) == SlotOf(fs, p.x);
      assert Look(fs', p.x) == Look(fs, p.x);
      DoIsAct(fs, p);
      DoIsAct(fs', p);
      var v := Act(p, Look(fs, p.x));
      var i := fs.table[SlotOf(fs, no)];
      assert fs.core[p.x := v.inode][no := i] == fs.core[no := i][p.x := v.inode];
    }
  }

  lemma LoadPast(fs: Fs, p: Prim, no: nat)
    requires Sane(fs) && Ok(fs, p)
    ensures LoadInode(Do(fs, p), no) == Do(LoadInode(fs, no), p)
  {
    hide SlotFrom, Sane;
    Below(fs);
    if Local(p) {
      LoadPastLocal(fs, p, no);
    } else if p.Store? {
      StoreSane(fs, p.inode);
    } else {
      CountSlots(fs, p.inode, no);
      var i := p.inode;
      if SlotOf(fs, no) < fs.count {
        var j := fs.table[SlotOf(fs, no)];
        assert fs.core[i.no := i][no := j] == fs.core[no := j][i.no := i];
      }
    }
  }

  lemma Below(fs: Fs)
    requires Sane(fs)
    ensures fs.count < |fs.table|
  {
  }

  lemma {:induction false} LoadPastAll(fs: Fs, ps: seq<Prim>, no: nat)
    requires Sane(fs) && OkAll(fs, ps)
    ensures LoadInode(DoAll(fs, ps), no) == DoAll(LoadInode(fs, no), ps)
    decreases |ps|
  {
    hide Sane, Do, Ok, LoadInode;
    if ps != [] {
      OkSane(fs, ps[0]);
      LoadPast(fs, ps[0], no);
      LoadPastAll(Do(fs, ps[0]), ps[1..], no);
    }
  }
}
