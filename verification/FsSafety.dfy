/**
 * What every interleaving keeps: the consistency of the file system up to the operations
 * under way, and what each thread may rely on at each point of its own operation.
 */
module FsSafety {
  import opened Bytes
  import opened Layout
  import opened FsState
  import opened FsInvariant
  import opened FsMachine
  import opened FsLocking

  // ---------- what is pending ----------

  /** The block the thread has taken and not yet given to a slot. */
  function LimboOf(th: Thread): set<nat>
  {
    match th.pc
    case CRelS1 => if th.err == 0 then {th.inode.block} else {}
    case CWantM2 | CWantS2 | CStore | CIncr => {th.inode.block}
    case _ => {}
  }

  predicate NotLinkedPc(pc: Pc)
  {
    match pc
    case CRelS2 | CRelM2 | CRecord | CWantM3 | CBump | CWantS3 | CSave => true
    case _ => false
  }

  /** The slot the thread has filled and not yet linked into its directory. */
  function OrphansOf(th: Thread): set<nat>
  {
    if NotLinkedPc(th.pc) then {th.count} else {}
  }

  /** The inode whose in-core copy the thread has changed and not yet saved. */
  function DirtyOf(th: Thread): set<nat>
  {
    match th.pc
    case CWantS3 | CSave | WWantS | WSave => {th.no}
    case _ => {}
  }

  function Limbo(m: Machine): set<nat>
  {
    if DirLock in m.owner && m.owner[DirLock] < |m.threads| then LimboOf(m.threads[m.owner[DirLock]]) else {}
  }

  function Orphans(m: Machine): set<nat>
  {
    if DirLock in m.owner && m.owner[DirLock] < |m.threads| then OrphansOf(m.threads[m.owner[DirLock]]) else {}
  }

  function Dirty(m: Machine): set<nat>
  {
    if InodesLock in m.owner && m.owner[InodesLock] < |m.threads| then DirtyOf(m.threads[m.owner[InodesLock]]) else {}
  }

  // ---------- what a thread relies on ----------

  predicate WritePc(pc: Pc)
  {
    match pc
    case WCopy | WWantM | WSetSize | WWantS | WSave | WRelS | WRelM => true
    case _ => false
  }

  /** Between reading `inodes_count` and adding the inode. */
  predicate CountedPc(pc: Pc)
  {
    match pc
    case CRelM1 | CCheck | CWantS1 | CAlloc | CRelS1 | CWantM2 | CWantS2 | CStore | CIncr => true
    case _ => false
  }

  predicate CheckedPc(pc: Pc)
  {
    match pc
    case CWantS1 | CAlloc | CRelS1 | CWantM2 | CWantS2 | CStore | CIncr => true
    case _ => false
  }

  ghost predicate Counted(fs: Fs, th: Thread)
  {
    && th.count == fs.count
    && (CheckedPc(th.pc) ==> th.count < MAX_OBJECTS && (IsDir(th.mode) || IsReg(th.mode)))
    && (CheckedPc(th.pc) && th.pc != CRelS1 ==> th.err == 0)
    && (LimboOf(th) != {} ==> th.inode == Inode(th.mode, NewNumber(th.count), th.inode.block, 0))
    && (th.pc == CIncr ==> fs.count < |fs.table| && fs.table[fs.count] == th.inode)
  }

  ghost predicate NotLinked(fs: Fs, th: Thread)
  {
    && Shape(fs) && fs.count == th.count + 1 && th.err == 0
    && th.inode.no == NewNumber(th.count) == fs.table[th.count].no && fs.table[th.count].mode == th.mode
    && SlotOf(fs, th.no) < th.count
    && (th.pc in {CRelS2, CRelM2, CRecord, CWantM3, CBump} ==> CleanDir(fs, th.no))
    && (th.pc in {CWantM3, CBump} ==> RecordPending(fs, th))
    && (th.pc in {CWantS3, CSave} ==> GainedRecord(fs, th.no, th.count))
  }

  /** The record just past the directory's last one is the new object's. */
  ghost predicate RecordPending(fs: Fs, th: Thread)
  {
    && th.no in fs.core && fs.core[th.no].block < |fs.blocks| && fs.core[th.no].size < RECORDS_PER_BLOCK
    && RecordAt(fs.blocks[fs.core[th.no].block], fs.core[th.no].size) == DirRecord(th.name, th.inode.no)
  }

  ghost predicate Writing(fs: Fs, th: Thread)
  {
    OpenFile(fs, th.no) && th.err == 0 && (th.pc in {WWantS, WSave} ==> fs.core[th.no].size <= BLOCK_SIZE)
  }

  ghost predicate Creating(fs: Fs, th: Thread)
  {
    && th.no in fs.core && IsDir(fs.core[th.no].mode) && VfsName(th.name)
    && (CountedPc(th.pc) ==> Counted(fs, th))
    && (NotLinkedPc(th.pc) ==> NotLinked(fs, th))
  }

  ghost predicate ThreadOk(fs: Fs, th: Thread)
  {
    th.pc != Idle ==> if WritePc(th.pc) then Writing(fs, th) else Creating(fs, th)
  }

  ghost predicate AllOk(m: Machine)
  {
    && Consistent(m.fs, Limbo(m), Orphans(m), Dirty(m))
    && forall t :: 0 <= t < |m.threads| ==> ThreadOk(m.fs, m.threads[t])
  }

  ghost predicate Inv(m: Machine)
  {
    LocksOk(m) && (!m.fs.fault ==> AllOk(m))
  }

  // ---------- the step of the acting thread ----------

  /** What is pending, as the acting thread knows it through the locks it holds. */
  ghost predicate ActorCtx(th: Thread, limbo: set<nat>, orphans: set<nat>, dirty: set<nat>)
  {
    && (HoldsD(th.pc) ==> limbo == LimboOf(th) && orphans == OrphansOf(th))
    && (HoldsM(th.pc) ==> dirty == DirtyOf(th))
  }

  ghost predicate ActorOk(fs: Fs, th: Thread, limbo: set<nat>, orphans: set<nat>, dirty: set<nat>)
  {
    Consistent(fs, limbo, orphans, dirty) && ThreadOk(fs, th) && ActorCtx(th, limbo, orphans, dirty)
  }

  ghost predicate ActorDone(fs: Fs, th: Thread, pc: Pc, limbo: set<nat>, orphans: set<nat>, dirty: set<nat>)
  {
    && ThreadOk(fs, th)
    && Consistent(fs, if HoldsD(pc) then LimboOf(th) else limbo, if HoldsD(pc) then OrphansOf(th) else orphans,
                  if HoldsM(pc) then DirtyOf(th) else dirty)
  }

  predicate Silent(pc: Pc)
  {
    pc !in {CAlloc, CStore, CIncr, CRecord, CBump, CSave, WCopy, WSetSize, WSave}
  }

  lemma SilentThread(fs: Fs, th: Thread, noMem: bool)
    requires ThreadOk(fs, th) && Silent(th.pc)
    ensures ThreadOk(fs, Next(fs, th, noMem))
  {
  }

  lemma SilentPending(fs: Fs, th: Thread, noMem: bool)
    requires Silent(th.pc)
    ensures LimboOf(Next(fs, th, noMem)) == LimboOf(th) && OrphansOf(Next(fs, th, noMem)) == OrphansOf(th)
    ensures DirtyOf(Next(fs, th, noMem)) == DirtyOf(th)
  {
  }

  lemma SilentActs(fs: Fs, th: Thread, noMem: bool, limbo: set<nat>, orphans: set<nat>, dirty: set<nat>)
    requires ActorOk(fs, th, limbo, orphans, dirty) && Silent(th.pc)
    ensures ActorDone(Effect(fs, th), Next(fs, th, noMem), th.pc, limbo, orphans, dirty)
  {
    SilentThread(fs, th, noMem);
    SilentPending(fs, th, noMem);
  }

  /** The parts of consistency that the threads' own facts lean on. */
  lemma Basics(fs: Fs, limbo: set<nat>, orphans: set<nat>, dirty: set<nat>)
    requires Consistent(fs, limbo, orphans, dirty)
    ensures Flat(fs, limbo) && CoreOk(fs, dirty)
  {
  }

  lemma AllocActs(fs: Fs, th: Thread, noMem: bool, dirty: set<nat>)
    requires ActorOk(fs, th, {}, {}, dirty) && th.pc == CAlloc
    ensures ActorDone(Effect(fs, th), Next(fs, th, noMem), th.pc, {}, {}, dirty)
  {
    hide Consistent;
    if FreeBlock(fs) < MAX_OBJECTS { TakeBlockKeeps(fs, dirty); }
  }

  lemma StoreActs(fs: Fs, th: Thread, noMem: bool)
    requires ActorOk(fs, th, {th.inode.block}, {}, {}) && th.pc == CStore
    ensures ActorDone(Effect(fs, th), Next(fs, th, noMem), th.pc, {th.inode.block}, {}, {})
  {
    hide Consistent, Flat, CoreOk;
    Basics(fs, {th.inode.block}, {}, {});
    StoreInodeKeeps(fs, th.inode, {th.inode.block}, {}, {});
    Basics(Effect(fs, th), {th.inode.block}, {}, {});
    StoredHere(fs, th, noMem);
  }

  lemma StoredHere(fs: Fs, th: Thread, noMem: bool)
    requires Flat(fs, {th.inode.block}) && ThreadOk(fs, th) && th.pc == CStore
    ensures ThreadOk(Effect(fs, th), Next(fs, th, noMem))
  {
  }

  /** An in-core inode of a file system with nothing unsaved: its slot, and that the next number is not its own. */
  lemma CleanSlot(fs: Fs, no: nat, limbo: set<nat>)
    requires Flat(fs, limbo) && CoreOk(fs, {}) && no in fs.core
    ensures Shape(fs) && SlotOf(fs, no) < fs.count && fs.core[no] == fs.table[SlotOf(fs, no)]
    ensures no != NewNumber(fs.count)
  {
    assert CoreEntryOk(fs, no, {});
  }

  /** The directory of a counted create: clean, and in an earlier slot than the new object. */
  lemma CountedDir(fs: Fs, th: Thread)
    requires Flat(fs, {th.inode.block}) && CoreOk(fs, {}) && ThreadOk(fs, th) && th.pc == CIncr
    ensures FreshInode(fs, th.inode)
    ensures ThreadOk(CountInode(fs, th.inode), th.(pc := CRelS2))
  {
    hide Flat, CoreOk, SlotFrom;
    CleanSlot(fs, th.no, {th.inode.block});
    SlotGrows(fs.table, fs.count, fs.count + 1, th.no);
    assert SlotOf(CountInode(fs, th.inode), th.no) == SlotOf(fs, th.no);
  }

  lemma IncrActs(fs: Fs, th: Thread, noMem: bool)
    requires ActorOk(fs, th, {th.inode.block}, {}, {}) && th.pc == CIncr
    ensures ActorDone(Effect(fs, th), Next(fs, th, noMem), th.pc, {th.inode.block}, {}, {})
  {
    hide Consistent, Flat, CoreOk, FreshInode;
    Basics(fs, {th.inode.block}, {}, {});
    CountedDir(fs, th);
    CountInodeKeeps(fs, th.inode, {});
  }

  lemma RecordHere(fs: Fs, th: Thread)
    requires Flat(fs, {}) && ThreadOk(fs, th) && th.pc == CRecord && !Effect(fs, th).fault
    ensures RecordFits(fs, th.no, th.name)
    ensures ThreadOk(Effect(fs, th), th.(pc := CWantM3))
  {
    hide Flat, PutRecord, RecordAt, SlotFrom, Pow256;
    var d := fs.core[th.no];
    Pow256Values();
    TableShape(fs, {});
    PutRecordGet(fs.blocks[d.block], d.size, th.name, th.inode.no);
  }

  lemma TableShape(fs: Fs, limbo: set<nat>)
    requires Flat(fs, limbo)
    ensures Shape(fs)
  {
  }

  lemma RecordActs(fs: Fs, th: Thread, noMem: bool, dirty: set<nat>)
    requires ActorOk(fs, th, {}, {th.count}, dirty) && th.pc == CRecord && !Effect(fs, th).fault
    ensures ActorDone(Effect(fs, th), Next(fs, th, noMem), th.pc, {}, {th.count}, dirty)
  {
    hide Consistent, Flat, CoreOk;
    Basics(fs, {}, {th.count}, dirty);
    RecordHere(fs, th);
    WriteRecordKeeps(fs, th.no, th.name, th.inode.no, {}, {th.count}, dirty);
  }

  lemma BumpHere(fs: Fs, th: Thread)
    requires Shape(fs) && ThreadOk(fs, th) && th.pc == CBump
    ensures ThreadOk(Effect(fs, th), th.(pc := CWantS3))
  {
    var fs' := Effect(fs, th);
    assert SlotOf(fs', th.no) == SlotOf(fs, th.no);
    assert GainedRecord(fs', th.no, th.count);
  }

  lemma BumpActs(fs: Fs, th: Thread, noMem: bool)
    requires ActorOk(fs, th, {}, {th.count}, {}) && th.pc == CBump
    ensures ActorDone(Effect(fs, th), Next(fs, th, noMem), th.pc, {}, {th.count}, {})
  {
    hide Consistent, Flat, CoreOk;
    Basics(fs, {}, {th.count}, {});
    BumpHere(fs, th);
    SetSizeKeeps(fs, th.no, fs.core[th.no].size + 1, {}, {th.count});
  }

  lemma SaveDirActs(fs: Fs, th: Thread, noMem: bool)
    requires ActorOk(fs, th, {}, {th.count}, {th.no}) && th.pc == CSave
    ensures ActorDone(Effect(fs, th), Next(fs, th, noMem), th.pc, {}, {th.count}, {th.no})
    ensures Next(fs, th, noMem).err == 0
  {
    hide Consistent, Flat, CoreOk;
    Basics(fs, {}, {th.count}, {th.no});
    SaveDirKeeps(fs, th.no, th.count);
    SaveSlot(fs, th.no, {th.no});
  }

  lemma CopyActs(fs: Fs, th: Thread, noMem: bool, limbo: set<nat>, orphans: set<nat>, dirty: set<nat>)
    requires ActorOk(fs, th, limbo, orphans, dirty) && th.pc == WCopy && !Effect(fs, th).fault
    ensures ActorDone(Effect(fs, th), Next(fs, th, noMem), th.pc, limbo, orphans, dirty)
  {
    hide Consistent, Creating, LimboOf, OrphansOf;
    if th.done < |th.data| {
      CopyByteKeeps(fs, th.no, th.pos + th.done, th.data[th.done], limbo, orphans, dirty);
    }
  }

  lemma SizeActs(fs: Fs, th: Thread, noMem: bool, limbo: set<nat>, orphans: set<nat>)
    requires ActorOk(fs, th, limbo, orphans, {}) && th.pc == WSetSize && !Effect(fs, th).fault
    ensures ActorDone(Effect(fs, th), Next(fs, th, noMem), th.pc, limbo, orphans, {})
  {
    hide Consistent, Creating, LimboOf, OrphansOf;
    assert Effect(fs, th) == SetSize(fs, th.no, th.pos + |th.data|);
    SetSizeKeeps(fs, th.no, th.pos + |th.data|, limbo, orphans);
  }

  lemma SaveFileActs(fs: Fs, th: Thread, noMem: bool, limbo: set<nat>, orphans: set<nat>)
    requires ActorOk(fs, th, limbo, orphans, {th.no}) && th.pc == WSave
    ensures ActorDone(Effect(fs, th), Next(fs, th, noMem), th.pc, limbo, orphans, {th.no})
    ensures Next(fs, th, noMem).err == 0
  {
    hide Consistent, Flat, CoreOk;
    Basics(fs, limbo, orphans, {th.no});
    SaveFileKeeps(fs, th.no, limbo, orphans);
    SaveSlot(fs, th.no, {th.no});
  }

  /** Whatever the acting thread's step is, it keeps consistency and its own facts. */
  lemma Acts(fs: Fs, th: Thread, noMem: bool, limbo: set<nat>, orphans: set<nat>, dirty: set<nat>)
    requires ActorOk(fs, th, limbo, orphans, dirty) && !Effect(fs, th).fault
    ensures ActorDone(Effect(fs, th), Next(fs, th, noMem), th.pc, limbo, orphans, dirty)
    ensures th.pc in {CSave, WSave} ==> Next(fs, th, noMem).err == 0
  {
    hide Consistent, ThreadOk, Effect, Next, ActorDone;
    match th.pc
    case CAlloc => AllocActs(fs, th, noMem, dirty);
    case CStore => StoreActs(fs, th, noMem);
    case CIncr => IncrActs(fs, th, noMem);
    case CRecord => RecordActs(fs, th, noMem, dirty);
    case CBump => BumpActs(fs, th, noMem);
    case CSave => SaveDirActs(fs, th, noMem);
    case WCopy => CopyActs(fs, th, noMem, limbo, orphans, dirty);
    case WSetSize => SizeActs(fs, th, noMem, limbo, orphans);
    case WSave => SaveFileActs(fs, th, noMem, limbo, orphans);
    case _ => SilentActs(fs, th, noMem, limbo, orphans, dirty);
  }

  // ---------- what the step leaves the other threads ----------

  /** In-core inodes stay, with their modes; only the actor's own one may change, where its size is set. */
  lemma CoreKept(fs: Fs, th: Thread, limbo: set<nat>, dirty: set<nat>, x: nat)
    requires Flat(fs, limbo) && CoreOk(fs, dirty) && ThreadOk(fs, th) && !Effect(fs, th).fault && x in fs.core
    ensures x in Effect(fs, th).core && Effect(fs, th).core[x].mode == fs.core[x].mode
    ensures x != th.no || th.pc !in {CBump, WSetSize} ==> Effect(fs, th).core[x] == fs.core[x]
  {
    hide Flat, CoreOk, NotLinked;
    NewNumberIsNew(fs, limbo, dirty, x);
  }

  lemma NewNumberIsNew(fs: Fs, limbo: set<nat>, dirty: set<nat>, x: nat)
    requires Flat(fs, limbo) && CoreOk(fs, dirty) && x in fs.core
    ensures x != NewNumber(fs.count)
  {
    assert CoreEntryOk(fs, x, dirty);
  }

  /** Everything a create relies on about its directory `d` is the same in both states. */
  ghost predicate DirFrame(fs: Fs, fs': Fs, d: nat)
  {
    && Shape(fs) && Shape(fs') && fs'.count == fs.count && SameNumbers(fs.table, fs'.table, fs.count)
    && (forall k :: 0 <= k < fs.count ==> fs'.table[k].mode == fs.table[k].mode)
    && fs'.table[fs.count] == fs.table[fs.count]
    && d in fs.core && d in fs'.core && fs'.core[d] == fs.core[d]
    && (SlotOf(fs, d) < fs.count ==> fs'.table[SlotOf(fs, d)] == fs.table[SlotOf(fs, d)])
    && fs.core[d].block < |fs.blocks| && fs'.blocks[fs.core[d].block] == fs.blocks[fs.core[d].block]
  }

  lemma DirFrameKeeps(fs: Fs, fs': Fs, th: Thread)
    requires DirFrame(fs, fs', th.no) && Creating(fs, th)
    ensures Creating(fs', th)
  {
    SlotSame(fs.table, fs'.table, fs.count, th.no);
  }

  /** A write never touches what a directory consists of. */
  lemma WriterFrames(fs: Fs, th: Thread, limbo: set<nat>, dirty: set<nat>, d: nat)
    requires Flat(fs, limbo) && CoreOk(fs, dirty) && Writing(fs, th) && WritePc(th.pc) && !Effect(fs, th).fault
    requires d in fs.core && IsDir(fs.core[d].mode)
    ensures DirFrame(fs, Effect(fs, th), d)
  {
    hide Flat, CoreOk, SlotFrom;
    ApartInCore(fs, d, th.no, limbo, dirty);
    if th.pc == WSave {
      SaveSlot(fs, th.no, dirty);
    }
  }

  /** Two in-core inodes have slots and blocks of their own. */
  lemma ApartInCore(fs: Fs, x: nat, y: nat, limbo: set<nat>, dirty: set<nat>)
    requires Flat(fs, limbo) && CoreOk(fs, dirty) && x in fs.core && y in fs.core && x != y
    ensures Shape(fs) && SlotOf(fs, x) < fs.count && SlotOf(fs, y) < fs.count && SlotOf(fs, x) != SlotOf(fs, y)
    ensures fs.core[x].block != fs.core[y].block && fs.core[x].block < |fs.blocks| && fs.core[y].block < |fs.blocks|
  {
    assert CoreEntryOk(fs, x, dirty);
    assert CoreEntryOk(fs, y, dirty);
  }

  lemma OtherKeeps(fs: Fs, th: Thread, other: Thread, limbo: set<nat>, dirty: set<nat>)
    requires Flat(fs, limbo) && CoreOk(fs, dirty) && ThreadOk(fs, th) && ThreadOk(fs, other) && !Effect(fs, th).fault
    requires !(Holds(th.pc, DirLock) && Holds(other.pc, DirLock))
      && !(Holds(th.pc, InodesLock) && Holds(other.pc, InodesLock))
    ensures ThreadOk(Effect(fs, th), other)
  {
    if other.pc != Idle {
      hide Flat, CoreOk;
      CoreKept(fs, th, limbo, dirty, other.no);
      if WritePc(th.pc) && !WritePc(other.pc) {
        WriterFrames(fs, th, limbo, dirty, other.no);
        DirFrameKeeps(fs, Effect(fs, th), other);
      }
    }
  }

  // ---------- every step of the machine ----------

  /** Whose step it is decides what is pending afterwards. */
  lemma OwnersAfter(m: Machine, t: nat, noMem: bool, l: Lock)
    requires LocksOk(m) && CanStep(m, t)
    ensures var pc := m.threads[t].pc; var m' := Apply(m, Step(t, noMem));
      && (Holds(pc, l) ==> l in m.owner && m.owner[l] == t)
      && (Holds(NextPc(m.threads[t], noMem), l) ==> l in m'.owner && m'.owner[l] == t)
      && (!Holds(NextPc(m.threads[t], noMem), l) ==> (l in m'.owner <==> l in m.owner && m.owner[l] != t))
      && (l in m'.owner && m'.owner[l] != t ==> l in m.owner && m.owner[l] == m'.owner[l])
      && (!Holds(NextPc(m.threads[t], noMem), l) && l in m'.owner ==> m'.owner[l] != t)
      && (l in m.owner ==> m.owner[l] < |m.threads|)
      && (!Holds(pc, l) && l in m.owner ==> m.owner[l] != t)
      && (!Holds(pc, l) && Holds(NextPc(m.threads[t], noMem), l) ==> l !in m.owner)
  {
    hide Effect, Locals, Holds, Frees, Wants, NextPc;
    HoldsStep(m.threads[t], noMem, l);
    LocksKept(m, Step(t, noMem));
    FreesHeld(m.threads[t].pc);
    assert Apply(m, Step(t, noMem)).threads[t].pc == NextPc(m.threads[t], noMem);
  }

  /** A thread that does not hold a lock has nothing pending under it. */
  lemma NothingPending(th: Thread)
    ensures !HoldsD(th.pc) ==> LimboOf(th) == {} && OrphansOf(th) == {}
    ensures !HoldsM(th.pc) ==> DirtyOf(th) == {}
  {
  }

  /** Nor has one that has just taken it. */
  lemma NothingPendingYet(fs: Fs, th: Thread, noMem: bool)
    ensures !HoldsD(th.pc) ==> LimboOf(Next(fs, th, noMem)) == {} && OrphansOf(Next(fs, th, noMem)) == {}
    ensures !HoldsM(th.pc) ==> DirtyOf(Next(fs, th, noMem)) == {}
  {
  }

  lemma PendingAfter(m: Machine, t: nat, noMem: bool)
    requires LocksOk(m) && CanStep(m, t)
    ensures var th := m.threads[t]; var m' := Apply(m, Step(t, noMem)); var th' := Next(m.fs, th, noMem);
      && Limbo(m') == (if HoldsD(th.pc) then LimboOf(th') else Limbo(m))
      && Orphans(m') == (if HoldsD(th.pc) then OrphansOf(th') else Orphans(m))
      && Dirty(m') == (if HoldsM(th.pc) then DirtyOf(th') else Dirty(m))
      && ActorCtx(th, Limbo(m), Orphans(m), Dirty(m))
  {
    hide Effect, Locals, LimboOf, OrphansOf, DirtyOf, HoldsD, HoldsM, HoldsS, NextPc, LocksOk, NewOwner;
    var th, th' := m.threads[t], Next(m.fs, m.threads[t], noMem);
    OwnersAfter(m, t, noMem, DirLock);
    OwnersAfter(m, t, noMem, InodesLock);
    NothingPending(th);
    NothingPending(th');
    NothingPendingYet(m.fs, th, noMem);
    var m' := Apply(m, Step(t, noMem));
    assert m'.threads == m.threads[t := th'];
    assert th'.pc == NextPc(th, noMem);
    assert Holds(th.pc, DirLock) == HoldsD(th.pc) && Holds(th.pc, InodesLock) == HoldsM(th.pc);
    assert Holds(th'.pc, DirLock) == HoldsD(th'.pc) && Holds(th'.pc, InodesLock) == HoldsM(th'.pc);
  }

  lemma Exclusive(m: Machine, t: nat, u: nat)
    requires LocksOk(m) && t < |m.threads| && u < |m.threads| && t != u
    ensures forall l :: Holds(m.threads[t].pc, l) ==> !Holds(m.threads[u].pc, l)
  {
    forall l | Holds(m.threads[t].pc, l)
      ensures !Holds(m.threads[u].pc, l)
    {
      assert m.owner[l] != u;
    }
  }

  lemma FaultStays(fs: Fs, th: Thread)
    requires fs.fault
    ensures Effect(fs, th).fault
  {
  }

  lemma StepInv(m: Machine, t: nat, noMem: bool)
    requires Inv(m) && CanStep(m, t)
    ensures Inv(Apply(m, Step(t, noMem)))
  {
    var m' := Apply(m, Step(t, noMem));
    var th := m.threads[t];
    hide Consistent, ThreadOk, Effect, Next, LocksOk, Flat, CoreOk, Limbo, Orphans, Dirty, NewOwner;
    LocksKept(m, Step(t, noMem));
    if m.fs.fault {
      FaultStays(m.fs, th);
    } else if !m'.fs.fault {
      PendingAfter(m, t, noMem);
      Acts(m.fs, th, noMem, Limbo(m), Orphans(m), Dirty(m));
      Basics(m.fs, Limbo(m), Orphans(m), Dirty(m));
      forall u | 0 <= u < |m'.threads| ensures ThreadOk(m'.fs, m'.threads[u]) {
        if u != t {
          Exclusive(m, t, u);
          OtherKeeps(m.fs, th, m.threads[u], Limbo(m), Dirty(m));
        }
      }
    }
  }

  lemma LoadThread(fs: Fs, th: Thread, no: nat)
    requires ThreadOk(fs, th)
    ensures ThreadOk(LoadInode(fs, no), th)
  {
    assert Creating(fs, th) ==> Creating(LoadInode(fs, no), th) by {
      var fs' := LoadInode(fs, no);
      if Shape(fs) { assert SlotOf(fs', th.no) == SlotOf(fs, th.no); }
    }
  }

  lemma EventInv(m: Machine, e: Event)
    requires Inv(m) && Allowed(m, e)
    ensures Inv(Apply(m, e))
  {
    hide Inv, Apply;
    match e
    case Step(t, noMem) => StepInv(m, t, noMem);
    case Start(t, th) => StartInv(m, t, th);
    case Load(no) => LoadInv(m, no);
  }

  lemma LoadInv(m: Machine, no: nat)
    requires Inv(m)
    ensures Inv(Apply(m, Load(no)))
  {
    hide Consistent, ThreadOk, LoadInode, LocksOk;
    LocksKept(m, Load(no));
    LoadFault(m.fs, no);
    if !m.fs.fault {
      LoadInodeKeeps(m.fs, no, Limbo(m), Orphans(m), Dirty(m));
      forall u | 0 <= u < |m.threads| ensures ThreadOk(LoadInode(m.fs, no), m.threads[u]) {
        LoadThread(m.fs, m.threads[u], no);
      }
    }
  }

  lemma LoadFault(fs: Fs, no: nat)
    ensures LoadInode(fs, no).fault == fs.fault
  {
  }

  lemma StartInv(m: Machine, t: nat, th: Thread)
    requires Inv(m) && Allowed(m, Start(t, th))
    ensures Inv(Apply(m, Start(t, th)))
  {
    hide Consistent;
    LocksKept(m, Start(t, th));
    var m' := Apply(m, Start(t, th));
    assert DirLock in m.owner ==> m.owner[DirLock] != t;
    assert InodesLock in m.owner ==> m.owner[InodesLock] != t;
  }

  /** The invariant holds after every run, of any number of threads, from every well-formed image. */
  lemma {:induction false} RunInv(m: Machine, es: seq<Event>)
    requires Inv(m) && Run(m, es)
    ensures Inv(After(m, es))
    decreases |es|
  {
    if es != [] {
      EventInv(m, es[0]);
      RunInv(Apply(m, es[0]), es[1..]);
    }
  }

  lemma InitialInv(m: Machine)
    requires Initial(m)
    ensures Inv(m)
  {
  }
}
