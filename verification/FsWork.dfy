/** What the threads inside simplefs still have to do, as accesses to shared state. */
module FsWork {
  import opened Bytes
  import opened Wrappers
  import opened Layout
  import opened FsState
  import opened FsMachine
  import opened FsLocking
  import opened FsSafety
  import opened FsOps
  import opened FsEffects
  import opened FsCommute

  // ---------- what a thread still has to do ----------

  /** The copies of bytes `lo..hi` of a write. */
  function PutBytes(no: nat, pos: nat, data: seq<Byte>, lo: nat, hi: nat): (r: seq<Prim>)
    ensures lo <= hi <= |data| ==> |r| == hi - lo
    ensures forall i :: 0 <= i < |r| ==> lo + i < |data| && r[i] == PutByte(no, pos + lo + i, data[lo + i])
  {
    if lo <= hi <= |data| then seq(hi - lo, i requires 0 <= i < hi - lo => PutByte(no, pos + lo + i, data[lo + i])) else []
  }

  function LinkWork(th: Thread): seq<Prim>
  {
    [PutName(th.no, th.name, th.inode.no), Bump(th.no), Save(th.no)]
  }

  /** The accesses left to a write, or to a create that has its block. */
  function Work(th: Thread): seq<Prim>
  {
    match th.pc
    case CRelS1 => if th.err == 0 then [Store(th.inode), Count(th.inode)] + LinkWork(th) else []
    case CWantM2 | CWantS2 | CStore => [Store(th.inode), Count(th.inode)] + LinkWork(th)
    case CIncr => [Count(th.inode)] + LinkWork(th)
    case CRelS2 | CRelM2 | CRecord => LinkWork(th)
    case CWantM3 | CBump => [Bump(th.no), Save(th.no)]
    case CWantS3 | CSave => [Save(th.no)]
    case WCopy => PutBytes(th.no, th.pos, th.data, th.done, |th.data|) + [Resize(th.no, th.pos + |th.data|), Save(th.no)]
    case WWantM | WSetSize => [Resize(th.no, th.pos + |th.data|), Save(th.no)]
    case WWantS | WSave => [Save(th.no)]
    case _ => []
  }

  /** The access made by the next step, if it makes one. */
  function Head(th: Thread): seq<Prim>
  {
    match th.pc
    case CStore | CIncr | CRecord | CBump | CSave | WSetSize | WSave => Work(th)[..1]
    case WCopy => if th.done < |th.data| then Work(th)[..1] else []
    case _ => []
  }

  lemma EffectIsHead(fs: Fs, th: Thread)
    requires th.pc != CAlloc
    ensures Effect(fs, th) == DoAll(fs, Head(th))
  {
    hide StoreInode, CountInode, WriteRecord, SetSize, SetFileSize, SaveInode, CopyByte, FreeBlock, PutBytes, DoAll;
    DoOne(fs, Head(th));
    if th.pc == WCopy {
      if th.done < |th.data| { CopyHead(th); }
      hide Head;
    } else {
      OtherHead(th);
      hide Head;
    }
  }

  lemma DoOne(fs: Fs, ps: seq<Prim>)
    ensures ps == [] ==> DoAll(fs, ps) == fs
    ensures |ps| == 1 ==> DoAll(fs, ps) == Do(fs, ps[0])
  {
  }

  lemma OtherHead(th: Thread)
    requires th.pc != WCopy
    ensures match th.pc
      case CStore => Head(th) == [Store(th.inode)]
      case CIncr => Head(th) == [Count(th.inode)]
      case CRecord => Head(th) == [PutName(th.no, th.name, th.inode.no)]
      case CBump => Head(th) == [Bump(th.no)]
      case CSave | WSave => Head(th) == [Save(th.no)]
      case WSetSize => Head(th) == [Resize(th.no, th.pos + |th.data|)]
      case _ => Head(th) == []
  {
    hide PutBytes;
  }

  lemma CopyHead(th: Thread)
    requires th.pc == WCopy && th.done < |th.data|
    ensures Head(th) == [PutByte(th.no, th.pos + th.done, th.data[th.done])]
  {
    PutBytesLeft(th.no, th.pos, th.data, th.done);
  }

  lemma PutBytesLeft(no: nat, pos: nat, data: seq<Byte>, done: nat)
    ensures done < |data| ==>
      PutBytes(no, pos, data, done, |data|)
        == [PutByte(no, pos + done, data[done])] + PutBytes(no, pos, data, done + 1, |data|)
    ensures done >= |data| ==> PutBytes(no, pos, data, done, |data|) == []
  {
  }

  function SizeWork(th: Thread): seq<Prim> { [Resize(th.no, th.pos + |th.data|), Save(th.no)] }

  lemma CopyWorkLeft(fs: Fs, th: Thread, noMem: bool)
    requires th.pc == WCopy
    ensures Work(th) == Head(th) + Work(Next(fs, th, noMem))
  {
    var ps := PutBytes(th.no, th.pos, th.data, th.done, |th.data|);
    var th' := Next(fs, th, noMem);
    assert Work(th) == ps + SizeWork(th);
    PutBytesLeft(th.no, th.pos, th.data, th.done);
    if th.done < |th.data| {
      var p := PutByte(th.no, th.pos + th.done, th.data[th.done]);
      var rest := PutBytes(th.no, th.pos, th.data, th.done + 1, |th.data|);
      assert Work(th') == rest + SizeWork(th);
      hide *;
      assert ps == [p] + rest;
      assert ps + SizeWork(th) == [p] + (rest + SizeWork(th));
      assert Work(th)[..1] == [p];
    }
  }

  lemma WriteWorkLeft(fs: Fs, th: Thread, noMem: bool)
    requires WritePc(th.pc)
    ensures Work(th) == Head(th) + Work(Next(fs, th, noMem))
  {
    if th.pc == WCopy {
      hide *;
      CopyWorkLeft(fs, th, noMem);
    } else {
      hide SaveFinds, PutBytes, LinkWork;
    }
  }

  lemma CreateWorkLeft(fs: Fs, th: Thread, noMem: bool)
    requires !WritePc(th.pc) && th.pc != CAlloc
    ensures Work(th) == Head(th) + Work(Next(fs, th, noMem))
  {
    hide CheckError, SaveFinds, FreeBlock, PutBytes;
  }

  lemma WorkLeft(fs: Fs, th: Thread, noMem: bool)
    requires th.pc != CAlloc
    ensures Work(th) == Head(th) + Work(Next(fs, th, noMem))
  {
    hide Work, Head, Next;
    if WritePc(th.pc) { WriteWorkLeft(fs, th, noMem); } else { CreateWorkLeft(fs, th, noMem); }
  }

  /** The work of the create that holds the directory lock. */
  function CreateWork(m: Machine): seq<Prim>
  {
    if DirLock in m.owner && m.owner[DirLock] < |m.threads| then Work(m.threads[m.owner[DirLock]]) else []
  }

  // -- what the work concerns --

  predicate AllOn(ps: seq<Prim>, x: nat)
  {
    forall k :: 0 <= k < |ps| && Local(ps[k]) ==> ps[k].x == x
  }

  predicate AllLocal(ps: seq<Prim>)
  {
    forall k :: 0 <= k < |ps| ==> Local(ps[k])
  }

  lemma WorkOn(th: Thread)
    ensures AllOn(Work(th), th.no) && (WritePc(th.pc) ==> AllLocal(Work(th)))
  {
  }

  lemma HeadTame(fs: Fs, th: Thread)
    requires WritePc(th.pc) && th.no in fs.core
    ensures Tame(fs, Head(th)) && AllOn(Head(th), th.no)
  {
    WorkOn(th);
    assert forall k :: 0 <= k < |Head(th)| ==> Head(th)[k] == Work(th)[k];
  }

  predicate NoWriterOn(ths: seq<Thread>, x: nat)
  {
    forall u :: 0 <= u < |ths| && WritePc(ths[u].pc) ==> ths[u].no != x
  }

  ghost predicate WritersIn(fs: Fs, ths: seq<Thread>)
  {
    forall u :: 0 <= u < |ths| && WritePc(ths[u].pc) ==> ths[u].no in fs.core
  }

  // -- in reachable states --

  lemma SaneNow(fs: Fs, limbo: set<nat>, dirty: set<nat>)
    requires Flat(fs, limbo) && CoreOk(fs, dirty)
    ensures Sane(fs)
  {
    forall x | x in fs.core ensures Anchored(fs, x) {
      assert CoreEntryOk(fs, x, dirty);
    }
    forall x, y | x in fs.core && y in fs.core && x != y ensures fs.core[x].block != fs.core[y].block {
      ApartInCore(fs, x, y, limbo, dirty);
    }
  }

  /** The inode a create has made can be counted as soon as it is stored. */
  lemma NewInodeCounts(fs: Fs, i: Inode, limbo: set<nat>, dirty: set<nat>)
    requires Flat(fs, limbo) && CoreOk(fs, dirty) && i.block in limbo && i.no == NewNumber(fs.count)
      && fs.count < MAX_OBJECTS
    ensures Ok(fs, Store(i)) && Ok(StoreInode(fs, i), Count(i)) && (fs.table[fs.count] == i ==> Ok(fs, Count(i)))
  {
    hide CoreOk, SlotFrom;
    forall x | x in fs.core ensures x != i.no && fs.core[x].block != i.block {
      NewNumberIsNew(fs, limbo, dirty, x);
      BlockOfSlot(fs, x, limbo, dirty);
    }
  }

  lemma BlockOfSlot(fs: Fs, x: nat, limbo: set<nat>, dirty: set<nat>)
    requires Flat(fs, limbo) && CoreOk(fs, dirty) && x in fs.core
    ensures fs.core[x].block !in limbo
  {
    assert CoreEntryOk(fs, x, dirty);
  }

  lemma LinkWorkOk(fs: Fs, th: Thread)
    requires Sane(fs) && th.no in fs.core
    ensures OkAll(fs, LinkWork(th)) && OkAll(fs, LinkWork(th)[1..]) && OkAll(fs, LinkWork(th)[2..])
  {
    hide Sane, OkAll;
    TameOk(fs, LinkWork(th));
    TameOk(fs, LinkWork(th)[1..]);
    TameOk(fs, LinkWork(th)[2..]);
  }

  lemma CountAndLinkOk(fs: Fs, th: Thread)
    requires Sane(fs) && th.no in fs.core && Ok(fs, Count(th.inode))
    ensures OkAll(fs, [Count(th.inode)] + LinkWork(th))
  {
    hide Sane, Ok, LinkWork;
    OkSane(fs, Count(th.inode));
    LinkWorkOk(CountInode(fs, th.inode), th);
    assert ([Count(th.inode)] + LinkWork(th))[1..] == LinkWork(th);
  }

  lemma StoreAndOnOk(fs: Fs, th: Thread)
    requires Sane(fs) && th.no in fs.core && Ok(fs, Store(th.inode)) && Ok(StoreInode(fs, th.inode), Count(th.inode))
    ensures OkAll(fs, [Store(th.inode), Count(th.inode)] + LinkWork(th))
  {
    hide Sane, Ok, LinkWork;
    OkSane(fs, Store(th.inode));
    CountAndLinkOk(StoreInode(fs, th.inode), th);
    assert ([Store(th.inode), Count(th.inode)] + LinkWork(th))[1..] == [Count(th.inode)] + LinkWork(th);
  }

  lemma CreateWorkOk(fs: Fs, th: Thread, limbo: set<nat>, dirty: set<nat>)
    requires Flat(fs, limbo) && CoreOk(fs, dirty) && ThreadOk(fs, th) && HoldsD(th.pc) && limbo == LimboOf(th)
    ensures OkAll(fs, Work(th))
  {
    hide Flat, CoreOk, OkAll, Ok, NotLinked, Sane, LinkWork;
    SaneNow(fs, limbo, dirty);
    LinkWorkOk(fs, th);
    LinkTails(th);
    if LimboOf(th) != {} {
      assert th.inode.block in limbo;
      NewInodeCounts(fs, th.inode, limbo, dirty);
      if th.pc == CIncr { CountAndLinkOk(fs, th); } else { StoreAndOnOk(fs, th); }
    } else {
      TameOk(fs, []);
    }
  }

  lemma LinkTails(th: Thread)
    ensures LinkWork(th)[1..] == [Bump(th.no), Save(th.no)] && LinkWork(th)[2..] == [Save(th.no)]
  {
  }

  /** What every reachable state offers to the work that is left in it. */
  ghost predicate Ready(m: Machine)
  {
    && Sane(m.fs) && OkAll(m.fs, CreateWork(m)) && WritersIn(m.fs, m.threads)
    && (DirLock in m.owner ==> m.owner[DirLock] < |m.threads| && NoWriterOn(m.threads, m.threads[m.owner[DirLock]].no))
  }

  lemma ReadyNow(m: Machine)
    requires Inv(m) && !m.fs.fault
    ensures Ready(m)
  {
    hide Consistent, Sane, OkAll, Work, Flat, CoreOk, NotLinked, Counted;
    Basics(m.fs, Limbo(m), Orphans(m), Dirty(m));
    SaneNow(m.fs, Limbo(m), Dirty(m));
    if DirLock in m.owner {
      var d := m.owner[DirLock];
      assert Holds(m.threads[d].pc, DirLock);
      CreateWorkOk(m.fs, m.threads[d], Limbo(m), Dirty(m));
    } else {
      TameOk(m.fs, []);
    }
  }

  // -- steps --

  lemma WriterLeavesCreate(m: Machine, t: nat, noMem: bool)
    requires LocksOk(m) && CanStep(m, t) && WritePc(m.threads[t].pc)
    ensures CreateWork(Apply(m, Step(t, noMem))) == CreateWork(m)
    ensures DirLock in m.owner ==> m.owner[DirLock] != t
  {
    hide Work, Effect, Locals;
    if DirLock in m.owner { assert Holds(m.threads[m.owner[DirLock]].pc, DirLock); }
  }

  lemma WriterIn(m: Machine, t: nat)
    requires Ready(m) && t < |m.threads| && WritePc(m.threads[t].pc)
    ensures m.threads[t].no in m.fs.core && m.threads[t].pc != CAlloc
  {
  }

  lemma OwnWork(m: Machine, t: nat)
    requires LocksOk(m) && t < |m.threads|
    ensures HoldsD(m.threads[t].pc) ==> CreateWork(m) == Work(m.threads[t])
    ensures DirLock !in m.owner ==> CreateWork(m) == []
  {
    hide Work;
    assert HoldsD(m.threads[t].pc) == Holds(m.threads[t].pc, DirLock);
  }

  lemma CreatePcs(fs: Fs, th: Thread, noMem: bool)
    requires !WritePc(th.pc)
    ensures !WritePc(Next(fs, th, noMem).pc) && Next(fs, th, noMem).pc == NextPc(th, noMem)
    ensures th.pc != Idle ==> HoldsD(th.pc) || (th.pc == CWantD && Work(th) == [])
    ensures th.pc != Idle && !HoldsD(NextPc(th, noMem)) ==>
              Frees(th.pc) == Some(DirLock) && Wants(th.pc) == None && Work(Next(fs, th, noMem)) == []
    ensures th.pc == CWantD ==> Wants(th.pc) == Some(DirLock)
  {
  }

  /** The create's work before and after a step of it. */
  lemma CreateWorks(m: Machine, t: nat, noMem: bool)
    requires LocksOk(m) && CanStep(m, t) && !WritePc(m.threads[t].pc)
    ensures CreateWork(m) == Work(m.threads[t])
    ensures CreateWork(Apply(m, Step(t, noMem))) == Work(Next(m.fs, m.threads[t], noMem))
  {
    hide LocksOk, Work, Effect, Next, NextPc, Wants, Frees, HoldsD, WritePc, CreateWork;
    var m' := Apply(m, Step(t, noMem));
    LocksKept(m, Step(t, noMem));
    CreatePcs(m.fs, m.threads[t], noMem);
    OwnWork(m, t);
    OwnWork(m', t);
  }

  // -- the effect of a create --

  lemma {:induction false} DoLink(fs: Fs, th: Thread)
    ensures DoAll(fs, LinkWork(th)) == LinkInto(fs, th.no, th.name, th.inode.no)
  {
    hide WriteRecord, SetSize, SaveInode;
    var fs1 := WriteRecord(fs, th.no, th.name, th.inode.no);
    LinkTails(th);
    assert DoAll(fs, LinkWork(th)) == DoAll(fs1, LinkWork(th)[1..]);
    assert DoAll(Do(fs1, Bump(th.no)), [Save(th.no)]) == SaveInode(Do(fs1, Bump(th.no)), th.no);
    assert [Bump(th.no), Save(th.no)][1..] == [Save(th.no)];
  }

  lemma DoCreate(fs: Fs, th: Thread)
    ensures DoAll(fs, [Store(th.inode), Count(th.inode)] + LinkWork(th))
         == LinkInto(AddInode(fs, th.inode), th.no, th.name, th.inode.no)
  {
    hide LinkWork, StoreInode, CountInode, LinkInto;
    DoAllAppend(fs, [Store(th.inode), Count(th.inode)], LinkWork(th));
    assert [Store(th.inode), Count(th.inode)][1..] == [Count(th.inode)];
    DoLink(AddInode(fs, th.inode), th);
  }

  lemma InvLocks(m: Machine)
    requires Inv(m)
    ensures LocksOk(m)
  {
  }

  lemma GrantedThread(m: Machine, t: nat, noMem: bool)
    requires Inv(m) && !m.fs.fault && CanStep(m, t) && m.threads[t].pc == CAlloc && FreeBlock(m.fs) < MAX_OBJECTS
    ensures var th := m.threads[t]; var th' := Next(m.fs, th, noMem);
      && Work(th) == [] && th'.inode == NewInode(m.fs, th.mode) && th'.no == th.no && th'.name == th.name
      && Work(th') == [Store(th'.inode), Count(th'.inode)] + LinkWork(th')
      && !WritePc(th.pc) && LocksOk(m) && Effect(m.fs, th) == TakeBlock(m.fs) && HoldsD(th'.pc)
  {
    hide Consistent;
    assert ThreadOk(m.fs, m.threads[t]);
  }

  /** A create that gets past its checks has seen the right count, and asks for a file or a directory. */
  lemma Checked(m: Machine, t: nat)
    requires Inv(m) && !m.fs.fault && CanStep(m, t) && m.threads[t].pc in {CCheck, CAlloc}
    ensures var th := m.threads[t];
      && LocksOk(m) && Work(th) == [] && !WritePc(th.pc) && th.count == m.fs.count
      && (th.pc == CAlloc ==> th.count < MAX_OBJECTS && (IsDir(th.mode) || IsReg(th.mode)) && th.err == 0)
  {
    hide Consistent;
    assert ThreadOk(m.fs, m.threads[t]);
  }

  /** In a state with the same count and bitmap the same error comes out. */
  lemma SameError(fs: Fs, fs': Fs, th: Thread, noMem: bool)
    requires fs'.count == fs.count == th.count && fs'.free == fs.free && (th.pc == CAlloc || GivesUp(th, noMem))
    requires th.pc == CAlloc ==> th.count < MAX_OBJECTS && (IsDir(th.mode) || IsReg(th.mode)) && th.err == 0
    ensures Next(fs, th, noMem).err == CreateError(fs', th.mode, noMem && th.pc == CCheck)
  {
    hide LowestFree;
    AtMost64(fs);
  }

  lemma RefusedThread(fs: Fs, th: Thread, noMem: bool)
    requires th.pc == CAlloc && FreeBlock(fs) >= MAX_OBJECTS
    ensures Effect(fs, th) == fs && Work(th) == Work(Next(fs, th, noMem)) == [] && !WritePc(th.pc)
  {
  }

  lemma StartLeavesCreate(m: Machine, t: nat, th: Thread)
    requires LocksOk(m) && Allowed(m, Start(t, th))
    ensures CreateWork(Apply(m, Start(t, th))) == CreateWork(m) && !WritePc(m.threads[t].pc)
  {
    hide Work;
    if DirLock in m.owner { assert Holds(m.threads[m.owner[DirLock]].pc, DirLock); }
  }

  lemma SameWork(m: Machine, no: nat)
    ensures CreateWork(Apply(m, Load(no))) == CreateWork(m)
  {
  }

  // -- the effect of a write --

  lemma {:induction false} DoBytes(fs: Fs, no: nat, pos: nat, data: seq<Byte>, done: nat)
    requires done <= |data|
    ensures DoAll(fs, PutBytes(no, pos, data, done, |data|)) == CopyAll(fs, no, pos, data, done)
    decreases |data| - done
  {
    hide CopyByte;
    if done < |data| {
      DoBytes(CopyByte(fs, no, pos + done, data[done]), no, pos, data, done + 1);
      assert PutBytes(no, pos, data, done, |data|)[1..] == PutBytes(no, pos, data, done + 1, |data|);
    } else {
      assert PutBytes(no, pos, data, done, |data|) == [];
    }
  }

  /** The accesses of a write. */
  function WriteWork(no: nat, pos: nat, data: seq<Byte>): seq<Prim>
  {
    PutBytes(no, pos, data, 0, |data|) + [Resize(no, pos + |data|), Save(no)]
  }

  lemma DoWrite(fs: Fs, no: nat, pos: nat, data: seq<Byte>)
    ensures DoAll(fs, WriteWork(no, pos, data)) == WriteResult(fs, no, pos, data)
  {
    hide SetFileSize, SaveInode, CopyAll, PutBytes;
    var fs1 := CopyAll(fs, no, pos, data, 0);
    var tail := [Resize(no, pos + |data|), Save(no)];
    DoAllAppend(fs, PutBytes(no, pos, data, 0, |data|), tail);
    DoBytes(fs, no, pos, data, 0);
    assert tail[1..] == [Save(no)];
    var fs2 := SetFileSize(fs1, no, pos + |data|);
    assert DoAll(fs1, tail) == DoAll(fs2, [Save(no)]);
    assert DoAll(fs2, [Save(no)]) == SaveInode(fs2, no);
  }
}
