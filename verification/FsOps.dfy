/** Whole operations, as one thread performs them undisturbed. */
module FsOps {
  import opened Bytes
  import opened Layout
  import opened FsState
  import opened FsMachine
  import opened FsLocking
  import opened FsSafety
  import opened FsTheorems

  // ---------- the effect of an undisturbed operation ----------

  /** The error `simplefs_create_fs_object` returns, or 0. */
  function CreateError(fs: Fs, mode: Mode, noMem: bool): int
  {
    if fs.count >= MAX_OBJECTS then ENOSPC
    else if !IsDir(mode) && !IsReg(mode) then EINVAL
    else if noMem then ENOMEM
    else if FreeBlock(fs) == MAX_OBJECTS then ENOSPC
    else 0
  }

  /** When a create succeeds, and the error it returns when it does not. */
  lemma CreateErrorIs(fs: Fs, mode: Mode, noMem: bool)
    ensures CreateError(fs, mode, noMem) == 0
      <==> fs.count < 64 && mode.ftype in {4, 8} && !noMem && exists b :: 2 <= b < 64 && b in fs.free
    ensures fs.count >= 64 ==> CreateError(fs, mode, noMem) == -28
    ensures fs.count < 64 && mode.ftype !in {4, 8} ==> CreateError(fs, mode, noMem) == -22
    ensures fs.count < 64 && mode.ftype in {4, 8} ==>
      if noMem then CreateError(fs, mode, noMem) == -12
      else CreateError(fs, mode, noMem) == -28 <==> forall b :: 2 <= b < 64 ==> b !in fs.free
  {
    var b := FreeBlock(fs);
    assert b < 64 ==> b in fs.free;
  }

  function NewInode(fs: Fs, mode: Mode): Inode
  {
    Inode(mode, NewNumber(fs.count), FreeBlock(fs), 0)
  }

  function AddInode(fs: Fs, inode: Inode): Fs
  {
    CountInode(StoreInode(fs, inode), inode)
  }

  function LinkInto(fs: Fs, dir: nat, name: Name, no: nat): Fs
  {
    var fs' := WriteRecord(fs, dir, name, no);
    SaveInode(SetSize(fs', dir, if dir in fs'.core then fs'.core[dir].size + 1 else 0), dir)
  }

  function CreateResult(fs: Fs, dir: nat, name: Name, mode: Mode, noMem: bool): Fs
  {
    if CreateError(fs, mode, noMem) != 0 then fs
    else LinkInto(AddInode(TakeBlock(fs), NewInode(fs, mode)), dir, name, NewNumber(fs.count))
  }

  function CopyAll(fs: Fs, no: nat, pos: nat, data: seq<Byte>, done: nat): Fs
    requires done <= |data|
    decreases |data| - done
  {
    if done == |data| then fs else CopyAll(CopyByte(fs, no, pos + done, data[done]), no, pos, data, done + 1)
  }

  function WriteResult(fs: Fs, no: nat, pos: nat, data: seq<Byte>): Fs
  {
    SaveInode(SetFileSize(CopyAll(fs, no, pos, data, 0), no, pos + |data|), no)
  }

  /** Copying byte by byte amounts to overwriting the stretch at once. */
  lemma {:induction false} CopyAllIs(fs: Fs, no: nat, pos: nat, data: seq<Byte>, done: nat)
    requires done <= |data| && no in fs.core && fs.core[no].block < |fs.blocks| && pos + |data| <= BLOCK_SIZE
    ensures var b := fs.core[no].block;
            CopyAll(fs, no, pos, data, done)
              == fs.(blocks := fs.blocks[b := Overwrite(fs.blocks[b], pos + done, data[done..])])
    decreases |data| - done
  {
    var b := fs.core[no].block;
    if done < |data| {
      var fs1 := CopyByte(fs, no, pos + done, data[done]);
      CopyAllIs(fs1, no, pos, data, done + 1);
      assert Overwrite(fs1.blocks[b], pos + done + 1, data[done + 1..])
        == Overwrite(fs.blocks[b], pos + done, data[done..]);
    } else {
      assert Overwrite(fs.blocks[b], pos + done, data[done..]) == fs.blocks[b];
      assert fs.blocks[b := fs.blocks[b]] == fs.blocks;
    }
  }

  // ---------- one thread stepping alone ----------

  /** A thread stepping on until it is idle again. */
  function Finish(fs: Fs, th: Thread, noMem: bool): (Fs, Thread)
    decreases StepsLeft(th)
  {
    if th.pc == Idle then (fs, th)
    else
      LeftDecreases(fs, th, noMem);
      Finish(Effect(fs, th), Next(fs, th, noMem), noMem)
  }

  /** Nobody but thread `t` holds a lock. */
  ghost predicate OthersFree(m: Machine, t: nat)
  {
    forall u, l :: 0 <= u < |m.threads| && u != t ==> !Holds(m.threads[u].pc, l)
  }

  lemma OnlyHolder(m: Machine, t: nat)
    requires LocksOk(m) && t < |m.threads| && m.threads[t].pc != Idle && OthersFree(m, t)
    ensures CanStep(m, t)
  {
    forall l | l in m.owner ensures Holds(m.threads[t].pc, l) {
      assert Holds(m.threads[m.owner[l]].pc, l);
    }
    var w := Wants(m.threads[t].pc);
    if w.Some? { LockOrder(m.threads[t].pc, w.value); }
  }

  lemma {:induction false} FinishIdle(fs: Fs, th: Thread, noMem: bool)
    ensures Finish(fs, th, noMem).1.pc == Idle
    decreases StepsLeft(th)
  {
    hide Effect, Next, StepsLeft;
    if th.pc != Idle {
      LeftDecreases(fs, th, noMem);
      FinishIdle(Effect(fs, th), Next(fs, th, noMem), noMem);
    }
  }

  /** With no lock in its way, a thread runs its operation to the end and leaves everyone else where they were. */
  lemma {:induction false} Alone(m: Machine, t: nat, noMem: bool) returns (es: seq<Event>)
    requires LocksOk(m) && t < |m.threads| && OthersFree(m, t)
    ensures Run(m, es) && OnlySteps(es)
    ensures After(m, es).fs == Finish(m.fs, m.threads[t], noMem).0
    ensures After(m, es).threads == m.threads[t := Finish(m.fs, m.threads[t], noMem).1]
    decreases StepsLeft(m.threads[t])
  {
    if m.threads[t].pc == Idle {
      es := [];
    } else {
      hide Effect, Next, StepsLeft, Holds;
      OnlyHolder(m, t);
      var e := Step(t, noMem);
      LocksKept(m, e);
      LeftDecreases(m.fs, m.threads[t], noMem);
      var rest := Alone(Apply(m, e), t, noMem);
      es := [e] + rest;
      assert es[1..] == rest;
    }
  }

  lemma FinishStep(fs: Fs, th: Thread, noMem: bool)
    requires th.pc != Idle
    ensures Finish(fs, th, noMem) == Finish(Effect(fs, th), Next(fs, th, noMem), noMem)
  {
  }

  /** A step that changes nothing but the thread's position. */
  lemma Pass(fs: Fs, th: Thread, noMem: bool)
    requires Silent(th.pc) && th.pc !in {Idle, CCount, CCheck}
    ensures Finish(fs, th, noMem) == Finish(fs, th.(pc := NextPc(th, noMem)), noMem)
  {
    hide Finish, NextPc, CheckError;
    FinishStep(fs, th, noMem);
  }

  lemma Ended(fs: Fs, th: Thread, noMem: bool)
    requires th.pc == CRelD || th.pc == WRelM
    ensures Finish(fs, th, noMem).0 == fs
  {
    Pass(fs, th, noMem);
  }

  /** A step that acts on the file system and leaves the thread's variables alone. */
  lemma Act(fs: Fs, th: Thread, noMem: bool)
    requires th.pc in {CStore, CIncr, CRecord, CBump, WSetSize}
    ensures Finish(fs, th, noMem) == Finish(Effect(fs, th), th.(pc := NextPc(th, noMem)), noMem)
  {
    hide Finish, NextPc, CheckError, Effect;
    FinishStep(fs, th, noMem);
  }

  // What remains of an operation, from its last phase to its first.

  lemma FinishSave(fs: Fs, th: Thread, noMem: bool)
    requires th.pc == CSave || th.pc == WSave
    ensures Finish(fs, th, noMem).0 == SaveInode(fs, th.no)
  {
    hide Finish, SaveInode, SaveFinds, CheckError;
    FinishStep(fs, th, noMem);
    FinishRelease(SaveInode(fs, th.no), Next(fs, th, noMem), noMem);
  }

  lemma FinishRelease(fs: Fs, th: Thread, noMem: bool)
    requires th.pc == CRelS3 || th.pc == WRelS
    ensures Finish(fs, th, noMem).0 == fs
  {
    hide Finish, CheckError;
    Pass(fs, th, noMem);
    if th.pc == CRelS3 {
      Pass(fs, th.(pc := CRelM3), noMem);
      Ended(fs, th.(pc := CRelD), noMem);
    } else {
      Ended(fs, th.(pc := WRelM), noMem);
    }
  }

  lemma FinishBump(fs: Fs, th: Thread, noMem: bool)
    requires th.pc == CBump
    ensures Finish(fs, th, noMem).0 == SaveInode(Effect(fs, th), th.no)
  {
    hide Finish, SaveInode, CheckError, Effect;
    Act(fs, th, noMem);
    Pass(Effect(fs, th), th.(pc := CWantS3), noMem);
    FinishSave(Effect(fs, th), th.(pc := CSave), noMem);
  }

  lemma FinishLink(fs: Fs, th: Thread, noMem: bool)
    requires th.pc == CRecord
    ensures Finish(fs, th, noMem).0 == LinkInto(fs, th.no, th.name, th.inode.no)
  {
    hide Finish, WriteRecord, SetSize, SaveInode, CheckError;
    Act(fs, th, noMem);
    Pass(Effect(fs, th), th.(pc := CWantM3), noMem);
    FinishBump(Effect(fs, th), th.(pc := CBump), noMem);
  }

  lemma FinishUnlock(fs: Fs, th: Thread, noMem: bool)
    requires th.pc == CRelS2
    ensures Finish(fs, th, noMem).0 == LinkInto(fs, th.no, th.name, th.inode.no)
  {
    hide Finish, LinkInto, CheckError;
    Pass(fs, th, noMem);
    Pass(fs, th.(pc := CRelM2), noMem);
    FinishLink(fs, th.(pc := CRecord), noMem);
  }

  lemma FinishAdd(fs: Fs, th: Thread, noMem: bool)
    requires th.pc == CStore
    ensures Finish(fs, th, noMem).0 == LinkInto(AddInode(fs, th.inode), th.no, th.name, th.inode.no)
  {
    hide Finish, LinkInto, StoreInode, CountInode, CheckError;
    Act(fs, th, noMem);
    Act(StoreInode(fs, th.inode), th.(pc := CIncr), noMem);
    FinishUnlock(AddInode(fs, th.inode), th.(pc := CRelS2), noMem);
  }

  lemma FinishGranted(fs: Fs, th: Thread, noMem: bool)
    requires th.pc == CRelS1
    ensures Finish(fs, th, noMem).0
      == if th.err == 0 then LinkInto(AddInode(fs, th.inode), th.no, th.name, th.inode.no) else fs
  {
    hide Finish, LinkInto, AddInode, CheckError;
    Pass(fs, th, noMem);
    if th.err != 0 {
      Ended(fs, th.(pc := CRelD), noMem);
    } else {
      Pass(fs, th.(pc := CWantM2), noMem);
      Pass(fs, th.(pc := CWantS2), noMem);
      FinishAdd(fs, th.(pc := CStore), noMem);
    }
  }

  lemma FinishAlloc(fs: Fs, th: Thread, noMem: bool)
    requires th.pc == CAlloc && th.err == 0
    ensures Finish(fs, th, noMem).0
         == if FreeBlock(fs) == MAX_OBJECTS then fs
            else LinkInto(AddInode(TakeBlock(fs), Inode(th.mode, NewNumber(th.count), FreeBlock(fs), 0)), th.no, th.name, NewNumber(th.count))
  {
    hide Finish, LinkInto, AddInode, TakeBlock, FreeBlock, CheckError;
    AtMost64(fs);
    FinishStep(fs, th, noMem);
    FinishGranted(Effect(fs, th), Next(fs, th, noMem), noMem);
  }

  lemma AtMost64(fs: Fs)
    ensures FreeBlock(fs) <= MAX_OBJECTS
  {
  }

  lemma FinishCheck(fs: Fs, th: Thread, noMem: bool)
    requires th.pc == CCheck && th.count == fs.count
    ensures Finish(fs, th, noMem).0 == CreateResult(fs, th.no, th.name, th.mode, noMem)
  {
    hide Finish, LinkInto, AddInode, TakeBlock, FreeBlock;
    AtMost64(fs);
    FinishStep(fs, th, noMem);
    var th' := Next(fs, th, noMem);
    if CheckError(th, noMem) == 0 {
      Pass(fs, th', noMem);
      FinishAlloc(fs, th'.(pc := CAlloc), noMem);
    } else {
      Ended(fs, th', noMem);
    }
  }

  /** The steps of an undisturbed create amount to `CreateResult`. */
  lemma FinishCreate(fs: Fs, th: Thread, noMem: bool)
    requires th.pc == CWantD && th.err == 0
    ensures Finish(fs, th, noMem).0 == CreateResult(fs, th.no, th.name, th.mode, noMem)
  {
    hide Finish, CreateResult, CheckError;
    Pass(fs, th, noMem);
    Pass(fs, th.(pc := CWantM1), noMem);
    FinishStep(fs, th.(pc := CCount), noMem);
    var th' := Next(fs, th.(pc := CCount), noMem);
    Pass(fs, th', noMem);
    FinishCheck(fs, th'.(pc := CCheck), noMem);
  }

  // What remains of a write.

  lemma {:induction false} FinishCopy(fs: Fs, th: Thread, noMem: bool)
    requires th.pc == WCopy && th.done <= |th.data|
    ensures Finish(fs, th, noMem)
      == Finish(CopyAll(fs, th.no, th.pos, th.data, th.done), th.(pc := WWantM, done := |th.data|), noMem)
    decreases |th.data| - th.done
  {
    hide Finish, CopyByte, CheckError;
    FinishStep(fs, th, noMem);
    if th.done < |th.data| {
      FinishCopy(Effect(fs, th), th.(done := th.done + 1), noMem);
    }
  }

  lemma FinishSize(fs: Fs, th: Thread, noMem: bool)
    requires th.pc == WSetSize
    ensures Finish(fs, th, noMem).0 == SaveInode(SetFileSize(fs, th.no, th.pos + |th.data|), th.no)
  {
    hide Finish, SetFileSize, SaveInode, CheckError;
    Act(fs, th, noMem);
    Pass(Effect(fs, th), th.(pc := WWantS), noMem);
    FinishSave(Effect(fs, th), th.(pc := WSave), noMem);
  }

  /** The steps of a write from any point of its copy on. */
  lemma FinishFrom(fs: Fs, th: Thread, noMem: bool)
    requires th.pc == WCopy && th.done <= |th.data|
    ensures Finish(fs, th, noMem).0
         == SaveInode(SetFileSize(CopyAll(fs, th.no, th.pos, th.data, th.done), th.no, th.pos + |th.data|), th.no)
  {
    hide Finish, SetFileSize, SaveInode, CopyAll, CheckError;
    FinishCopy(fs, th, noMem);
    var fs1 := CopyAll(fs, th.no, th.pos, th.data, th.done);
    var a := th.(pc := WWantM, done := |th.data|);
    Pass(fs1, a, noMem);
    FinishSize(fs1, a.(pc := WSetSize), noMem);
  }

  /** The steps of an undisturbed write amount to `WriteResult`. */
  lemma FinishWrite(fs: Fs, th: Thread, noMem: bool)
    requires th.pc == WCopy && th.done == 0
    ensures Finish(fs, th, noMem).0 == WriteResult(fs, th.no, th.pos, th.data)
  {
    FinishFrom(fs, th, noMem);
  }

  // ---------- what an undisturbed operation keeps ----------

  /** The result of running one call alone on a well-formed image is well-formed, unless it raises `fault`. */
  lemma CallKeepsWellFormed(fs: Fs, th: Thread, noMem: bool)
    requires WellFormed(fs) && FreshCall(fs, th)
    ensures !Finish(fs, th, noMem).0.fault ==> WellFormed(Finish(fs, th, noMem).0)
  {
    hide WellFormed, Finish;
    var idle := th.(pc := Idle);
    var m := Machine(fs, map[], [idle]);
    assert Initial(m);
    var e := Start(0, th);
    InitialLocks(m);
    LocksKept(m, e);
    var rest := Alone(Apply(m, e), 0, noMem);
    FinishIdle(fs, th, noMem);
    var es := [e] + rest;
    assert es[1..] == rest && Run(m, es);
    QuietIsWellFormed(m, es);
  }

  lemma InitialLocks(m: Machine)
    requires Initial(m)
    ensures LocksOk(m)
  {
  }

  /** A create the kernel may ask for: in an in-core directory, with a name of at most NAME_MAX bytes. */
  predicate CanCreate(fs: Fs, dir: nat, name: Name)
  {
    dir in fs.core && IsDir(fs.core[dir].mode) && VfsName(name)
  }

  /** What keeps every access of a create in its block, and the name in its field. */
  predicate CreateFits(fs: Fs, dir: nat, name: Name)
  {
    CanCreate(fs, dir, name) && fs.core[dir].size < RECORDS_PER_BLOCK && |name| < FILENAME_MAXLEN
  }

  lemma CoreIsOld(fs: Fs, no: nat, limbo: set<nat>, dirty: set<nat>)
    requires Flat(fs, limbo) && CoreOk(fs, dirty) && no in fs.core
    ensures no != NewNumber(fs.count) && fs.core[no].block < |fs.blocks| && Shape(fs)
  {
    assert CoreEntryOk(fs, no, dirty);
  }

  lemma CreateFaultIff(fs: Fs, dir: nat, name: Name, mode: Mode, noMem: bool)
    requires Shape(fs) && !fs.fault && CanCreate(fs, dir, name)
    requires dir != NewNumber(fs.count) && fs.core[dir].block < |fs.blocks|
    ensures CreateResult(fs, dir, name, mode, noMem).fault
      <==> CreateError(fs, mode, noMem) == 0 && !CreateFits(fs, dir, name)
  {
  }

  /** A create keeps the image well-formed exactly when it fails, or its record and its name fit. */
  lemma CreateKeepsWellFormed(fs: Fs, dir: nat, name: Name, mode: Mode, noMem: bool)
    requires WellFormed(fs) && dir in fs.core && IsDir(fs.core[dir].mode) && |name| <= 255 && 0 !in name
    ensures WellFormed(CreateResult(fs, dir, name, mode, noMem))
       <==> CreateError(fs, mode, noMem) != 0 || (fs.core[dir].size < 16 && |name| <= 247)
  {
    hide Consistent, Flat, CoreOk, Finish, CreateResult, CreateError;
    Basics(fs, {}, {}, {});
    CoreIsOld(fs, dir, {}, {});
    CreateFaultIff(fs, dir, name, mode, noMem);
    var th := Thread(CWantD, dir, name, mode, 0, fs.core[dir], 0, [], 0, 0);
    CallKeepsWellFormed(fs, th, noMem);
    FinishCreate(fs, th, noMem);
  }

  predicate WriteFits(fs: Fs, no: nat, pos: nat, data: seq<Byte>)
  {
    no in fs.core && IsReg(fs.core[no].mode) && pos + |data| <= BLOCK_SIZE
  }

  lemma WriteNoFault(fs: Fs, no: nat, pos: nat, data: seq<Byte>)
    requires Shape(fs) && !fs.fault && WriteFits(fs, no, pos, data) && fs.core[no].block < |fs.blocks|
    ensures !WriteResult(fs, no, pos, data).fault
  {
    CopyAllIs(fs, no, pos, data, 0);
  }

  lemma SizeFaults(fs: Fs, no: nat, pos: nat, data: seq<Byte>)
    requires pos + |data| > BLOCK_SIZE
    ensures WriteResult(fs, no, pos, data).fault
  {
  }

  /** A write keeps the image well-formed exactly when it ends within the block. */
  lemma WriteKeepsWellFormed(fs: Fs, no: nat, pos: nat, data: seq<Byte>)
    requires WellFormed(fs) && no in fs.core && IsReg(fs.core[no].mode)
    ensures WellFormed(WriteResult(fs, no, pos, data)) <==> pos + |data| <= 4096
  {
    hide Consistent, Flat, CoreOk, Finish, WriteResult;
    Basics(fs, {}, {}, {});
    CoreIsOld(fs, no, {}, {});
    if pos + |data| <= BLOCK_SIZE {
      WriteNoFault(fs, no, pos, data);
    } else {
      SizeFaults(fs, no, pos, data);
    }
    var th := Thread(WCopy, no, [], fs.core[no].mode, 0, fs.core[no], pos, data, 0, 0);
    CallKeepsWellFormed(fs, th, false);
    FinishWrite(fs, th, false);
  }
}
