/**
 * Any number of threads inside simplefs: create, mkdir and write, step by step, with the three
 * mutexes. A step is one lock operation or one access to shared state; a data copy takes one
 * step per byte. Lock acquisitions succeed once the lock is free.
 */
module FsMachine {
  import opened Bytes
  import opened Wrappers
  import opened Layout
  import opened FsState

  datatype Lock = DirLock | InodesLock | SbLock

  const ENOSPC: int := -28
  const EINVAL: int := -22
  const ENOMEM: int := -12
  const EIO: int := -5

  /** Where a thread is. C: simplefs_create_fs_object, W: simplefs_write. */
  datatype Pc =
    | Idle
    | CWantD | CWantM1 | CCount | CRelM1 | CCheck          // lock, read inodes_count, checks
    | CWantS1 | CAlloc | CRelS1                            // get_a_freeblock
    | CWantM2 | CWantS2 | CStore | CIncr | CRelS2 | CRelM2 // inode_add
    | CRecord                                              // write the directory record
    | CWantM3 | CBump | CWantS3 | CSave | CRelS3 | CRelM3  // dir_children_count++, inode_save
    | CRelD
    | WCopy | WWantM | WSetSize | WWantS | WSave | WRelS | WRelM

  /** A thread's position and its local variables. */
  datatype Thread = Thread(
    pc: Pc,
    no: nat,           // the directory or file operated on
    name: Name, mode: Mode,
    count: nat,        // `count`
    inode: Inode,      // `sfs_inode`
    pos: nat, data: seq<Byte>, done: nat, // file position, data to write, bytes copied
    err: int)

  datatype Machine = Machine(fs: Fs, owner: map<Lock, nat>, threads: seq<Thread>)

  /** The lock a thread at `pc` is about to take. */
  function Wants(pc: Pc): Option<Lock>
  {
    match pc
    case CWantD => Some(DirLock)
    case CWantM1 | CWantM2 | CWantM3 | WWantM => Some(InodesLock)
    case CWantS1 | CWantS2 | CWantS3 | WWantS => Some(SbLock)
    case _ => None
  }

  /** The lock a thread at `pc` is about to release. */
  function Frees(pc: Pc): Option<Lock>
  {
    match pc
    case CRelD => Some(DirLock)
    case CRelM1 | CRelM2 | CRelM3 | WRelM => Some(InodesLock)
    case CRelS1 | CRelS2 | CRelS3 | WRelS => Some(SbLock)
    case _ => None
  }

  predicate HoldsD(pc: Pc)
  {
    match pc
    case Idle | CWantD => false
    case WCopy | WWantM | WSetSize | WWantS | WSave | WRelS | WRelM => false
    case _ => true
  }

  predicate HoldsM(pc: Pc)
  {
    match pc
    case CCount | CRelM1 | CWantS2 | CStore | CIncr | CRelS2 | CRelM2 => true
    case CBump | CWantS3 | CSave | CRelS3 | CRelM3 => true
    case WSetSize | WWantS | WSave | WRelS | WRelM => true
    case _ => false
  }

  predicate HoldsS(pc: Pc)
  {
    match pc
    case CAlloc | CRelS1 | CStore | CIncr | CRelS2 | CSave | CRelS3 | WSave | WRelS => true
    case _ => false
  }

  predicate Holds(pc: Pc, l: Lock)
  {
    match l
    case DirLock => HoldsD(pc)
    case InodesLock => HoldsM(pc)
    case SbLock => HoldsS(pc)
  }

  function SetFileSize(fs: Fs, no: nat, size: nat): Fs
  {
    var fs' := SetSize(fs, no, size);
    fs'.(fault := fs'.fault || size > BLOCK_SIZE)
  }

  /** What the step at the thread's position does to the file system. */
  function Effect(fs: Fs, th: Thread): Fs
  {
    match th.pc
    case CAlloc => if FreeBlock(fs) < MAX_OBJECTS then TakeBlock(fs) else fs
    case CStore => StoreInode(fs, th.inode)
    case CIncr => CountInode(fs, th.inode)
    case CRecord => WriteRecord(fs, th.no, th.name, th.inode.no)
    case CBump => SetSize(fs, th.no, if th.no in fs.core then fs.core[th.no].size + 1 else 0)
    case CSave => SaveInode(fs, th.no)
    case WCopy => if th.done < |th.data| then CopyByte(fs, th.no, th.pos + th.done, th.data[th.done]) else fs
    case WSetSize => SetFileSize(fs, th.no, th.pos + |th.data|)
    case WSave => SaveInode(fs, th.no)
    case _ => fs
  }

  /** Where the step leads. */
  function NextPc(th: Thread, noMem: bool): Pc
  {
    match th.pc
    case Idle => Idle
    case CWantD => CWantM1
    case CWantM1 => CCount
    case CCount => CRelM1
    case CRelM1 => CCheck
    case CCheck => if CheckError(th, noMem) == 0 then CWantS1 else CRelD
    case CWantS1 => CAlloc
    case CAlloc => CRelS1
    case CRelS1 => if th.err == 0 then CWantM2 else CRelD
    case CWantM2 => CWantS2
    case CWantS2 => CStore
    case CStore => CIncr
    case CIncr => CRelS2
    case CRelS2 => CRelM2
    case CRelM2 => CRecord
    case CRecord => CWantM3
    case CWantM3 => CBump
    case CBump => CWantS3
    case CWantS3 => CSave
    case CSave => CRelS3
    case CRelS3 => CRelM3
    case CRelM3 => CRelD
    case CRelD => Idle
    case WCopy => if th.done < |th.data| then WCopy else WWantM
    case WWantM => WSetSize
    case WSetSize => WWantS
    case WWantS => WSave
    case WSave => WRelS
    case WRelS => WRelM
    case WRelM => Idle
  }

  /** The checks made before a block is taken. */
  function CheckError(th: Thread, noMem: bool): int
  {
    if th.count >= MAX_OBJECTS then ENOSPC
    else if !IsDir(th.mode) && !IsReg(th.mode) then EINVAL
    else if noMem then ENOMEM
    else 0
  }

  /** What the step does to the thread's other variables. */
  function Locals(fs: Fs, th: Thread, noMem: bool): Thread
  {
    match th.pc
    case CCount => th.(count := fs.count)
    case CCheck => th.(err := CheckError(th, noMem))
    case CAlloc =>
      if FreeBlock(fs) < MAX_OBJECTS then th.(inode := Inode(th.mode, NewNumber(th.count), FreeBlock(fs), 0))
      else th.(err := ENOSPC)
    case CSave | WSave => th.(err := if SaveFinds(fs, th.no) then 0 else EIO)
    case WCopy => if th.done < |th.data| then th.(done := th.done + 1) else th
    case _ => th
  }

  function Next(fs: Fs, th: Thread, noMem: bool): Thread
  {
    Locals(fs, th, noMem).(pc := NextPc(th, noMem))
  }

  /** A call the kernel may make: on an in-core directory or regular file. */
  predicate FreshCall(fs: Fs, th: Thread)
  {
    && th.err == 0 && th.done == 0 && th.no in fs.core
    && match th.pc
       case CWantD => IsDir(fs.core[th.no].mode) && VfsName(th.name)
       case WCopy => IsReg(fs.core[th.no].mode)
       case _ => false
  }

  /** One event of a run: a thread enters an operation, takes a step, or an inode is looked up. */
  datatype Event = Start(t: nat, th: Thread) | Step(t: nat, noMem: bool) | Load(no: nat)

  predicate CanStep(m: Machine, t: nat)
  {
    && t < |m.threads| && m.threads[t].pc != Idle
    && var w := Wants(m.threads[t].pc); w.Some? ==> w.value !in m.owner
  }

  predicate Allowed(m: Machine, e: Event)
  {
    match e
    case Start(t, th) => t < |m.threads| && m.threads[t].pc == Idle && FreshCall(m.fs, th)
    case Step(t, _) => CanStep(m, t)
    case Load(_) => true
  }

  function NewOwner(m: Machine, t: nat): map<Lock, nat>
    requires t < |m.threads|
  {
    var pc := m.threads[t].pc;
    if Wants(pc).Some? then m.owner[Wants(pc).value := t]
    else if Frees(pc).Some? then m.owner - {Frees(pc).value}
    else m.owner
  }

  function Apply(m: Machine, e: Event): Machine
    requires Allowed(m, e)
  {
    match e
    case Start(t, th) => m.(threads := m.threads[t := th])
    case Step(t, noMem) =>
      var th := m.threads[t];
      Machine(Effect(m.fs, th), NewOwner(m, t), m.threads[t := Next(m.fs, th, noMem)])
    case Load(no) => m.(fs := LoadInode(m.fs, no))
  }

  /** `es` is a run from `m`. */
  predicate Run(m: Machine, es: seq<Event>)
    decreases |es|
  {
    es == [] || (Allowed(m, es[0]) && Run(Apply(m, es[0]), es[1..]))
  }

  function After(m: Machine, es: seq<Event>): Machine
    requires Run(m, es)
    decreases |es|
  {
    if es == [] then m else After(Apply(m, es[0]), es[1..])
  }

  /** A freshly mounted well-formed image, nobody inside. */
  ghost predicate Initial(m: Machine)
  {
    WellFormed(m.fs) && m.owner == map[] && forall t :: 0 <= t < |m.threads| ==> m.threads[t].pc == Idle
  }
}
