/** Lock ownership, lock order, and progress of the threads inside simplefs. */
module FsLocking {
  import opened FsState
  import opened Wrappers
  import opened FsMachine

  ghost predicate Owns(owner: map<Lock, nat>, ths: seq<Thread>)
  {
    && (forall l :: l in owner ==> owner[l] < |ths| && Holds(ths[owner[l]].pc, l))
    && (forall t, l :: 0 <= t < |ths| && Holds(ths[t].pc, l) ==> l in owner && owner[l] == t)
  }

  /** The mutexes are held by exactly the threads whose position says so. */
  ghost predicate LocksOk(m: Machine)
  {
    Owns(m.owner, m.threads)
  }

  function LockRank(l: Lock): nat
  {
    match l
    case DirLock => 0
    case InodesLock => 1
    case SbLock => 2
  }

  /** Locks are taken in the order directory-children, inodes-mgmt, superblock. */
  lemma LockOrder(pc: Pc, l: Lock)
    requires Wants(pc) == Some(l)
    ensures forall h :: Holds(pc, h) ==> LockRank(h) < LockRank(l)
    ensures l == DirLock ==> !Holds(pc, DirLock) && !Holds(pc, InodesLock) && !Holds(pc, SbLock)
    ensures l == InodesLock ==> !Holds(pc, InodesLock) && !Holds(pc, SbLock)
    ensures l == SbLock ==> !Holds(pc, SbLock)
  {
  }

  /** A step changes what a thread holds by exactly the lock it takes or releases. */
  lemma HoldsStep(th: Thread, noMem: bool, l: Lock)
    ensures Holds(NextPc(th, noMem), l) == ((Holds(th.pc, l) && Frees(th.pc) != Some(l)) || Wants(th.pc) == Some(l))
  {
  }

  lemma OwnsStep(owner: map<Lock, nat>, ths: seq<Thread>, t: nat, th: Thread, take: Option<Lock>, drop: Option<Lock>)
    requires Owns(owner, ths) && t < |ths|
    requires take.Some? ==> take.value !in owner
    requires drop.Some? ==> Holds(ths[t].pc, drop.value) && take == None
    requires forall l :: Holds(th.pc, l) == ((Holds(ths[t].pc, l) && drop != Some(l)) || take == Some(l))
    ensures Owns(if take.Some? then owner[take.value := t] else if drop.Some? then owner - {drop.value} else owner, ths[t := th])
  {
  }

  lemma FreesHeld(pc: Pc)
    ensures Frees(pc).Some? ==> Holds(pc, Frees(pc).value) && Wants(pc) == None
  {
  }

  lemma LocksKept(m: Machine, e: Event)
    requires LocksOk(m) && Allowed(m, e)
    ensures LocksOk(Apply(m, e))
  {
    match e
    case Load(_) =>
    case Start(t, th) => OwnsStep(m.owner, m.threads, t, th, None, None);
    case Step(t, noMem) =>
      var th := m.threads[t];
      FreesHeld(th.pc);
      forall l ensures Holds(NextPc(th, noMem), l)
        == ((Holds(th.pc, l) && Frees(th.pc) != Some(l)) || Wants(th.pc) == Some(l)) {
        HoldsStep(th, noMem, l);
      }
      OwnsStep(m.owner, m.threads, t, Next(m.fs, th, noMem), Wants(th.pc), Frees(th.pc));
  }

  predicate Has(m: Machine, t: nat, l: Lock) { l in m.owner && m.owner[l] == t }

  /**
   * What may be changed under which locks, whatever the thread is doing: the count of objects under all three, the
   * bitmap under the directory and superblock locks, the inode table under the inode and superblock locks, in-core
   * inodes under the inode lock. A create reads the count under the directory and inode locks.
   */
  lemma ChangesAreLocked(m: Machine, t: nat, noMem: bool)
    requires LocksOk(m) && CanStep(m, t)
    ensures var fs, fs' := m.fs, Apply(m, Step(t, noMem)).fs;
      && (fs'.count != fs.count ==> Has(m, t, DirLock) && Has(m, t, InodesLock) && Has(m, t, SbLock))
      && (fs'.free != fs.free ==> Has(m, t, DirLock) && Has(m, t, SbLock))
      && (fs'.table != fs.table ==> Has(m, t, InodesLock) && Has(m, t, SbLock))
      && (fs'.core != fs.core ==> Has(m, t, InodesLock))
    ensures Apply(m, Step(t, noMem)).threads[t].count != m.threads[t].count ==>
      Has(m, t, DirLock) && Has(m, t, InodesLock)
  {
    HeldAreOwned(m, t);
    hide LocksOk, StoreInode, WriteRecord, SearchSlot;
  }

  lemma HeldAreOwned(m: Machine, t: nat)
    requires LocksOk(m) && t < |m.threads|
    ensures forall l :: Holds(m.threads[t].pc, l) ==> Has(m, t, l)
  {
  }

  // ---------- progress ----------

  ghost predicate Quiet(m: Machine)
  {
    forall t :: 0 <= t < |m.threads| ==> m.threads[t].pc == Idle
  }

  /** A holder of a lock that ranks highest among those held is never blocked. */
  lemma TopHolderSteps(m: Machine, l: Lock)
    requires LocksOk(m) && l in m.owner
    requires forall h :: h in m.owner ==> LockRank(h) <= LockRank(l)
    ensures CanStep(m, m.owner[l])
  {
    var pc := m.threads[m.owner[l]].pc;
    if Wants(pc).Some? { LockOrder(pc, Wants(pc).value); }
  }

  /** No reachable state is deadlocked: while any operation is under way, some thread inside one can step. */
  lemma NoDeadlock(m: Machine) returns (t: nat)
    requires LocksOk(m) && !Quiet(m)
    ensures CanStep(m, t)
  {
    if SbLock in m.owner {
      TopHolderSteps(m, SbLock);
      t := m.owner[SbLock];
    } else if InodesLock in m.owner {
      TopHolderSteps(m, InodesLock);
      t := m.owner[InodesLock];
    } else if DirLock in m.owner {
      TopHolderSteps(m, DirLock);
      t := m.owner[DirLock];
    } else {
      t :| 0 <= t < |m.threads| && m.threads[t].pc != Idle;
    }
  }

  /** An upper bound on the steps a thread still has to take in its operation. */
  function StepsLeft(th: Thread): nat
  {
    match th.pc
    case Idle => 0
    case CWantD => 22 case CWantM1 => 21 case CCount => 20 case CRelM1 => 19 case CCheck => 18
    case CWantS1 => 17 case CAlloc => 16 case CRelS1 => 15
    case CWantM2 => 14 case CWantS2 => 13 case CStore => 12 case CIncr => 11 case CRelS2 => 10 case CRelM2 => 9
    case CRecord => 8
    case CWantM3 => 7 case CBump => 6 case CWantS3 => 5 case CSave => 4 case CRelS3 => 3 case CRelM3 => 2
    case CRelD => 1
    case WCopy => 7 + (if th.done < |th.data| then |th.data| - th.done else 0)
    case WWantM => 6 case WSetSize => 5 case WWantS => 4 case WSave => 3 case WRelS => 2 case WRelM => 1
  }

  function TotalLeft(ths: seq<Thread>): nat
  {
    if ths == [] then 0 else StepsLeft(ths[0]) + TotalLeft(ths[1..])
  }

  lemma {:induction false} TotalLeftUpdate(ths: seq<Thread>, t: nat, th: Thread)
    requires t < |ths|
    ensures TotalLeft(ths[t := th]) == TotalLeft(ths) - StepsLeft(ths[t]) + StepsLeft(th)
    decreases |ths|
  {
    if t == 0 {
      assert ths[t := th][1..] == ths[1..];
    } else {
      TotalLeftUpdate(ths[1..], t - 1, th);
      assert ths[t := th][1..] == ths[1..][t - 1 := th];
    }
  }

  lemma LeftDecreases(fs: Fs, th: Thread, noMem: bool)
    requires th.pc != Idle
    ensures StepsLeft(Next(fs, th, noMem)) < StepsLeft(th)
  {
  }

  lemma StepDecreases(m: Machine, t: nat, noMem: bool)
    requires CanStep(m, t)
    ensures TotalLeft(Apply(m, Step(t, noMem)).threads) < TotalLeft(m.threads)
  {
    LeftDecreases(m.fs, m.threads[t], noMem);
    TotalLeftUpdate(m.threads, t, Next(m.fs, m.threads[t], noMem));
  }

  ghost predicate OnlySteps(es: seq<Event>)
  {
    forall i :: 0 <= i < |es| ==> es[i].Step?
  }

  /** Whatever the schedule, operations already under way take a bounded number of steps in all. */
  lemma {:induction false} RunsEnd(m: Machine, es: seq<Event>)
    requires Run(m, es) && OnlySteps(es)
    ensures |es| + TotalLeft(After(m, es).threads) <= TotalLeft(m.threads)
    decreases |es|
  {
    if es != [] {
      assert es[0].Step?;
      StepDecreases(m, es[0].t, es[0].noMem);
      RunsEnd(Apply(m, es[0]), es[1..]);
    }
  }

  /** Every operation under way can be brought to its end; then no lock is held. */
  lemma {:induction false} Drains(m: Machine) returns (es: seq<Event>)
    requires LocksOk(m)
    ensures Run(m, es) && OnlySteps(es)
    ensures Quiet(After(m, es)) && After(m, es).owner == map[]
    decreases TotalLeft(m.threads)
  {
    if Quiet(m) {
      es := [];
      assert forall l :: l !in m.owner;
    } else {
      var t := NoDeadlock(m);
      var e := Step(t, false);
      StepDecreases(m, t, false);
      LocksKept(m, e);
      var rest := Drains(Apply(m, e));
      es := [e] + rest;
      assert es[1..] == rest;
    }
  }
}
