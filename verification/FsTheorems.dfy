/** Consequences for whole runs: what holds of simplefs whichever way its threads interleave. */
module FsTheorems {
  import opened Layout
  import opened FsState
  import opened FsInvariant
  import opened FsMachine
  import opened FsLocking
  import opened FsSafety

  // ---------- quiescent states ----------

  /** When every operation has ended, the image is complete again and no lock is held. */
  lemma QuietIsWellFormed(m: Machine, es: seq<Event>)
    requires Initial(m) && Run(m, es) && Quiet(After(m, es))
    ensures After(m, es).owner == map[]
    ensures !After(m, es).fs.fault ==> WellFormed(After(m, es).fs)
  {
    hide Consistent, ThreadOk;
    InitialInv(m);
    RunInv(m, es);
    var m' := After(m, es);
    assert m'.owner == map[] by { assert forall l :: l !in m'.owner; }
  }

  /** Every started operation can be finished, from every reachable state. */
  lemma EveryRunDrains(m: Machine, es: seq<Event>) returns (more: seq<Event>)
    requires Initial(m) && Run(m, es)
    ensures Run(After(m, es), more) && OnlySteps(more)
    ensures Quiet(After(After(m, es), more)) && After(After(m, es), more).owner == map[]
    ensures |more| <= TotalLeft(After(m, es).threads)
  {
    InitialInv(m);
    RunInv(m, es);
    more := Drains(After(m, es));
    RunsEnd(After(m, es), more);
  }

  /** The tree, spelled out: each inode but the root is named by exactly one record, in an earlier directory. */
  lemma OneRecordEach(fs: Fs, c: nat) returns (k: nat, j: nat)
    requires WellFormed(fs) && 1 <= c < fs.count
    ensures k < c && Link(TreeOf(fs), k, j, c)
    ensures forall k', j' :: Link(TreeOf(fs), k', j', c) ==> k' == k && j' == j
    ensures Total(TreeOf(fs).kids) == fs.count - 1
  {
    var t := TreeOf(fs);
    assert HasRec(t, c);
    var k0, j0 :| Link(t, k0, j0, c);
    assert Resolves(t, k0, j0);
    k, j := k0, j0;
  }

  // ---------- accesses outside a block ----------

  /**
   * The three things a caller can ask for that the code does not check. The last two belong together: a file size
   * past the block counts as leaving it, even when no byte has been written there, because reads go by the size.
   */
  predicate Unchecked(fs: Fs, th: Thread)
  {
    || (th.pc == CRecord && th.no in fs.core
        && (fs.core[th.no].size >= RECORDS_PER_BLOCK || |th.name| >= FILENAME_MAXLEN))
    || (th.pc == WCopy && th.done < |th.data| && th.pos + th.done >= BLOCK_SIZE)
    || (th.pc == WSetSize && th.pos + |th.data| > BLOCK_SIZE)
  }

  lemma CoreBlock(fs: Fs, no: nat, limbo: set<nat>, dirty: set<nat>)
    requires Flat(fs, limbo) && CoreOk(fs, dirty) && no in fs.core
    ensures Shape(fs) && fs.core[no].block < |fs.blocks|
  {
    assert CoreEntryOk(fs, no, dirty);
  }

  lemma FaultCases(fs: Fs, th: Thread)
    requires Shape(fs) && th.no in fs.core && fs.core[th.no].block < |fs.blocks| && !fs.fault
    requires |th.name| <= VFS_NAME_MAX || th.pc != CRecord
    ensures Effect(fs, th).fault <==> Unchecked(fs, th)
  {
  }

  /** Nothing else ever leaves its block or its field: not the inode table, not the saves, not the allocator. */
  lemma FaultIffUnchecked(m: Machine, t: nat, noMem: bool)
    requires Inv(m) && !m.fs.fault && CanStep(m, t)
    ensures Apply(m, Step(t, noMem)).fs.fault <==> Unchecked(m.fs, m.threads[t])
  {
    hide Consistent, Counted, NotLinked, Flat, CoreOk, Effect, Unchecked;
    var th := m.threads[t];
    Basics(m.fs, Limbo(m), Orphans(m), Dirty(m));
    assert ThreadOk(m.fs, th);
    CoreBlock(m.fs, th.no, Limbo(m), Dirty(m));
    FaultCases(m.fs, th);
  }

  lemma LoadsNoFault(m: Machine, e: Event)
    requires Allowed(m, e) && !e.Step?
    ensures Apply(m, e).fs.fault == m.fs.fault
  {
  }

  /** Some step of the run asks for one of the unchecked things. */
  ghost predicate AsksTooMuch(m: Machine, es: seq<Event>)
    requires Run(m, es)
    decreases |es|
  {
    es != [] &&
    ((es[0].Step? && Unchecked(m.fs, m.threads[es[0].t])) || AsksTooMuch(Apply(m, es[0]), es[1..]))
  }

  /** A run raises `fault` exactly when one of its steps asks for one of these. */
  lemma {:induction false} FaultIffAsked(m: Machine, es: seq<Event>)
    requires Inv(m) && !m.fs.fault && Run(m, es)
    ensures After(m, es).fs.fault <==> AsksTooMuch(m, es)
    decreases |es|
  {
    hide Inv, Apply, Unchecked;
    if es != [] {
      var m1 := Apply(m, es[0]);
      EventInv(m, es[0]);
      if es[0].Step? {
        FaultIffUnchecked(m, es[0].t, es[0].noMem);
      } else {
        LoadsNoFault(m, es[0]);
      }
      if m1.fs.fault {
        FaultStaysInRun(m1, es[1..]);
      } else {
        FaultIffAsked(m1, es[1..]);
      }
    }
  }

  /** The search in simplefs_inode_save always finds the inode's slot: no operation ends in -EIO. */
  lemma SavesNeverFail(m: Machine, t: nat, noMem: bool)
    requires Inv(m) && !m.fs.fault && CanStep(m, t) && m.threads[t].pc in {CSave, WSave}
    ensures Apply(m, Step(t, noMem)).threads[t].err == 0
  {
    hide Consistent, Counted, Flat, CoreOk, Effect, SaveFinds, NextPc;
    var th := m.threads[t];
    assert ThreadOk(m.fs, th);
    Basics(m.fs, Limbo(m), Orphans(m), Dirty(m));
    TableShape(m.fs, Limbo(m));
    SaveSlot(m.fs, th.no, Dirty(m));
  }

  // ---------- slots, numbers and blocks ----------

  /** The table has grown by the inodes `c`; the slots already in use keep everything but their size. */
  ghost predicate GrownBy(fs: Fs, fs': Fs, c: seq<Inode>)
  {
    && fs'.count == fs.count + |c| && fs.count <= |fs.table| && fs'.count <= |fs'.table|
    && (forall k :: 0 <= k < fs.count ==> fs'.table[k] == fs.table[k].(size := fs'.table[k].size))
    && (forall i :: 0 <= i < |c| ==> fs'.table[fs.count + i] == c[i].(size := fs'.table[fs.count + i].size))
  }

  lemma GrownTransitive(a: Fs, b: Fs, c: Fs, x: seq<Inode>, y: seq<Inode>)
    requires GrownBy(a, b, x) && GrownBy(b, c, y)
    ensures GrownBy(a, c, x + y)
  {
    forall i | 0 <= i < |x + y|
      ensures c.table[a.count + i] == (x + y)[i].(size := c.table[a.count + i].size)
    {
      if i >= |x| { assert a.count + i == b.count + (i - |x|); }
    }
  }

  /** What the step of a thread adds to the table. */
  function Adds(th: Thread): seq<Inode>
  {
    if th.pc == CIncr then [th.inode] else []
  }

  lemma SaveGrows(fs: Fs, no: nat, dirty: set<nat>)
    requires Shape(fs) && CoreOk(fs, dirty) && no in fs.core
    ensures GrownBy(fs, SaveInode(fs, no), [])
  {
    SaveSlot(fs, no, dirty);
  }

  lemma StepGrows(fs: Fs, th: Thread, limbo: set<nat>, dirty: set<nat>)
    requires Flat(fs, limbo) && CoreOk(fs, dirty) && ThreadOk(fs, th) && !Effect(fs, th).fault
    ensures GrownBy(fs, Effect(fs, th), Adds(th))
  {
    hide Flat, CoreOk, NotLinked;
    TableShape(fs, limbo);
    if th.pc == CSave || th.pc == WSave { SaveGrows(fs, th.no, dirty); }
  }

  function EventAdds(m: Machine, e: Event): seq<Inode>
    requires Allowed(m, e)
  {
    if e.Step? then Adds(m.threads[e.t]) else []
  }

  /** The inodes that creates have added in the course of a run, in order. */
  function Created(m: Machine, es: seq<Event>): seq<Inode>
    requires Run(m, es)
    decreases |es|
  {
    if es == [] then [] else EventAdds(m, es[0]) + Created(Apply(m, es[0]), es[1..])
  }

  lemma LoadGrows(fs: Fs, no: nat)
    requires fs.count <= |fs.table|
    ensures GrownBy(fs, LoadInode(fs, no), [])
  {
  }

  lemma EventGrows(m: Machine, e: Event)
    requires Inv(m) && Allowed(m, e) && !m.fs.fault && !Apply(m, e).fs.fault
    ensures GrownBy(m.fs, Apply(m, e).fs, EventAdds(m, e))
  {
    hide Consistent, ThreadOk, Flat, CoreOk, Effect, GrownBy, Next, Adds;
    Basics(m.fs, Limbo(m), Orphans(m), Dirty(m));
    TableShape(m.fs, Limbo(m));
    match e
    case Step(t, noMem) => StepGrows(m.fs, m.threads[t], Limbo(m), Dirty(m));
    case Start(_, _) => NoGrowth(m.fs);
    case Load(no) => LoadGrows(m.fs, no);
  }

  lemma NoGrowth(fs: Fs)
    requires fs.count <= |fs.table|
    ensures GrownBy(fs, fs, [])
  {
  }

  lemma FaultBack(m: Machine, e: Event)
    requires Allowed(m, e) && m.fs.fault
    ensures Apply(m, e).fs.fault
  {
    match e
    case Step(t, _) => FaultStays(m.fs, m.threads[t]);
    case _ =>
  }

  lemma {:induction false} FaultStaysInRun(m: Machine, es: seq<Event>)
    requires Run(m, es) && m.fs.fault
    ensures After(m, es).fs.fault
    decreases |es|
  {
    if es != [] {
      FaultBack(m, es[0]);
      FaultStaysInRun(Apply(m, es[0]), es[1..]);
    }
  }

  /**
   * Over a whole run the table only grows, by exactly the inodes the creates made, in the order
   * in which they counted them.
   */
  lemma {:induction false} TableIsCreated(m: Machine, es: seq<Event>)
    requires Inv(m) && Run(m, es) && !After(m, es).fs.fault
    ensures !m.fs.fault && GrownBy(m.fs, After(m, es).fs, Created(m, es))
    decreases |es|
  {
    hide Inv, GrownBy, Apply, EventAdds;
    if m.fs.fault { FaultStaysInRun(m, es); }
    if es == [] {
      InvShape(m);
      NoGrowth(m.fs);
    } else {
      var m1 := Apply(m, es[0]);
      if m1.fs.fault { FaultStaysInRun(m1, es[1..]); }
      EventInv(m, es[0]);
      EventGrows(m, es[0]);
      TableIsCreated(m1, es[1..]);
      GrownTransitive(m.fs, m1.fs, After(m, es).fs, EventAdds(m, es[0]), Created(m1, es[1..]));
    }
  }

  lemma InvShape(m: Machine)
    requires Inv(m) && !m.fs.fault
    ensures Shape(m.fs) && NumbersOk(m.fs) && BlocksOk(m.fs, Limbo(m))
  {
  }

  /**
   * No two creates of a run, on whichever threads and however interleaved, ever get the same
   * inode number or the same data block, and none gets one that was in use before.
   */
  lemma CreatesNeverCollide(m: Machine, es: seq<Event>)
    requires Initial(m) && Run(m, es) && !After(m, es).fs.fault
    ensures var c := Created(m, es);
      && (forall i, j :: 0 <= i < j < |c| ==> c[i].no != c[j].no && c[i].block != c[j].block)
      && (forall j, k :: 0 <= j < |c| && 0 <= k < m.fs.count ==>
            m.fs.table[k].no != c[j].no && m.fs.table[k].block != c[j].block)
  {
    hide Inv, Consistent;
    InitialInv(m);
    RunInv(m, es);
    TableIsCreated(m, es);
    InvShape(After(m, es));
    var c, fs, fs' := Created(m, es), m.fs, After(m, es).fs;
    forall i, j | 0 <= i < j < |c| ensures c[i].no != c[j].no && c[i].block != c[j].block {
      assert fs'.table[fs.count + i] == c[i].(size := fs'.table[fs.count + i].size);
      assert fs'.table[fs.count + j] == c[j].(size := fs'.table[fs.count + j].size);
    }
    forall j, k | 0 <= j < |c| && 0 <= k < fs.count
      ensures fs.table[k].no != c[j].no && fs.table[k].block != c[j].block
    {
      assert fs'.table[k] == fs.table[k].(size := fs'.table[k].size);
      assert fs'.table[fs.count + j] == c[j].(size := fs'.table[fs.count + j].size);
    }
  }

  /** Objects are numbered in the order in which they are created, eight past their slot. */
  lemma {:induction false} CreatedNumbers(m: Machine, es: seq<Event>, i: nat)
    requires Inv(m) && Run(m, es) && !After(m, es).fs.fault && i < |Created(m, es)|
    ensures Created(m, es)[i].no == m.fs.count + i + 8
    decreases |es|
  {
    hide Inv, GrownBy, Apply, EventAdds;
    if m.fs.fault { FaultStaysInRun(m, es); }
    var m1 := Apply(m, es[0]);
    if m1.fs.fault { FaultStaysInRun(m1, es[1..]); }
    EventInv(m, es[0]);
    EventCount(m, es[0]);
    var n := |EventAdds(m, es[0])|;
    if i >= n { CreatedNumbers(m1, es[1..], i - n); }
  }

  lemma EventCount(m: Machine, e: Event)
    requires Inv(m) && Allowed(m, e) && !m.fs.fault && !Apply(m, e).fs.fault
    ensures Apply(m, e).fs.count == m.fs.count + |EventAdds(m, e)| && |EventAdds(m, e)| <= 1
    ensures forall a :: a in EventAdds(m, e) ==> a.no == m.fs.count + 8
  {
    EventGrows(m, e);
    hide Inv, Apply;
    if e.Step? && m.threads[e.t].pc == CIncr { StoreUsesCurrentCount(m, e.t); }
  }

  /**
   * The block a create takes, in whichever run: the lowest in 2..63 that is free, which is free no more, while nothing
   * else changes. When there is none, the create fails with -ENOSPC and changes nothing at all.
   */
  lemma AllocTakesLowest(m: Machine, t: nat, noMem: bool)
    requires Inv(m) && !m.fs.fault && CanStep(m, t) && m.threads[t].pc == CAlloc
    ensures var m' := Apply(m, Step(t, noMem)); var b := m'.threads[t].inode.block;
      if exists j :: 2 <= j < 64 && j in m.fs.free then
        && m'.threads[t].err == 0 && 2 <= b < 64 && b in m.fs.free && (forall j :: 2 <= j < b ==> j !in m.fs.free)
        && m'.fs == m.fs.(free := m.fs.free - {b})
      else m'.threads[t].err == -28 && m'.fs == m.fs
  {
    hide Consistent, LowestFree;
    assert ThreadOk(m.fs, m.threads[t]);
  }

  /** The count a create read is still the count when it stores, and number, slot and block are all unused. */
  lemma StoreUsesCurrentCount(m: Machine, t: nat)
    requires Inv(m) && !m.fs.fault && t < |m.threads| && m.threads[t].pc in {CStore, CIncr}
    ensures var th := m.threads[t];
      && th.count == m.fs.count < MAX_OBJECTS && th.inode.no == NewNumber(m.fs.count)
      && th.inode.block !in m.fs.free && FIRST_DATA_BLOCK <= th.inode.block < DEVICE_BLOCKS
      && forall k :: 0 <= k < m.fs.count ==> m.fs.table[k].no != th.inode.no && m.fs.table[k].block != th.inode.block
  {
    hide Consistent;
    InvShape(m);
    var th := m.threads[t];
    assert Holds(th.pc, DirLock);
    assert ThreadOk(m.fs, th);
    assert Limbo(m) == {th.inode.block};
    assert th.inode.block in Limbo(m);
  }
}
