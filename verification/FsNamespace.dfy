/** Names, contents and free space: what operations change and what they leave alone. */
module FsNamespace {
  import opened Wrappers
  import opened Layout
  import opened FsState
  import opened FsInvariant
  import opened FsMachine
  import opened FsLocking
  import opened FsSafety
  import opened FsTheorems

  // ---------- what a step leaves alone ----------

  /**
   * Everything there is about the inode in slot `k` is the same in both states: the slot, the data block, and
   * the in-core copy, if it has one. Being loaded in between makes no difference.
   */
  ghost predicate Untouched(fs: Fs, fs': Fs, k: int)
  {
    && 0 <= k < fs.count <= |fs.table| && k < fs'.count <= |fs'.table| && fs'.table[k] == fs.table[k]
    && fs.table[k].block < |fs.blocks| == |fs'.blocks| && fs'.blocks[fs.table[k].block] == fs.blocks[fs.table[k].block]
    && var x := fs.table[k].no;
       && (x in fs.core ==> x in fs'.core)
       && (x in fs'.core ==> fs'.core[x] == if x in fs.core then fs.core[x] else fs.table[k])
  }

  /** The slot and block of the inode a thread operates on. */
  lemma TargetSlot(fs: Fs, x: nat, limbo: set<nat>, dirty: set<nat>)
    requires Flat(fs, limbo) && CoreOk(fs, dirty) && x in fs.core
    ensures Shape(fs) && SlotOf(fs, x) < fs.count && fs.core[x].block == fs.table[SlotOf(fs, x)].block
    ensures forall k :: 0 <= k < fs.count ==> fs.table[k].block < |fs.blocks|
    ensures forall k :: 0 <= k < fs.count && fs.table[k].no != x ==>
      k != SlotOf(fs, x) && fs.table[k].block != fs.core[x].block
  {
    assert CoreEntryOk(fs, x, dirty);
  }

  lemma FreshNumber(fs: Fs, limbo: set<nat>)
    requires Flat(fs, limbo)
    ensures Shape(fs) && forall k :: 0 <= k < fs.count ==>
      fs.table[k].no != NewNumber(fs.count) && fs.table[k].block < |fs.blocks|
  {
  }

  lemma OthersUntouched(fs: Fs, th: Thread, limbo: set<nat>, dirty: set<nat>, k: nat)
    requires Flat(fs, limbo) && CoreOk(fs, dirty) && ThreadOk(fs, th) && !Effect(fs, th).fault
    requires k < fs.count <= |fs.table| && fs.table[k].no != th.no
    ensures Untouched(fs, Effect(fs, th), k)
  {
    hide Flat, CoreOk, NotLinked, SlotFrom;
    var x := fs.table[k].no;
    FreshNumber(fs, limbo);
    if x in fs.core { CoreKept(fs, th, limbo, dirty, x); }
    if th.pc != Idle { TargetSlot(fs, th.no, limbo, dirty); }
    if th.pc in {CSave, WSave} { SaveSlot(fs, th.no, dirty); }
  }

  /**
   * A step of an operation on one inode changes neither the slot nor the in-core copy nor a single data byte of any
   * other: writing a file changes no directory and no other file, creating changes no file.
   */
  lemma StepTouchesOnlyItsTarget(m: Machine, t: nat, noMem: bool, k: nat)
    requires Inv(m) && CanStep(m, t) && !m.fs.fault && !Apply(m, Step(t, noMem)).fs.fault
    requires k < m.fs.count <= |m.fs.table| && m.fs.table[k].no != m.threads[t].no
    ensures Untouched(m.fs, Apply(m, Step(t, noMem)).fs, k)
  {
    hide Consistent, ThreadOk, Flat, CoreOk, Effect, Next, Untouched;
    Basics(m.fs, Limbo(m), Orphans(m), Dirty(m));
    OthersUntouched(m.fs, m.threads[t], Limbo(m), Dirty(m), k);
  }

  lemma UntouchedTransitive(a: Fs, b: Fs, c: Fs, k: int)
    requires Untouched(a, b, k) && Untouched(b, c, k)
    ensures Untouched(a, c, k)
  {
  }

  lemma LoadUntouched(fs: Fs, no: nat, limbo: set<nat>, k: nat)
    requires Flat(fs, limbo) && k < fs.count <= |fs.table|
    ensures Untouched(fs, LoadInode(fs, no), k) && Untouched(fs, fs, k)
  {
    FreshNumber(fs, limbo);
    SlotUnique(fs, k);
  }

  lemma EventUntouched(m: Machine, e: Event, k: nat)
    requires Inv(m) && Allowed(m, e) && !m.fs.fault && !Apply(m, e).fs.fault && k < m.fs.count <= |m.fs.table|
    requires e.Step? ==> m.fs.table[k].no != m.threads[e.t].no
    ensures Untouched(m.fs, Apply(m, e).fs, k)
  {
    match e
    case Step(t, noMem) =>
      hide Untouched, Inv;
      StepTouchesOnlyItsTarget(m, t, noMem, k);
    case Start(_, _) =>
      hide Untouched, Consistent, Flat;
      Basics(m.fs, Limbo(m), Orphans(m), Dirty(m));
      LoadUntouched(m.fs, 0, Limbo(m), k);
    case Load(no) =>
      hide Untouched, Consistent, Flat;
      Basics(m.fs, Limbo(m), Orphans(m), Dirty(m));
      LoadUntouched(m.fs, no, Limbo(m), k);
  }

  /** No operation on inode `x` is under way. */
  predicate AtRest(ths: seq<Thread>, x: nat)
  {
    forall t :: 0 <= t < |ths| && ths[t].pc != Idle ==> ths[t].no != x
  }

  /** None is started in the run. */
  predicate NotStarted(es: seq<Event>, x: nat)
  {
    forall i :: 0 <= i < |es| && es[i].Start? ==> es[i].th.no != x
  }

  lemma StaysAtRest(m: Machine, e: Event, x: nat)
    requires Allowed(m, e) && AtRest(m.threads, x) && (e.Start? ==> e.th.no != x)
    ensures AtRest(Apply(m, e).threads, x)
  {
    hide Effect, NextPc, CheckError, FreeBlock, SaveFinds;
  }

  /**
   * Over every run, a file or directory that no operation is made on keeps its size, its place and every byte,
   * whatever is done to the others, and whether or not it is in core.
   */
  lemma {:induction false} RunTouchesOnlyTargets(m: Machine, es: seq<Event>, k: nat)
    requires Inv(m) && Run(m, es) && !After(m, es).fs.fault && k < m.fs.count <= |m.fs.table|
    requires AtRest(m.threads, m.fs.table[k].no) && NotStarted(es, m.fs.table[k].no)
    ensures Untouched(m.fs, After(m, es).fs, k)
    decreases |es|
  {
    hide Inv, Untouched, Apply;
    if m.fs.fault { FaultStaysInRun(m, es); }
    if es == [] {
      SelfUntouched(m, k);
    } else {
      var m1 := Apply(m, es[0]);
      if m1.fs.fault { FaultStaysInRun(m1, es[1..]); }
      StepperElsewhere(m, es[0], m.fs.table[k].no);
      EventInv(m, es[0]);
      EventUntouched(m, es[0], k);
      SameNumberAt(m.fs, m1.fs, k);
      StaysAtRest(m, es[0], m.fs.table[k].no);
      RunTouchesOnlyTargets(m1, es[1..], k);
      UntouchedTransitive(m.fs, m1.fs, After(m, es).fs, k);
    }
  }

  lemma SameNumberAt(fs: Fs, fs': Fs, k: int)
    requires Untouched(fs, fs', k)
    ensures 0 <= k < fs'.count <= |fs'.table| && 0 <= k < |fs.table| && fs'.table[k] == fs.table[k]
  {
  }

  lemma StepperElsewhere(m: Machine, e: Event, x: nat)
    requires Allowed(m, e) && AtRest(m.threads, x)
    ensures e.Step? ==> m.threads[e.t].no != x
  {
  }

  lemma SelfUntouched(m: Machine, k: nat)
    requires Inv(m) && !m.fs.fault && k < m.fs.count <= |m.fs.table|
    ensures Untouched(m.fs, m.fs, k)
  {
    hide Consistent, Flat;
    Basics(m.fs, Limbo(m), Orphans(m), Dirty(m));
    LoadUntouched(m.fs, 0, Limbo(m), k);
  }

  // ---------- directories as append-only lists of records ----------

  /** The records of a directory, in order, as `simplefs_iterate` emits them once it is in core. */
  function Entries(fs: Fs, d: nat): seq<DirRecord>
  {
    if d in fs.core then RecordsOf(fs.blocks, fs.core[d])
    else if fs.count <= |fs.table| && SlotOf(fs, d) < fs.count then RecordsOf(fs.blocks, fs.table[SlotOf(fs, d)])
    else []
  }

  function RecordsOf(blocks: seq<Block>, i: Inode): seq<DirRecord>
  {
    if i.block < |blocks| && i.size <= RECORDS_PER_BLOCK then EntriesIn(blocks[i.block], i.size) else []
  }

  /** Number `d` has a slot that holds a directory, whether or not it is in core. */
  predicate DirAt(fs: Fs, d: nat)
  {
    fs.count <= |fs.table| && SlotOf(fs, d) < fs.count && IsDir(fs.table[SlotOf(fs, d)].mode)
  }

  function EntriesIn(b: Block, n: nat): (r: seq<DirRecord>)
    requires n <= RECORDS_PER_BLOCK
    ensures |r| == n && forall j :: 0 <= j < n ==> r[j] == RecordAt(b, j)
  {
    seq(n, j requires 0 <= j < n => RecordAt(b, j))
  }

  /** The number of the first record with this name, as `simplefs_lookup` finds it. */
  function FirstMatch(es: seq<DirRecord>, name: Name): Option<nat>
  {
    if es == [] then None else if es[0].name == name then Some(es[0].no) else FirstMatch(es[1..], name)
  }

  /** It is the first in order: the names of all records before it differ, and there is none if all do. */
  lemma {:induction false} FirstMatchIs(es: seq<DirRecord>, name: Name)
    ensures FirstMatch(es, name) == None <==> forall i :: 0 <= i < |es| ==> es[i].name != name
    ensures forall i :: 0 <= i < |es| && es[i].name == name && (forall j :: 0 <= j < i ==> es[j].name != name) ==>
      FirstMatch(es, name) == Some(es[i].no)
    decreases |es|
  {
    if es != [] && es[0].name != name {
      FirstMatchIs(es[1..], name);
      forall i | 0 <= i < |es| && es[i].name == name && (forall j :: 0 <= j < i ==> es[j].name != name)
        ensures FirstMatch(es, name) == Some(es[i].no)
      {
        assert es[i] == es[1..][i - 1] && forall j :: 0 <= j < i - 1 ==> es[1..][j] == es[j + 1];
      }
      assert forall i :: 1 <= i < |es| ==> es[i] == es[1..][i - 1];
    }
  }

  lemma EntriesGrow(b: Block, n: nat)
    requires n < RECORDS_PER_BLOCK
    ensures EntriesIn(b, n + 1) == EntriesIn(b, n) + [RecordAt(b, n)]
  {
  }

  lemma PutRecordEntries(b: Block, n: nat, name: Name, no: nat)
    requires n < RECORDS_PER_BLOCK && |name| <= VFS_NAME_MAX
    ensures EntriesIn(PutRecord(b, n, name, no), n) == EntriesIn(b, n)
  {
    forall j | 0 <= j < n ensures RecordAt(PutRecord(b, n, name, no), j) == RecordAt(b, j) {
      PutRecordFrame(b, n, name, no, j);
    }
  }

  /** The only step that shows in a directory is the one that counts a new record. */
  function Appends(th: Thread, d: nat): seq<DirRecord>
  {
    if th.pc == CBump && th.no == d then [DirRecord(th.name, th.inode.no)] else []
  }

  lemma RecordEntries(fs: Fs, th: Thread, limbo: set<nat>, dirty: set<nat>, d: nat)
    requires Flat(fs, limbo) && CoreOk(fs, dirty) && th.pc == CRecord && !Effect(fs, th).fault && d in fs.core
    ensures Entries(Effect(fs, th), d) == Entries(fs, d)
  {
    hide Flat, CoreOk, PutRecord, EntriesIn;
    if d == th.no {
      PutRecordEntries(fs.blocks[fs.core[d].block], fs.core[d].size, th.name, th.inode.no);
    } else if th.no in fs.core {
      ApartInCore(fs, th.no, d, limbo, dirty);
    }
  }

  lemma BumpEntries(fs: Fs, th: Thread)
    requires ThreadOk(fs, th) && th.pc == CBump
    ensures Entries(Effect(fs, th), th.no) == Entries(fs, th.no) + [DirRecord(th.name, th.inode.no)]
  {
    EntriesGrow(fs.blocks[fs.core[th.no].block], fs.core[th.no].size);
  }

  lemma StepEntries(fs: Fs, th: Thread, limbo: set<nat>, dirty: set<nat>, d: nat)
    requires Flat(fs, limbo) && CoreOk(fs, dirty) && ThreadOk(fs, th) && !Effect(fs, th).fault
    requires d in fs.core && IsDir(fs.core[d].mode)
    ensures Entries(Effect(fs, th), d) == Entries(fs, d) + Appends(th, d)
  {
    hide Flat, CoreOk, EntriesIn, NotLinked, Counted;
    CoreKept(fs, th, limbo, dirty, d);
    if WritePc(th.pc) {
      WriterFrames(fs, th, limbo, dirty, d);
    } else if th.pc == CRecord {
      RecordEntries(fs, th, limbo, dirty, d);
    } else if th.pc == CBump && th.no == d {
      BumpEntries(fs, th);
    } else {
      assert Effect(fs, th).blocks == fs.blocks;
    }
  }

  /** A directory that is not in core is not operated on, so it keeps its records. */
  lemma SleepingEntries(fs: Fs, fs': Fs, d: nat)
    requires fs.count <= |fs.table| && SlotOf(fs, d) < fs.count && d !in fs.core && Untouched(fs, fs', SlotOf(fs, d))
    requires fs'.count <= |fs'.table| && SlotOf(fs', d) == SlotOf(fs, d)
    ensures Entries(fs', d) == Entries(fs, d)
  {
  }

  lemma DirInCore(m: Machine, d: nat)
    requires Inv(m) && !m.fs.fault && d in m.fs.core
    ensures DirAt(m.fs, d) <==> IsDir(m.fs.core[d].mode)
  {
    hide Consistent, Flat;
    Basics(m.fs, Limbo(m), Orphans(m), Dirty(m));
    TableShape(m.fs, Limbo(m));
    assert CoreEntryOk(m.fs, d, Dirty(m));
  }

  lemma StaysDir(m: Machine, e: Event, d: nat)
    requires Inv(m) && Allowed(m, e) && !m.fs.fault && !Apply(m, e).fs.fault && DirAt(m.fs, d)
    ensures DirAt(Apply(m, e).fs, d) && SlotOf(Apply(m, e).fs, d) == SlotOf(m.fs, d)
  {
    hide Inv, Apply, GrownBy;
    EventGrows(m, e);
    InvShape(m);
    GrownKeepsInode(m.fs, Apply(m, e).fs, EventAdds(m, e), SlotOf(m.fs, d));
  }

  /** Every event of every run leaves each directory as it was, or appends the record a create counts. */
  lemma EventEntries(m: Machine, e: Event, d: nat)
    requires Inv(m) && Allowed(m, e) && !m.fs.fault && !Apply(m, e).fs.fault && DirAt(m.fs, d)
    ensures DirAt(Apply(m, e).fs, d)
    ensures Entries(Apply(m, e).fs, d) == Entries(m.fs, d) + EventAppends(m, e, d)
  {
    hide Inv, Apply, Entries, EventAppends, DirAt;
    StaysDir(m, e, d);
    if d in m.fs.core {
      DirInCore(m, d);
      AwakeEntries(m, e, d);
    } else {
      AsleepEntries(m, e, d);
    }
  }

  lemma AsleepEntries(m: Machine, e: Event, d: nat)
    requires Inv(m) && Allowed(m, e) && !m.fs.fault && !Apply(m, e).fs.fault && DirAt(m.fs, d) && d !in m.fs.core
    ensures Entries(Apply(m, e).fs, d) == Entries(m.fs, d) && EventAppends(m, e, d) == []
  {
    hide Inv, Apply, Entries, Untouched, SlotFrom;
    StaysDir(m, e, d);
    TargetInCore(m, e);
    EventUntouched(m, e, SlotOf(m.fs, d));
    SleepingEntries(m.fs, Apply(m, e).fs, d);
  }

  /** Operations are on inodes in core. */
  lemma TargetInCore(m: Machine, e: Event)
    requires Inv(m) && Allowed(m, e) && !m.fs.fault
    ensures e.Step? ==> m.threads[e.t].no in m.fs.core
  {
    hide Consistent;
    if e.Step? { assert ThreadOk(m.fs, m.threads[e.t]); }
  }

  lemma AwakeEntries(m: Machine, e: Event, d: nat)
    requires Inv(m) && Allowed(m, e) && !m.fs.fault && !Apply(m, e).fs.fault
    requires d in m.fs.core && IsDir(m.fs.core[d].mode)
    ensures Entries(Apply(m, e).fs, d) == Entries(m.fs, d) + EventAppends(m, e, d)
  {
    match e
    case Step(t, noMem) =>
      hide Consistent, ThreadOk, Flat, CoreOk, Effect, Entries, Next, Appends;
      Basics(m.fs, Limbo(m), Orphans(m), Dirty(m));
      StepEntries(m.fs, m.threads[t], Limbo(m), Dirty(m), d);
    case Start(_, _) =>
      hide Consistent, ThreadOk;
    case Load(no) =>
      hide Consistent, ThreadOk;
  }

  lemma {:induction false} MatchStays(es: seq<DirRecord>, more: seq<DirRecord>, name: Name)
    requires FirstMatch(es, name).Some?
    ensures FirstMatch(es + more, name) == FirstMatch(es, name)
    decreases |es|
  {
    if es[0].name != name { MatchStays(es[1..], more, name); }
    assert (es + more)[1..] == es[1..] + more;
  }

  lemma {:induction false} MatchNew(es: seq<DirRecord>, r: DirRecord)
    requires FirstMatch(es, r.name) == None
    ensures FirstMatch(es + [r], r.name) == Some(r.no)
    decreases |es|
  {
    if es != [] {
      MatchNew(es[1..], r);
      assert (es + [r])[1..] == es[1..] + [r];
    }
  }

  lemma {:induction false} MatchOther(es: seq<DirRecord>, r: DirRecord, name: Name)
    requires name != r.name
    ensures FirstMatch(es + [r], name) == FirstMatch(es, name)
    decreases |es|
  {
    if es != [] {
      MatchOther(es[1..], r, name);
      assert (es + [r])[1..] == es[1..] + [r];
    }
  }

  /**
   * Counting the record of a new object makes its name resolve to it, unless the name was taken:
   * then it goes on resolving to the older object. No other name, in this directory or another, is touched.
   */
  lemma CreateResolves(m: Machine, t: nat, noMem: bool, d: nat, name: Name)
    requires Inv(m) && CanStep(m, t) && m.threads[t].pc == CBump && !m.fs.fault && !Apply(m, Step(t, noMem)).fs.fault
    requires DirAt(m.fs, d)
    ensures var th := m.threads[t];
            FirstMatch(Entries(Apply(m, Step(t, noMem)).fs, d), name)
            == if d == th.no && name == th.name && FirstMatch(Entries(m.fs, d), name) == None then Some(th.inode.no)
               else FirstMatch(Entries(m.fs, d), name)
  {
    hide Inv, Entries;
    EventEntries(m, Step(t, noMem), d);
    var th := m.threads[t];
    var es := Entries(m.fs, d);
    if d == th.no {
      var r := DirRecord(th.name, th.inode.no);
      if name != th.name {
        MatchOther(es, r, name);
      } else if FirstMatch(es, name) == None {
        MatchNew(es, r);
      } else {
        MatchStays(es, [r], name);
      }
    } else {
      assert es + [] == es;
    }
  }

  function EventAppends(m: Machine, e: Event, d: nat): seq<DirRecord>
    requires Allowed(m, e)
  {
    if e.Step? then Appends(m.threads[e.t], d) else []
  }

  /** The records that creates have counted in directory `d` in the course of a run, in order. */
  function Appended(m: Machine, es: seq<Event>, d: nat): seq<DirRecord>
    requires Run(m, es)
    decreases |es|
  {
    if es == [] then [] else EventAppends(m, es[0], d) + Appended(Apply(m, es[0]), es[1..], d)
  }

  /** Over every run a directory refines an append-only list: its old records, then those the creates counted. */
  lemma {:induction false} EntriesAreAppended(m: Machine, es: seq<Event>, d: nat)
    requires Inv(m) && Run(m, es) && !After(m, es).fs.fault && DirAt(m.fs, d)
    ensures Entries(After(m, es).fs, d) == Entries(m.fs, d) + Appended(m, es, d)
    decreases |es|
  {
    hide Inv, Entries, Apply, EventAppends;
    if m.fs.fault { FaultStaysInRun(m, es); }
    if es != [] {
      var m1 := Apply(m, es[0]);
      if m1.fs.fault { FaultStaysInRun(m1, es[1..]); }
      EventInv(m, es[0]);
      EventEntries(m, es[0], d);
      EntriesAreAppended(m1, es[1..], d);
    }
  }

  /** A name that resolves goes on resolving to the same inode, whatever the threads do. */
  lemma ResolvesForever(m: Machine, es: seq<Event>, d: nat, name: Name)
    requires Inv(m) && Run(m, es) && !After(m, es).fs.fault
    requires DirAt(m.fs, d) && FirstMatch(Entries(m.fs, d), name).Some?
    ensures FirstMatch(Entries(After(m, es).fs, d), name) == FirstMatch(Entries(m.fs, d), name)
  {
    hide Inv, Entries;
    EntriesAreAppended(m, es, d);
    MatchStays(Entries(m.fs, d), Appended(m, es, d), name);
  }

  /** Number `no` has a slot, and in both states it is the same slot with the same mode and block. */
  ghost predicate SameInode(fs: Fs, fs': Fs, no: nat)
  {
    && fs.count <= |fs.table| && fs'.count <= |fs'.table|
    && SlotOf(fs, no) < fs.count && SlotOf(fs', no) == SlotOf(fs, no) < fs'.count
    && fs'.table[SlotOf(fs, no)].mode == fs.table[SlotOf(fs, no)].mode
    && fs'.table[SlotOf(fs, no)].block == fs.table[SlotOf(fs, no)].block
  }

  lemma GrownKeepsInode(fs: Fs, fs': Fs, c: seq<Inode>, k: nat)
    requires GrownBy(fs, fs', c) && k < fs.count && SlotOf(fs, fs.table[k].no) == k
    ensures SameInode(fs, fs', fs.table[k].no)
  {
    forall i | 0 <= i <= k ensures fs'.table[i].no == fs.table[i].no {
      assert fs'.table[i] == fs.table[i].(size := fs'.table[i].size);
    }
  }

  /** Once an inode has a slot, every later look into the table finds it there, with the mode it was created with. */
  lemma InodeForever(m: Machine, es: seq<Event>, k: nat)
    requires Inv(m) && Run(m, es) && !After(m, es).fs.fault && k < m.fs.count <= |m.fs.table|
    ensures SameInode(m.fs, After(m, es).fs, m.fs.table[k].no)
  {
    hide Inv, GrownBy, SameInode;
    TableIsCreated(m, es);
    InvShape(m);
    SlotUnique(m.fs, k);
    GrownKeepsInode(m.fs, After(m, es).fs, Created(m, es), k);
  }

  /** What a create that is about to count its record knows of the object it has added. */
  lemma AddedObject(m: Machine, t: nat)
    requires Inv(m) && !m.fs.fault && t < |m.threads| && m.threads[t].pc == CBump
    ensures var th := m.threads[t];
      && th.no in m.fs.core && IsDir(m.fs.core[th.no].mode)
      && th.count < m.fs.count <= |m.fs.table| && m.fs.table[th.count].no == th.inode.no
        && m.fs.table[th.count].mode == th.mode
  {
    hide Consistent, CleanDir;
    assert ThreadOk(m.fs, m.threads[t]);
  }

  /**
   * A name that was not taken when the create of it counted its record: whatever any threads do from then on,
   * looking the name up in that directory finds the new inode, and the inode table has it with the mode asked for.
   */
  lemma CreatedIsFoundForever(m: Machine, t: nat, noMem: bool, es: seq<Event>)
    requires Inv(m) && CanStep(m, t) && m.threads[t].pc == CBump
    requires FirstMatch(Entries(m.fs, m.threads[t].no), m.threads[t].name) == None
    requires Run(Apply(m, Step(t, noMem)), es) && !After(Apply(m, Step(t, noMem)), es).fs.fault
    ensures var th := m.threads[t]; var fs' := After(Apply(m, Step(t, noMem)), es).fs;
      && FirstMatch(Entries(fs', th.no), th.name) == Some(th.inode.no)
      && fs'.count <= |fs'.table| && SlotOf(fs', th.inode.no) < fs'.count
      && fs'.table[SlotOf(fs', th.inode.no)].mode == th.mode
  {
    hide Inv, Entries, FirstMatch, GrownBy;
    var th := m.threads[t];
    var m1 := Apply(m, Step(t, noMem));
    if m.fs.fault { FaultStays(m.fs, th); }
    if m1.fs.fault { FaultStaysInRun(m1, es); }
    AddedObject(m, t);
    DirInCore(m, th.no);
    CreateResolves(m, t, noMem, th.no, th.name);
    EventEntries(m, Step(t, noMem), th.no);
    StepInv(m, t, noMem);
    assert m1.fs.table == m.fs.table && m1.fs.count == m.fs.count;
    ResolvesForever(m1, es, th.no, th.name);
    InvShape(m1);
    SlotUnique(m1.fs, th.count);
    InodeForever(m1, es, th.count);
  }

  /**
   * In every reachable state a load gives the inode in a slot its in-core copy, unless it has one, and changes nothing
   * else; and from then on an idle thread can be sent to write it, or to create in it.
   */
  lemma LoadBringsIn(m: Machine, k: nat, t: nat, th: Thread)
    requires Inv(m) && !m.fs.fault && k < m.fs.count <= |m.fs.table|
    requires t < |m.threads| && m.threads[t].pc == Idle
    requires th.no == m.fs.table[k].no && th.err == 0 && th.done == 0 && VfsName(th.name)
    requires th.pc == if IsDir(m.fs.table[k].mode) then CWantD else WCopy
    ensures var no := m.fs.table[k].no; var m' := Apply(m, Load(no));
      && m' == m.(fs := m.fs.(core := m'.fs.core))
      && m'.fs.core == (if no in m.fs.core then m.fs.core else m.fs.core[no := m.fs.table[k]])
      && Allowed(m', Start(t, th))
  {
    hide Consistent, Flat, LoadInode, SlotFrom;
    Basics(m.fs, Limbo(m), Orphans(m), Dirty(m));
    LoadEffect(m.fs, m.fs.table[k].no, Limbo(m));
    ModeInCore(m.fs, k, Limbo(m), Dirty(m));
  }

  lemma ModeInCore(fs: Fs, k: nat, limbo: set<nat>, dirty: set<nat>)
    requires Flat(fs, limbo) && CoreOk(fs, dirty) && k < fs.count <= |fs.table|
    ensures fs.table[k].no in fs.core ==> fs.core[fs.table[k].no].mode == fs.table[k].mode
    ensures IsDir(fs.table[k].mode) || IsReg(fs.table[k].mode)
  {
    assert InodeOk(fs.table[k]);
    if fs.table[k].no in fs.core { assert CoreEntryOk(fs, fs.table[k].no, dirty); }
  }

  // ---------- free space ----------

  function FreeData(fs: Fs): set<nat>
  {
    set b | b in fs.free && FIRST_DATA_BLOCK <= b < DEVICE_BLOCKS
  }

  /** Blocks free, in use, or taken by a create under way. */
  function Accounted(m: Machine): nat
  {
    |FreeData(m.fs)| + m.fs.count + |Limbo(m)|
  }

  lemma AccountedIs(m: Machine)
    ensures Accounted(m) == |set b | b in m.fs.free && 2 <= b < 64| + m.fs.count + |Limbo(m)|
  {
    assert FreeData(m.fs) == set b | b in m.fs.free && 2 <= b < 64;
  }

  lemma StepFree(fs: Fs, th: Thread)
    ensures FreeData(Effect(fs, th))
         == if th.pc == CAlloc && FreeBlock(fs) < MAX_OBJECTS then FreeData(fs) - {FreeBlock(fs)} else FreeData(fs)
  {
  }

  lemma LimboStep(fs: Fs, th: Thread, noMem: bool)
    requires HoldsD(th.pc) && (th.pc == CAlloc ==> th.err == 0)
    ensures |LimboOf(Next(fs, th, noMem))| == |LimboOf(th)|
              + (if th.pc == CAlloc && FreeBlock(fs) < MAX_OBJECTS then 1 else 0) - (if th.pc == CIncr then 1 else 0)
  {
  }

  lemma AllocErr(fs: Fs, th: Thread)
    requires ThreadOk(fs, th)
    ensures th.pc == CAlloc ==> th.err == 0
  {
  }

  lemma StepConserves(m: Machine, t: nat, noMem: bool)
    requires Inv(m) && CanStep(m, t) && !m.fs.fault && !Apply(m, Step(t, noMem)).fs.fault
    ensures Accounted(Apply(m, Step(t, noMem))) == Accounted(m)
  {
    hide Consistent, ThreadOk, Flat, CoreOk, Effect, Next, FreeData, FreeBlock, Limbo, LimboOf;
    var th := m.threads[t];
    EventGrows(m, Step(t, noMem));
    PendingAfter(m, t, noMem);
    StepFree(m.fs, th);
    if FreeBlock(m.fs) < MAX_OBJECTS { FreeBlockIsFree(m.fs); }
    if HoldsD(th.pc) {
      AllocErr(m.fs, th);
      LimboStep(m.fs, th, noMem);
    }
  }

  lemma FreeBlockIsFree(fs: Fs)
    requires FreeBlock(fs) < MAX_OBJECTS
    ensures FreeBlock(fs) in FreeData(fs)
  {
  }

  /** Over every run no data block is lost or gained: free ones plus objects, counting one a create has in hand. */
  lemma {:induction false} RunConserves(m: Machine, es: seq<Event>)
    requires Inv(m) && Run(m, es) && !After(m, es).fs.fault
    ensures Accounted(After(m, es)) == Accounted(m)
    ensures |set b | b in After(m, es).fs.free && 2 <= b < 64| + After(m, es).fs.count + |Limbo(After(m, es))|
      == |set b | b in m.fs.free && 2 <= b < 64| + m.fs.count + |Limbo(m)|
    decreases |es|
  {
    AccountedIs(m);
    AccountedIs(After(m, es));
    hide Inv, Apply, Accounted;
    if m.fs.fault { FaultStaysInRun(m, es); }
    if es != [] {
      var m1 := Apply(m, es[0]);
      if m1.fs.fault { FaultStaysInRun(m1, es[1..]); }
      EventInv(m, es[0]);
      EventConserves(m, es[0]);
      RunConserves(m1, es[1..]);
    }
  }

  lemma EventConserves(m: Machine, e: Event)
    requires Inv(m) && Allowed(m, e) && !m.fs.fault && !Apply(m, e).fs.fault
    ensures Accounted(Apply(m, e)) == Accounted(m)
  {
    if e.Step? {
      StepConserves(m, e.t, e.noMem);
    } else {
      OtherConserves(m, e);
    }
  }

  lemma OtherConserves(m: Machine, e: Event)
    requires LocksOk(m) && Allowed(m, e) && !e.Step?
    ensures Accounted(Apply(m, e)) == Accounted(m)
  {
    hide FreeData, LimboOf;
    var m' := Apply(m, e);
    assert FreeData(m'.fs) == FreeData(m.fs) by { SameFree(m.fs, m'.fs); }
    if e.Start? { assert DirLock in m.owner ==> m.owner[DirLock] != e.t; }
  }

  lemma SameFree(fs: Fs, fs': Fs)
    requires fs'.free == fs.free
    ensures FreeData(fs') == FreeData(fs)
  {
  }

  // -- the pigeonhole bound --

  function Range(lo: nat, hi: nat): (s: set<nat>)
    requires lo <= hi
    ensures |s| == hi - lo && forall b :: b in s <==> lo <= b < hi
    decreases hi - lo
  {
    if lo == hi then {} else {lo} + Range(lo + 1, hi)
  }

  function Owned(t: seq<Inode>): set<nat>
  {
    if t == [] then {} else Owned(t[..|t| - 1]) + {t[|t| - 1].block}
  }

  lemma {:induction false} OwnedBy(t: seq<Inode>, b: nat) returns (k: nat)
    requires b in Owned(t)
    ensures k < |t| && t[k].block == b
    decreases |t|
  {
    var n := |t| - 1;
    if t[n].block == b {
      k := n;
    } else {
      k := OwnedBy(t[..n], b);
    }
  }

  lemma {:induction false} OwnedSize(t: seq<Inode>)
    requires forall k, l :: 0 <= k < l < |t| ==> t[k].block != t[l].block
    ensures |Owned(t)| == |t|
    decreases |t|
  {
    if t != [] {
      var n := |t| - 1;
      OwnedSize(t[..n]);
      if t[n].block in Owned(t[..n]) {
        var k := OwnedBy(t[..n], t[n].block);
      }
    }
  }

  lemma SubsetSize(a: set<nat>, b: set<nat>)
    requires a <= b
    ensures |a| <= |b|
  {
    assert b == a + (b - a);
  }

  lemma Pigeonhole(a: set<nat>, b: set<nat>, c: set<nat>, lo: nat, hi: nat)
    requires a !! b && a !! c && b !! c && lo <= hi
    requires forall x :: x in a || x in b || x in c ==> lo <= x < hi
    ensures |a| + |b| + |c| <= hi - lo
  {
    assert |a + b + c| == |a| + |b| + |c|;
    SubsetSize(a + b + c, Range(lo, hi));
  }

  lemma BlockBound(fs: Fs, limbo: set<nat>)
    requires Shape(fs) && BlocksOk(fs, limbo)
    ensures |FreeData(fs)| + fs.count + |limbo| <= DEVICE_BLOCKS - FIRST_DATA_BLOCK
  {
    var t := fs.table[..fs.count];
    assert forall k :: 0 <= k < |t| ==> t[k] == fs.table[k];
    OwnedSize(t);
    forall b | b in Owned(t)
      ensures FIRST_DATA_BLOCK <= b < DEVICE_BLOCKS && b !in fs.free && b !in limbo
    {
      var k := OwnedBy(t, b);
    }
    Pigeonhole(Owned(t), FreeData(fs), limbo, FIRST_DATA_BLOCK, DEVICE_BLOCKS);
  }

  /** There are never more than 62 objects, so the inode table never overflows its block. */
  lemma AtMost62Objects(m: Machine)
    requires Inv(m) && !m.fs.fault
    ensures m.fs.count <= 62 && Accounted(m) <= 62
  {
    hide Inv;
    InvShape(m);
    BlockBound(m.fs, Limbo(m));
  }

  /** In every reachable state, an in-core inode that no save is pending for is exactly what a reload would return. */
  lemma ReloadAgrees(m: Machine, no: nat)
    requires Inv(m) && !m.fs.fault && no in m.fs.core && no !in Dirty(m)
    ensures m.fs.count <= |m.fs.table| && SlotOf(m.fs, no) < m.fs.count && m.fs.table[SlotOf(m.fs, no)] == m.fs.core[no]
  {
    hide Consistent, ThreadOk, Flat;
    Basics(m.fs, Limbo(m), Orphans(m), Dirty(m));
    TableShape(m.fs, Limbo(m));
    assert CoreEntryOk(m.fs, no, Dirty(m));
  }
}
