/**
 * Creates are atomic in every run, overlapping writes included: a run amounts to a sequence of whole creates,
 * loads, and single accesses of writes.
 */
module FsAtomic {
  import opened Layout
  import opened FsState
  import opened FsMachine
  import opened FsLocking
  import opened FsSafety
  import opened FsTheorems
  import opened FsOps
  import opened FsEffects
  import opened FsCommute
  import opened FsWork

  /** A whole operation, or one access of a write by some thread. */
  datatype Action = Whole(op: Op) | Access(t: nat, p: Prim)

  function Act(fs: Fs, a: Action): Fs
  {
    match a
    case Whole(op) => Perform(fs, op)
    case Access(_, p) => Do(fs, p)
  }

  function ActAll(fs: Fs, acts: seq<Action>): Fs
    decreases |acts|
  {
    if acts == [] then fs else ActAll(Act(fs, acts[0]), acts[1..])
  }

  /** What an event amounts to: creates act where they take their block or give up, writes access by access. */
  function ActionsAt(m: Machine, e: Event): seq<Action>
    requires Allowed(m, e)
  {
    match e
    case Start(_, _) => []
    case Load(no) => [Whole(LoadOp(no))]
    case Step(t, noMem) =>
      var th := m.threads[t];
      if WritePc(th.pc) then (if Head(th) == [] then [] else [Access(t, Head(th)[0])])
      else if GivesUp(th, noMem) then [Whole(CreateOp(th.no, th.name, th.mode, noMem))]
      else if th.pc == CAlloc then [Whole(CreateOp(th.no, th.name, th.mode, false))]
      else []
  }

  function Actions(m: Machine, es: seq<Event>): seq<Action>
    requires Run(m, es)
    decreases |es|
  {
    if es == [] then [] else ActionsAt(m, es[0]) + Actions(Apply(m, es[0]), es[1..])
  }

  /** The file system once the create that has its block is finished, and no one else gets any further. */
  function CreateDone(m: Machine): Fs
  {
    DoAll(m.fs, CreateWork(m))
  }

  lemma HeadIsOne(th: Thread)
    ensures |Head(th)| <= 1
  {
  }

  lemma WriterActs(m: Machine, t: nat, noMem: bool)
    requires LocksOk(m) && Ready(m) && CanStep(m, t) && WritePc(m.threads[t].pc)
    ensures CreateDone(Apply(m, Step(t, noMem))) == ActAll(CreateDone(m), ActionsAt(m, Step(t, noMem)))
  {
    var th := m.threads[t];
    WriterIn(m, t);
    WriterLeavesCreate(m, t, noMem);
    EffectIsHead(m.fs, th);
    HeadTame(m.fs, th);
    HeadIsOne(th);
    WriteElsewhere(m, t);
    hide Sane, OkAll, CreateWork, Tame, Apart, Work, Effect, Next, Head, WritePc, Do, LocksOk;
    MoveAllAhead(m.fs, CreateWork(m), Head(th));
    if Head(th) != [] { assert Head(th)[1..] == []; }
  }

  /** A write is never on the directory of the create under way. */
  lemma WriteElsewhere(m: Machine, t: nat)
    requires Ready(m) && t < |m.threads| && WritePc(m.threads[t].pc)
    ensures Apart(CreateWork(m), Head(m.threads[t]))
  {
    var th := m.threads[t];
    HeadTame(m.fs, th);
    if DirLock in m.owner { WorkOn(m.threads[m.owner[DirLock]]); }
    hide Work, Head;
    AwayIsApart(CreateWork(m), Head(th));
  }

  lemma CreatorActs(m: Machine, t: nat, noMem: bool)
    requires LocksOk(m) && CanStep(m, t) && !WritePc(m.threads[t].pc) && m.threads[t].pc != CAlloc
    ensures CreateDone(Apply(m, Step(t, noMem))) == CreateDone(m)
  {
    hide LocksOk, Work, Effect, Next, WritePc, CreateWork, DoAll, Head;
    var th := m.threads[t];
    CreateWorks(m, t, noMem);
    WorkLeft(m.fs, th, noMem);
    EffectIsHead(m.fs, th);
    DoAllAppend(m.fs, Head(th), Work(Next(m.fs, th, noMem)));
  }

  lemma GrantedActs(m: Machine, t: nat, noMem: bool)
    requires Inv(m) && !m.fs.fault && CanStep(m, t) && m.threads[t].pc == CAlloc && FreeBlock(m.fs) < MAX_OBJECTS
    ensures var th := m.threads[t];
      CreateDone(Apply(m, Step(t, noMem)))
        == LinkInto(AddInode(TakeBlock(m.fs), NewInode(m.fs, th.mode)), th.no, th.name, NewNumber(m.fs.count))
  {
    hide Inv, LocksOk, Work, DoAll, CreateWork, LinkInto, AddInode, LinkWork, LowestFree, Next, Effect, WritePc;
    GrantedThread(m, t, noMem);
    CreateWorks(m, t, noMem);
    DoCreate(TakeBlock(m.fs), Next(m.fs, m.threads[t], noMem));
  }

  lemma RefusedActs(m: Machine, t: nat, noMem: bool)
    requires LocksOk(m) && CanStep(m, t) && m.threads[t].pc == CAlloc && FreeBlock(m.fs) >= MAX_OBJECTS
    ensures CreateDone(Apply(m, Step(t, noMem))) == m.fs
  {
    hide LocksOk, Work, CreateWork, LowestFree, Next, Effect, WritePc;
    RefusedThread(m.fs, m.threads[t], noMem);
    CreateWorks(m, t, noMem);
  }

  /** A create that takes its block, or finds none. */
  lemma AllocDone(m: Machine, t: nat, noMem: bool)
    requires Inv(m) && !m.fs.fault && CanStep(m, t) && m.threads[t].pc == CAlloc
    ensures var th := m.threads[t];
      CreateDone(Apply(m, Step(t, noMem))) == CreateResult(CreateDone(m), th.no, th.name, th.mode, false)
  {
    hide Inv, LocksOk, Work, CreateWork, LinkInto, AddInode, LowestFree, Next, Effect, WritePc, TakeBlock, NewInode;
    Checked(m, t);
    CreateWorks(m, t, noMem);
    AtMost64(m.fs);
    assert CreateDone(m) == m.fs;
    hide CreateDone, Apply;
    if FreeBlock(m.fs) < MAX_OBJECTS {
      GrantedActs(m, t, noMem);
    } else {
      RefusedActs(m, t, noMem);
    }
  }

  lemma GivesUpActs(m: Machine, t: nat, noMem: bool)
    requires Inv(m) && !m.fs.fault && CanStep(m, t) && GivesUp(m.threads[t], noMem)
    ensures var th := m.threads[t];
      CreateDone(Apply(m, Step(t, noMem))) == CreateResult(CreateDone(m), th.no, th.name, th.mode, noMem)
  {
    hide Inv, LocksOk, LowestFree, LinkInto, AddInode, Work, WritePc, Next, Effect, CreateWork;
    var th := m.threads[t];
    Checked(m, t);
    CreateWorks(m, t, noMem);
    CreatorActs(m, t, noMem);
    assert CreateDone(m) == m.fs;
  }

  lemma LoadActs(m: Machine, no: nat)
    requires Ready(m)
    ensures CreateDone(Apply(m, Load(no))) == LoadInode(CreateDone(m), no)
  {
    hide Sane, OkAll, CreateWork, DoAll, LoadInode;
    LoadPastAll(m.fs, CreateWork(m), no);
    SameWork(m, no);
  }

  lemma EventActs(m: Machine, e: Event)
    requires Inv(m) && !m.fs.fault && Allowed(m, e)
    ensures CreateDone(Apply(m, e)) == ActAll(CreateDone(m), ActionsAt(m, e))
  {
    hide AllOk, Ready, LocksOk, CreateResult, LoadInode, CreateWork, DoAll, FreshCall, WritePc, Head, Do;
    ReadyNow(m);
    match e
    case Step(t, noMem) =>
      var th := m.threads[t];
      if WritePc(th.pc) {
        WriterActs(m, t, noMem);
      } else if GivesUp(th, noMem) {
        GivesUpActs(m, t, noMem);
      } else if th.pc == CAlloc {
        AllocDone(m, t, noMem);
      } else {
        CreatorActs(m, t, noMem);
      }
    case Start(t, th) =>
      StartLeavesCreate(m, t, th);
    case Load(no) =>
      LoadActs(m, no);
  }

  lemma {:induction false} ActAppend(fs: Fs, a: seq<Action>, b: seq<Action>)
    ensures ActAll(fs, a + b) == ActAll(ActAll(fs, a), b)
    decreases |a|
  {
    hide Act;
    if a == [] {
      assert a + b == b;
    } else {
      assert (a + b)[1..] == a[1..] + b;
      ActAppend(Act(fs, a[0]), a[1..], b);
    }
  }

  lemma {:induction false} RunActs(m: Machine, es: seq<Event>)
    requires Inv(m) && Run(m, es) && !After(m, es).fs.fault
    ensures CreateDone(After(m, es)) == ActAll(CreateDone(m), Actions(m, es))
    decreases |es|
  {
    hide Inv, CreateDone, Apply, ActionsAt;
    if m.fs.fault { FaultStaysInRun(m, es); }
    if es != [] {
      EventInv(m, es[0]);
      EventActs(m, es[0]);
      RunActs(Apply(m, es[0]), es[1..]);
      ActAppend(CreateDone(m), ActionsAt(m, es[0]), Actions(Apply(m, es[0]), es[1..]));
    }
  }

  lemma NoCreate(m: Machine)
    requires Quiet(m)
    ensures CreateDone(m) == m.fs
  {
  }

  // ---------- what the actions are ----------

  /** The accesses of thread `t`, in order. */
  function OfThread(acts: seq<Action>, t: nat): seq<Prim>
  {
    if acts == [] then []
    else (if acts[0].Access? && acts[0].t == t then [acts[0].p] else []) + OfThread(acts[1..], t)
  }

  function Wholes(acts: seq<Action>): seq<Op>
  {
    if acts == [] then [] else (if acts[0].Whole? then [acts[0].op] else []) + Wholes(acts[1..])
  }

  lemma {:induction false} SplitActions(a: seq<Action>, b: seq<Action>, t: nat)
    ensures OfThread(a + b, t) == OfThread(a, t) + OfThread(b, t) && Wholes(a + b) == Wholes(a) + Wholes(b)
    decreases |a|
  {
    if a == [] {
      assert a + b == b;
    } else {
      assert (a + b)[1..] == a[1..] + b;
      SplitActions(a[1..], b, t);
    }
  }

  /** The accesses of the writes that thread `t` starts, write by write. */
  function StartedWrites(es: seq<Event>, t: nat): seq<Prim>
  {
    if es == [] then [] else WriteStartedAt(es[0], t) + StartedWrites(es[1..], t)
  }

  function WriteStartedAt(e: Event, t: nat): seq<Prim>
  {
    if e.Start? && e.t == t && e.th.pc == WCopy then WriteWork(e.th.no, e.th.pos, e.th.data) else []
  }

  function WriteLeft(th: Thread): seq<Prim>
  {
    if WritePc(th.pc) then Work(th) else []
  }

  lemma HeadActions(m: Machine, u: nat, noMem: bool, t: nat)
    requires CanStep(m, u)
    ensures OfThread(ActionsAt(m, Step(u, noMem)), t)
      == if u == t && WritePc(m.threads[u].pc) then Head(m.threads[u]) else []
  {
    HeadIsOne(m.threads[u]);
    hide Head, WritePc, CheckError;
    var acts := ActionsAt(m, Step(u, noMem));
    if acts != [] { assert acts[1..] == []; }
  }

  lemma LeftAfter(fs: Fs, th: Thread, noMem: bool)
    ensures WriteLeft(th) == (if WritePc(th.pc) then Head(th) else []) + WriteLeft(Next(fs, th, noMem))
  {
    if WritePc(th.pc) {
      WorkLeft(fs, th, noMem);
    } else {
      CreatePcs(fs, th, noMem);
    }
  }

  lemma EventAccesses(m: Machine, e: Event, t: nat)
    requires Allowed(m, e) && t < |m.threads|
    ensures t < |Apply(m, e).threads|
    ensures OfThread(ActionsAt(m, e), t) + WriteLeft(Apply(m, e).threads[t])
      == WriteLeft(m.threads[t]) + WriteStartedAt(e, t)
  {
    SameThreads(m, e);
    match e
    case Step(u, noMem) =>
      hide WriteLeft, Head, WritePc, ActionsAt, Next, Effect;
      HeadActions(m, u, noMem, t);
      LeftAfter(m.fs, m.threads[u], noMem);
    case Start(u, th) =>
      if u == t { assert WriteLeft(th) == WriteStartedAt(e, t); }
    case Load(_) =>
  }

  lemma {:induction false} RunAccesses(m: Machine, es: seq<Event>, t: nat)
    requires Run(m, es) && t < |m.threads|
    ensures t < |After(m, es).threads|
    ensures OfThread(Actions(m, es), t) + WriteLeft(After(m, es).threads[t])
      == WriteLeft(m.threads[t]) + StartedWrites(es, t)
    decreases |es|
  {
    hide Apply, ActionsAt, WriteLeft, WriteStartedAt, OfThread;
    if es == [] {
      assert OfThread([], t) == [] by { NoActions(t); }
    } else {
      var m1 := Apply(m, es[0]);
      EventAccesses(m, es[0], t);
      RunAccesses(m1, es[1..], t);
      SplitActions(ActionsAt(m, es[0]), Actions(m1, es[1..]), t);
      var a, b, left := OfThread(ActionsAt(m, es[0]), t), OfThread(Actions(m1, es[1..]), t), WriteLeft(After(m,
        es).threads[t]);
      assert (a + b) + left == a + (b + left);
      assert a + (WriteLeft(m1.threads[t]) + StartedWrites(es[1..], t))
        == (a + WriteLeft(m1.threads[t])) + StartedWrites(es[1..], t);
    }
  }

  lemma NoActions(t: nat)
    ensures OfThread([], t) == []
  {
  }

  function NoWrites(ops: seq<Op>): seq<Op>
  {
    if ops == [] then [] else (if ops[0].WriteOp? then [] else [ops[0]]) + NoWrites(ops[1..])
  }

  lemma {:induction false} NoWritesAppend(a: seq<Op>, b: seq<Op>)
    ensures NoWrites(a + b) == NoWrites(a) + NoWrites(b)
    decreases |a|
  {
    if a == [] {
      assert a + b == b;
    } else {
      assert (a + b)[1..] == a[1..] + b;
      NoWritesAppend(a[1..], b);
    }
  }

  lemma EventWholes(m: Machine, e: Event)
    requires Allowed(m, e)
    ensures Wholes(ActionsAt(m, e)) == NoWrites(Effective(m, e))
  {
    hide CheckError, Head;
    var acts, ops := ActionsAt(m, e), Effective(m, e);
    if acts != [] { assert acts[1..] == []; }
    if ops != [] { assert ops[1..] == []; }
  }

  /** The whole operations are those that take effect, writes aside. */
  lemma {:induction false} WholesAreEffective(m: Machine, es: seq<Event>)
    requires Run(m, es)
    ensures Wholes(Actions(m, es)) == NoWrites(Serial(m, es))
    decreases |es|
  {
    hide Apply, ActionsAt, Effective, Wholes, NoWrites;
    if es != [] {
      var m1 := Apply(m, es[0]);
      EventWholes(m, es[0]);
      WholesAreEffective(m1, es[1..]);
      SplitActions(ActionsAt(m, es[0]), Actions(m1, es[1..]), 0);
      NoWritesAppend(Effective(m, es[0]), Serial(m1, es[1..]));
    } else {
      assert Wholes([]) == NoWrites([]) by { NoneWhole(); }
    }
  }

  lemma NoneWhole()
    ensures Wholes([]) == [] == NoWrites([])
  {
  }

  lemma {:induction false} NoWritesTimes(ops: seq<Op>, o: Op)
    ensures Times(NoWrites(ops), o) == if o.WriteOp? then 0 else Times(ops, o)
    decreases |ops|
  {
    if ops != [] {
      NoWritesTimes(ops[1..], o);
      TimesAppend(if ops[0].WriteOp? then [] else [ops[0]], NoWrites(ops[1..]), o);
    }
  }

  /** Hence they are the creates and loads that were started. */
  lemma WholesAreStarted(m: Machine, es: seq<Event>)
    requires Run(m, es) && Quiet(m) && Quiet(After(m, es))
    ensures multiset(NamedAll(Wholes(Actions(m, es)))) == multiset(NamedAll(NoWrites(Started(es))))
  {
    hide Run, After, NamedAll, NoWrites;
    WholesAreEffective(m, es);
    forall o: Op ensures multiset(NamedAll(NoWrites(Serial(m, es))))[o]
      == multiset(NamedAll(NoWrites(Started(es))))[o] {
      SerialTimes(m, es, o);
      NoWritesTimes(Serial(m, es), o);
      NoWritesTimes(Started(es), o);
      TimesCounts(NoWrites(Serial(m, es)), o);
      TimesCounts(NoWrites(Started(es)), o);
    }
  }

  /**
   * Whatever overlaps with what: when all operations of a run have ended, the file system is what its creates and
   * loads, each as a whole, and the single accesses of its writes produce one after the other. The creates and loads
   * are those that were started, each once, and every thread's accesses are those of its writes, in order.
   */
  lemma CreatesAreAtomic(m: Machine, es: seq<Event>)
    requires Initial(m) && Run(m, es) && Quiet(After(m, es)) && !After(m, es).fs.fault
    ensures After(m, es).fs == ActAll(m.fs, Actions(m, es))
    ensures multiset(NamedAll(Wholes(Actions(m, es)))) == multiset(NamedAll(NoWrites(Started(es))))
    ensures forall t :: 0 <= t < |m.threads| ==> OfThread(Actions(m, es), t) == StartedWrites(es, t)
  {
    hide WellFormed, CreateDone, Inv, Run, After, WriteLeft, OfThread;
    InitialInv(m);
    NoCreate(m);
    NoCreate(After(m, es));
    RunActs(m, es);
    WholesAreStarted(m, es);
    forall t | 0 <= t < |m.threads| ensures OfThread(Actions(m, es), t) == StartedWrites(es, t) {
      RunAccesses(m, es, t);
      NothingLeft(m.threads[t]);
      NothingLeft(After(m, es).threads[t]);
      assert OfThread(Actions(m, es), t) + [] == OfThread(Actions(m, es), t);
    }
  }

  lemma NothingLeft(th: Thread)
    ensures th.pc == Idle ==> WriteLeft(th) == []
  {
  }
}
