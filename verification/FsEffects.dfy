/**
 * Where operations take effect: a write where it sets the size, a create where it takes its block or gives up,
 * a load at once. Every operation does so once, between its start and its end.
 */
module FsEffects {
  import opened Bytes
  import opened Layout
  import opened FsState
  import opened FsMachine
  import opened FsLocking
  import opened FsSafety
  import opened FsTheorems
  import opened FsOps

  // ---------- whole operations ----------

  datatype Op =
    | CreateOp(dir: nat, name: Name, mode: Mode, noMem: bool)
    | WriteOp(no: nat, pos: nat, data: seq<Byte>)
    | LoadOp(no: nat)

  function Perform(fs: Fs, op: Op): Fs
  {
    match op
    case CreateOp(dir, name, mode, noMem) => CreateResult(fs, dir, name, mode, noMem)
    case WriteOp(no, pos, data) => WriteResult(fs, no, pos, data)
    case LoadOp(no) => LoadInode(fs, no)
  }

  function PerformAll(fs: Fs, ops: seq<Op>): Fs
    decreases |ops|
  {
    if ops == [] then fs else PerformAll(Perform(fs, ops[0]), ops[1..])
  }

  lemma {:induction false} PerformAppend(fs: Fs, a: seq<Op>, b: seq<Op>)
    ensures PerformAll(fs, a + b) == PerformAll(PerformAll(fs, a), b)
    decreases |a|
  {
    hide Perform;
    if a == [] {
      assert a + b == b;
    } else {
      assert (a + b)[1..] == a[1..] + b;
      PerformAppend(Perform(fs, a[0]), a[1..], b);
    }
  }

  // ---------- where they take effect ----------

  /** The step at which a create fails its checks. */
  predicate GivesUp(th: Thread, noMem: bool)
  {
    th.pc == CCheck && CheckError(th, noMem) != 0
  }

  predicate TakesEffect(th: Thread, noMem: bool)
  {
    th.pc == CAlloc || th.pc == WSetSize || GivesUp(th, noMem)
  }

  /** The operation a thread is in. */
  function OpOf(th: Thread): Op
  {
    if WritePc(th.pc) then WriteOp(th.no, th.pos, th.data) else CreateOp(th.no, th.name, th.mode, false)
  }

  /** The operation that takes effect with an event. */
  function Effective(m: Machine, e: Event): seq<Op>
    requires Allowed(m, e)
  {
    match e
    case Start(_, _) => []
    case Load(no) => [LoadOp(no)]
    case Step(t, noMem) =>
      var th := m.threads[t];
      if GivesUp(th, noMem) then [CreateOp(th.no, th.name, th.mode, noMem)]
      else if TakesEffect(th, noMem) then [OpOf(th)]
      else []
  }

  /** The operations of a run in the order in which they take effect. */
  function Serial(m: Machine, es: seq<Event>): seq<Op>
    requires Run(m, es)
    decreases |es|
  {
    if es == [] then [] else Effective(m, es[0]) + Serial(Apply(m, es[0]), es[1..])
  }

  // ---------- the operations of a run are those that were started ----------

  /** An operation, whether or not memory was short. */
  function Named(op: Op): Op { if op.CreateOp? then op.(noMem := false) else op }

  /** Nothing but the shortage of memory is left out of the name. */
  lemma SameName(a: Op, b: Op)
    ensures Named(a) == Named(b) <==> a == b || (a.CreateOp? && b.CreateOp? && a == b.(noMem := a.noMem))
  {
  }

  function NamedAll(ops: seq<Op>): (r: seq<Op>)
    ensures |r| == |ops| && forall i :: 0 <= i < |ops| ==> r[i] == Named(ops[i])
  {
    seq(|ops|, i requires 0 <= i < |ops| => Named(ops[i]))
  }

  /** The operations that calls of the kernel start with an event. */
  function StartedAt(e: Event): seq<Op>
  {
    match e
    case Start(_, th) => [OpOf(th)]
    case Load(no) => [LoadOp(no)]
    case Step(_, _) => []
  }

  function Started(es: seq<Event>): seq<Op>
  {
    if es == [] then [] else StartedAt(es[0]) + Started(es[1..])
  }

  /** How often an operation occurs, whether or not memory was short. */
  function Times(ops: seq<Op>, o: Op): nat
  {
    if ops == [] then 0 else (if Named(ops[0]) == o then 1 else 0) + Times(ops[1..], o)
  }

  lemma {:induction false} TimesAppend(a: seq<Op>, b: seq<Op>, o: Op)
    ensures Times(a + b, o) == Times(a, o) + Times(b, o)
    decreases |a|
  {
    if a == [] {
      assert a + b == b;
    } else {
      assert (a + b)[1..] == a[1..] + b;
      TimesAppend(a[1..], b, o);
    }
  }

  lemma {:induction false} TimesCounts(ops: seq<Op>, o: Op)
    ensures Times(ops, o) == multiset(NamedAll(ops))[o]
    decreases |ops|
  {
    if ops != [] {
      TimesCounts(ops[1..], o);
      assert NamedAll(ops) == [Named(ops[0])] + NamedAll(ops[1..]);
    } else {
      assert NamedAll(ops) == [];
    }
  }

  /** The thread is in an operation that has not taken effect yet. */
  predicate NotYet(th: Thread)
  {
    th.pc in {CWantD, CWantM1, CCount, CRelM1, CCheck, CWantS1, CAlloc, WCopy, WWantM, WSetSize}
  }

  function Outstanding(th: Thread, o: Op): nat
  {
    if NotYet(th) && OpOf(th) == o then 1 else 0
  }

  function AllOutstanding(ths: seq<Thread>, o: Op): nat
  {
    if ths == [] then 0 else Outstanding(ths[0], o) + AllOutstanding(ths[1..], o)
  }

  lemma {:induction false} OutstandingUpdate(ths: seq<Thread>, t: nat, th: Thread, o: Op)
    requires t < |ths|
    ensures AllOutstanding(ths[t := th], o) + Outstanding(ths[t], o) == AllOutstanding(ths, o) + Outstanding(th, o)
    decreases |ths|
  {
    hide Outstanding;
    if t > 0 {
      OutstandingUpdate(ths[1..], t - 1, th, o);
      assert ths[t := th][1..] == ths[1..][t - 1 := th];
    }
  }

  lemma EffectOnce(fs: Fs, th: Thread, noMem: bool)
    ensures NotYet(Next(fs, th, noMem)) <==> NotYet(th) && !TakesEffect(th, noMem)
    ensures TakesEffect(th, noMem) ==> NotYet(th)
    ensures var th' := Next(fs, th, noMem); th'.pc != Idle ==> OpOf(th') == OpOf(th)
  {
    hide FreeBlock, SaveFinds, CheckError;
  }

  lemma EffectiveTimes(m: Machine, t: nat, noMem: bool, o: Op)
    requires CanStep(m, t)
    ensures Times(Effective(m, Step(t, noMem)), o)
      == if TakesEffect(m.threads[t], noMem) && OpOf(m.threads[t]) == o then 1 else 0
  {
    hide CheckError;
    var ops := Effective(m, Step(t, noMem));
    if ops != [] { assert Named(ops[0]) == OpOf(m.threads[t]) && ops[1..] == []; }
  }

  lemma EventTimes(m: Machine, e: Event, o: Op)
    requires Allowed(m, e)
    ensures Times(Effective(m, e), o) + AllOutstanding(Apply(m, e).threads, o)
      == AllOutstanding(m.threads, o) + Times(StartedAt(e), o)
  {
    match e
    case Step(t, noMem) =>
      hide Next, Effect, NotYet, CheckError, OpOf, TakesEffect, Effective;
      EffectOnce(m.fs, m.threads[t], noMem);
      NotYetActive(Next(m.fs, m.threads[t], noMem));
      OutstandingUpdate(m.threads, t, Next(m.fs, m.threads[t], noMem), o);
      EffectiveTimes(m, t, noMem, o);
    case Start(t, th) =>
      OutstandingUpdate(m.threads, t, th, o);
    case Load(_) =>
  }

  lemma NotYetActive(th: Thread)
    ensures NotYet(th) ==> th.pc != Idle
  {
  }

  lemma {:induction false} RunTimes(m: Machine, es: seq<Event>, o: Op)
    requires Run(m, es)
    ensures Times(Serial(m, es), o) + AllOutstanding(After(m, es).threads, o)
      == AllOutstanding(m.threads, o) + Times(Started(es), o)
    decreases |es|
  {
    hide Apply, Effective, StartedAt, AllOutstanding;
    if es != [] {
      var m1 := Apply(m, es[0]);
      EventTimes(m, es[0], o);
      RunTimes(m1, es[1..], o);
      TimesAppend(Effective(m, es[0]), Serial(m1, es[1..]), o);
      TimesAppend(StartedAt(es[0]), Started(es[1..]), o);
    }
  }

  lemma {:induction false} NothingOutstanding(ths: seq<Thread>, o: Op)
    requires forall t :: 0 <= t < |ths| ==> ths[t].pc == Idle
    ensures AllOutstanding(ths, o) == 0
    decreases |ths|
  {
    if ths != [] { NothingOutstanding(ths[1..], o); }
  }

  lemma {:induction false} StartedNamed(es: seq<Event>)
    ensures NamedAll(Started(es)) == Started(es)
    decreases |es|
  {
    if es != [] {
      StartedNamed(es[1..]);
      assert forall op :: op in StartedAt(es[0]) ==> Named(op) == op;
    }
  }

  lemma SerialTimes(m: Machine, es: seq<Event>, o: Op)
    requires Run(m, es) && Quiet(m) && Quiet(After(m, es))
    ensures Times(Serial(m, es), o) == Times(Started(es), o)
  {
    hide Run, After;
    NothingOutstanding(m.threads, o);
    NothingOutstanding(After(m, es).threads, o);
    RunTimes(m, es, o);
  }

  /** Every operation started in a run that ends quiet takes effect in it, once, and no other does. */
  lemma SerialIsStarted(m: Machine, es: seq<Event>)
    requires Run(m, es) && Quiet(m) && Quiet(After(m, es))
    ensures multiset(NamedAll(Serial(m, es))) == multiset(Started(es))
  {
    hide Run, After, NamedAll;
    StartedNamed(es);
    forall o: Op ensures multiset(NamedAll(Serial(m, es)))[o] == multiset(Started(es))[o] {
      SerialTimes(m, es, o);
      TimesCounts(Serial(m, es), o);
      TimesCounts(Started(es), o);
    }
  }

  // ---------- once, between start and end ----------

  lemma {:induction false} RunPrefix(m: Machine, es: seq<Event>, k: nat)
    requires Run(m, es) && k < |es|
    ensures Run(m, es[..k]) && Run(m, es[..k + 1]) && Allowed(After(m, es[..k]), es[k])
    ensures After(m, es[..k + 1]) == Apply(After(m, es[..k]), es[k])
    decreases |es|
  {
    hide Apply, Allowed;
    if k == 0 {
      assert es[..1][1..] == [];
    } else {
      RunPrefix(Apply(m, es[0]), es[1..], k - 1);
      assert es[1..][..k - 1] == es[..k][1..] && es[1..][..k] == es[..k + 1][1..];
    }
  }

  /** The state after the first `k` events of a run. */
  function StateAt(m: Machine, es: seq<Event>, k: nat): Machine
    requires Run(m, es) && k <= |es|
  {
    if k < |es| then RunPrefix(m, es, k); After(m, es[..k]) else After(m, es)
  }

  lemma Moment(m: Machine, es: seq<Event>, k: nat)
    requires Run(m, es) && k < |es|
    ensures Allowed(StateAt(m, es, k), es[k]) && StateAt(m, es, k + 1) == Apply(StateAt(m, es, k), es[k])
    ensures Run(m, es[..k]) && StateAt(m, es, k) == After(m, es[..k])
  {
    hide Run, After, Apply, Allowed;
    RunPrefix(m, es, k);
    if k + 1 == |es| { assert es[..k + 1] == es; }
  }

  /** Event `k` is a step of thread `t` with which its operation takes effect. */
  ghost predicate EffectAt(m: Machine, es: seq<Event>, k: int, t: nat)
    requires Run(m, es)
  {
    && 0 <= k < |es| && es[k].Step? && es[k].t == t
    && var m' := StateAt(m, es, k); t < |m'.threads| && TakesEffect(m'.threads[t], es[k].noMem)
  }

  /** Thread `t` makes a call with event `i` and returns from it with event `j`. */
  ghost predicate Spans(m: Machine, es: seq<Event>, i: int, j: int, t: nat)
    requires Run(m, es)
  {
    && 0 <= i < j < |es| && es[i].Start? && es[i].t == t
    && (forall k :: i < k <= j ==> Busy(m, es, k, t)) && !Busy(m, es, j + 1, t)
  }

  ghost predicate Busy(m: Machine, es: seq<Event>, k: int, t: nat)
    requires Run(m, es)
  {
    0 <= k <= |es| && t < |StateAt(m, es, k).threads| && StateAt(m, es, k).threads[t].pc != Idle
  }

  lemma SameThreads(m: Machine, e: Event)
    requires Allowed(m, e)
    ensures |Apply(m, e).threads| == |m.threads|
    ensures forall t :: 0 <= t < |m.threads| && (e.Load? || e.t != t) ==> Apply(m, e).threads[t] == m.threads[t]
    ensures e.Step? ==> e.t < |m.threads| && Apply(m, e).threads[e.t] == Next(m.fs, m.threads[e.t], e.noMem)
    ensures e.Start? ==> e.t < |m.threads| && m.threads[e.t].pc == Idle && Apply(m, e).threads[e.t] == e.th
  {
  }

  /** The operation started at `i` at time `k`: not yet effective, or effective since the one event `at`. */
  ghost predicate Sofar(m: Machine, es: seq<Event>, i: int, k: int, t: nat, at: int)
    requires Run(m, es)
  {
    && 0 <= i < k <= |es| && es[i].Start? && t < |StateAt(m, es, k).threads|
    && (forall l :: i < l < k && l != at ==> !EffectAt(m, es, l, t))
    && var th := StateAt(m, es, k).threads[t];
       if at < 0 then NotYet(th) && OpOf(th) == OpOf(es[i].th)
       else
         && i < at < k && EffectAt(m, es, at, t) && OpOf(StateAt(m, es, at).threads[t]) == OpOf(es[i].th)
         && !NotYet(th) && t < |StateAt(m, es, at + 1).threads| && th.err == StateAt(m, es, at + 1).threads[t].err
  }

  /** A step of the thread itself. */
  lemma SofarOwn(m: Machine, es: seq<Event>, i: nat, k: nat, t: nat, at: int) returns (at': int)
    requires Inv(m) && Run(m, es) && k < |es| && !After(m, es).fs.fault
    requires Sofar(m, es, i, k, t, at) && es[k].Step? && es[k].t == t
    ensures Sofar(m, es, i, k + 1, t, at')
  {
    hide NotYet, OpOf, TakesEffect, StateAt, Next, Run, After, Inv, Apply, CanStep;
    var m' := StateAt(m, es, k);
    var e := es[k];
    Moment(m, es, k);
    SameThreads(m', e);
    StillInv(m, es, k);
    var th := m'.threads[t];
    EffectOnce(m'.fs, th, e.noMem);
    NotYetActive(Next(m'.fs, th, e.noMem));
    at' := at;
    if TakesEffect(th, e.noMem) {
      at' := k;
    } else if at >= 0 {
      ErrorStays(m', t, e.noMem);
    }
  }

  /** An event of someone else. */
  lemma SofarOther(m: Machine, es: seq<Event>, i: nat, k: nat, t: nat, at: int)
    requires Run(m, es) && k < |es| && Sofar(m, es, i, k, t, at) && Busy(m, es, k, t)
    requires !(es[k].Step? && es[k].t == t)
    ensures Sofar(m, es, i, k + 1, t, at)
  {
    hide NotYet, OpOf, TakesEffect, StateAt, Run, After, Apply, Allowed;
    Moment(m, es, k);
    SameThreads(StateAt(m, es, k), es[k]);
  }

  lemma {:induction false} SofarRun(m: Machine, es: seq<Event>, i: nat, k: nat, t: nat) returns (at: int)
    requires Inv(m) && Run(m, es) && !After(m, es).fs.fault && i < k <= |es| && es[i].Start? && es[i].t == t
    requires forall l :: i < l < k ==> Busy(m, es, l, t)
    ensures Sofar(m, es, i, k, t, at)
    decreases k
  {
    hide StateAt, Run, After, Inv, NotYet, OpOf, TakesEffect, Apply, Allowed, Busy;
    Moment(m, es, k - 1);
    if k == i + 1 {
      SameThreads(StateAt(m, es, i), es[i]);
      CallNotYet(StateAt(m, es, i), es[i]);
      at := -1;
    } else {
      var before := SofarRun(m, es, i, k - 1, t);
      if es[k - 1].Step? && es[k - 1].t == t {
        at := SofarOwn(m, es, i, k - 1, t, before);
      } else {
        SofarOther(m, es, i, k - 1, t, before);
        at := before;
      }
    }
  }

  lemma CallNotYet(m: Machine, e: Event)
    requires Allowed(m, e) && e.Start?
    ensures NotYet(e.th)
  {
  }

  /**
   * Every call that returns takes effect with exactly one event between its start and its end, as the operation
   * that was started, and returns the error it had then.
   */
  lemma OnceWithin(m: Machine, es: seq<Event>, i: nat, j: nat, t: nat) returns (k: nat)
    requires Inv(m) && Run(m, es) && !After(m, es).fs.fault && Spans(m, es, i, j, t)
    ensures i < k <= j && EffectAt(m, es, k, t) && OpOf(StateAt(m, es, k).threads[t]) == OpOf(es[i].th)
    ensures forall l :: i < l <= j && l != k ==> !EffectAt(m, es, l, t)
    ensures t < |StateAt(m, es, k + 1).threads| && t < |StateAt(m, es, j + 1).threads|
    ensures StateAt(m, es, j + 1).threads[t].err == StateAt(m, es, k + 1).threads[t].err
  {
    hide StateAt, Run, After, Inv, NotYet, OpOf, TakesEffect;
    var at := SofarRun(m, es, i, j + 1, t);
    if at < 0 {
      NotYetActive(StateAt(m, es, j + 1).threads[t]);
      assert false;
    }
    k := at;
  }

  /** Every call that is not under way any more at the end of a run has returned at some moment of it. */
  lemma CallsReturn(m: Machine, es: seq<Event>, i: nat) returns (j: nat)
    requires Run(m, es) && i < |es| && es[i].Start? && !Busy(m, es, |es|, es[i].t)
    ensures Spans(m, es, i, j, es[i].t)
  {
    hide StateAt, Run, After, Apply, Allowed;
    Moment(m, es, i);
    CallNotYet(StateAt(m, es, i), es[i]);
    NotYetActive(es[i].th);
    SameThreads(StateAt(m, es, i), es[i]);
    j := i + 1;
    while Busy(m, es, j + 1, es[i].t)
      invariant i < j < |es| && forall k :: i < k <= j ==> Busy(m, es, k, es[i].t)
      decreases |es| - j
    {
      j := j + 1;
    }
  }

  /** In every moment of a run without faults the invariant holds. */
  lemma StillInv(m: Machine, es: seq<Event>, k: nat)
    requires Inv(m) && Run(m, es) && k < |es| && !After(m, es).fs.fault
    ensures Inv(StateAt(m, es, k)) && !StateAt(m, es, k).fs.fault
  {
    hide Inv;
    Moment(m, es, k);
    RunInv(m, es[..k]);
    if After(m, es[..k]).fs.fault { FaultLater(m, es, k); }
  }

  lemma {:induction false} FaultLater(m: Machine, es: seq<Event>, k: nat)
    requires Run(m, es) && k <= |es| && Run(m, es[..k]) && After(m, es[..k]).fs.fault
    ensures After(m, es).fs.fault
    decreases |es|
  {
    hide Apply, Allowed;
    if k == 0 {
      FaultStaysInRun(m, es);
    } else {
      assert es[..k][1..] == es[1..][..k - 1];
      FaultLater(Apply(m, es[0]), es[1..], k - 1);
    }
  }

  /** After the effect a thread's error changes no more. */
  lemma ErrorStays(m: Machine, t: nat, noMem: bool)
    requires Inv(m) && !m.fs.fault && CanStep(m, t) && !NotYet(m.threads[t])
    ensures Next(m.fs, m.threads[t], noMem).err == m.threads[t].err
  {
    var th := m.threads[t];
    if th.pc in {CSave, WSave} {
      SavesNeverFail(m, t, noMem);
      SavesClean(m, t);
      assert Apply(m, Step(t, noMem)).threads[t] == Next(m.fs, th, noMem);
    } else {
      hide Inv, FreeBlock, CheckError;
    }
  }

  lemma SavesClean(m: Machine, t: nat)
    requires Inv(m) && !m.fs.fault && t < |m.threads| && m.threads[t].pc in {CSave, WSave}
    ensures m.threads[t].err == 0
  {
    hide Consistent;
    assert ThreadOk(m.fs, m.threads[t]);
  }
}
