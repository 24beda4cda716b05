/**
 * The mutex demo: threads reading and writing one shared buffer under a mutex, with copies that
 * take one step per byte, and the atomic buffer they amount to.
 */
module MutexBuffer {
  import opened Bytes
  import opened Wrappers

  const SIZE: nat := 0x100

  type Buffer = b: seq<Byte> | |b| == SIZE witness seq(SIZE, _ => 0)

  /** A call: how much to read, or what to write. At most SIZE bytes either way. */
  datatype Op = Read(size: nat) | Write(data: seq<Byte>)

  predicate Fits(op: Op)
  {
    match op
    case Read(size) => size <= SIZE
    case Write(data) => |data| <= SIZE
  }

  function Length(op: Op): nat
  {
    match op
    case Read(size) => size
    case Write(data) => |data|
  }

  // ---------- the atomic buffer ----------

  function Effect(b: Buffer, op: Op): Buffer
    requires Fits(op)
  {
    match op
    case Read(_) => b
    case Write(data) => Overwrite(b, 0, data)
  }

  /** What a call hands back: the bytes read. */
  function Answer(b: Buffer, op: Op): seq<Byte>
    requires Fits(op)
  {
    match op
    case Read(size) => b[..size]
    case Write(_) => []
  }

  /** A completed call in the linear order: what was asked, what came back, when it was made and took effect. */
  datatype Entry = Entry(op: Op, answer: seq<Byte>, invoked: nat, linearized: nat)

  predicate AllFit(log: seq<Entry>)
  {
    forall i :: 0 <= i < |log| ==> Fits(log[i].op)
  }

  function Replay(b: Buffer, log: seq<Entry>): Buffer
    requires AllFit(log)
  {
    if log == [] then b else Effect(Replay(b, log[..|log| - 1]), log[|log| - 1].op)
  }

  // ---------- the threads ----------

  /** A thread's place in `read_file` or `write_file`. */
  datatype Thread =
    | Idle
    | Waiting(op: Op, invoked: nat)                            // before mutex_lock
    | Copying(op: Op, invoked: nat, done: nat, got: seq<Byte>) // holding the mutex
    | Done(entry: nat, answer: seq<Byte>)                      // mutex released, about to return

  /** A return: the call's index in the log, when, and the bytes handed to the caller. */
  datatype Response = Response(entry: nat, at: nat, answer: seq<Byte>)

  datatype State = State(
    buff: Buffer,
    owner: Option<nat>,
    threads: seq<Thread>,
    clock: nat,
    log: seq<Entry>,               // history: calls in the order in which they released the mutex
    returned: seq<Response>)       // history: the calls that have returned

  datatype Event = Invoke(t: nat, op: Op) | Acquire(t: nat) | CopyByte(t: nat) | Release(t: nat) | Return(t: nat)

  predicate Allowed(s: State, e: Event)
  {
    e.t < |s.threads| &&
    match e
    case Invoke(t, op) => s.threads[t].Idle? && Fits(op)
    case Acquire(t) => s.threads[t].Waiting? && s.owner == None
    case CopyByte(t) => s.threads[t].Copying? && s.threads[t].done < Length(s.threads[t].op) && s.threads[t].done < SIZE
    case Release(t) => s.threads[t].Copying? && s.threads[t].done >= Length(s.threads[t].op)
    case Return(t) => s.threads[t].Done?
  }

  /** The buffer after the copy of one more byte. */
  function CopyOne(b: Buffer, th: Thread): Buffer
    requires th.Copying? && th.done < SIZE
  {
    if th.op.Write? && th.done < |th.op.data| then b[th.done := th.op.data[th.done]] else b
  }

  function Got(b: Buffer, th: Thread): seq<Byte>
    requires th.Copying? && th.done < SIZE
  {
    if th.op.Read? then th.got + [b[th.done]] else th.got
  }

  function Apply(s: State, e: Event): State
    requires Allowed(s, e)
  {
    var s := s.(clock := s.clock + 1);
    match e
    case Invoke(t, op) => s.(threads := s.threads[t := Waiting(op, s.clock)])
    case Acquire(t) => s.(owner := Some(t), threads := s.threads[t := Copying(s.threads[t].op, s.threads[t].invoked, 0, [])])
    case CopyByte(t) =>
      var th := s.threads[t];
      s.(buff := CopyOne(s.buff, th), threads := s.threads[t := th.(done := th.done + 1, got := Got(s.buff, th))])
    case Release(t) =>
      var th := s.threads[t];
      s.(owner := None, log := s.log + [Entry(th.op, th.got, th.invoked, s.clock)], threads := s.threads[t := Done(|s.log|, th.got)])
    case Return(t) => s.(returned := s.returned + [Response(s.threads[t].entry, s.clock, s.threads[t].answer)], threads := s.threads[t := Idle])
  }

  predicate Run(s: State, es: seq<Event>)
    decreases |es|
  {
    es == [] || (Allowed(s, es[0]) && Run(Apply(s, es[0]), es[1..]))
  }

  function After(s: State, es: seq<Event>): State
    requires Run(s, es)
    decreases |es|
  {
    if es == [] then s else After(Apply(s, es[0]), es[1..])
  }

  predicate Initial(s: State, b: Buffer)
  {
    && s.buff == b && s.owner == None && s.clock == 0 && s.log == [] && s.returned == []
    && forall t :: 0 <= t < |s.threads| ==> s.threads[t] == Idle
  }

  // ---------- the invariant ----------

  /** Every call in the log has the answer the atomic buffer gives at its turn. */
  ghost predicate Legal(b: Buffer, log: seq<Entry>)
  {
    AllFit(log) && forall i :: 0 <= i < |log| ==> log[i].answer == Answer(Replay(b, log[..i]), log[i].op)
  }

  /** The buffer seen by the holder of the mutex: what the log amounts to, with its own copy so far on top. */
  ghost predicate HolderOk(s: State, b: Buffer, th: Thread)
    requires AllFit(s.log) && th.Copying?
  {
    && Fits(th.op) && th.done <= Length(th.op)
    && match th.op
       case Read(_) => s.buff == Replay(b, s.log) && th.got == s.buff[..th.done]
       case Write(data) => s.buff == Overwrite(Replay(b, s.log), 0, data[..th.done]) && th.got == []
  }

  ghost predicate ThreadOk(s: State, b: Buffer, t: nat)
    requires t < |s.threads| && AllFit(s.log)
  {
    match s.threads[t]
    case Idle => true
    case Waiting(op, invoked) => Fits(op) && invoked <= s.clock
    case Copying(_, invoked, _, _) => s.owner == Some(t) && invoked <= s.clock && HolderOk(s, b, s.threads[t])
    case Done(entry, answer) => entry < |s.log| && s.log[entry].answer == answer
  }

  /** Every call took effect after it was made and before it returned, in the order of the log. */
  ghost predicate TimesOk(s: State)
  {
    && (forall i :: 0 <= i < |s.log| ==> s.log[i].invoked < s.log[i].linearized <= s.clock)
    && (forall i, j :: 0 <= i < j < |s.log| ==> s.log[i].linearized < s.log[j].linearized)
    && (forall k :: 0 <= k < |s.returned| ==>
          && s.returned[k].entry < |s.log| && s.log[s.returned[k].entry].answer == s.returned[k].answer
          && s.log[s.returned[k].entry].linearized < s.returned[k].at <= s.clock)
  }

  /** Log entries belong to different calls: no two threads, and no thread and an earlier return, share one. */
  ghost predicate OnceOk(s: State)
  {
    && (forall t, u :: 0 <= t < u < |s.threads| && s.threads[t].Done? && s.threads[u].Done? ==>
          s.threads[t].entry != s.threads[u].entry)
    && (forall t, k :: 0 <= t < |s.threads| && s.threads[t].Done? && 0 <= k < |s.returned| ==>
          s.threads[t].entry != s.returned[k].entry)
    && (forall k, l :: 0 <= k < l < |s.returned| ==> s.returned[k].entry != s.returned[l].entry)
    && (forall t :: 0 <= t < |s.threads| && s.threads[t].Done? ==> s.threads[t].entry < |s.log|)
    && (forall k :: 0 <= k < |s.returned| ==> s.returned[k].entry < |s.log|)
  }

  lemma OnceStep(s: State, e: Event)
    requires OnceOk(s) && Allowed(s, e)
    ensures OnceOk(Apply(s, e))
  {
  }

  ghost predicate Inv(s: State, b: Buffer)
  {
    && OnceOk(s) && Legal(b, s.log) && AllFit(s.log) && TimesOk(s) && OwnerOk(s, b)
    && (forall t :: 0 <= t < |s.threads| ==> ThreadOk(s, b, t))
  }

  lemma InitialInv(s: State, b: Buffer)
    requires Initial(s, b)
    ensures Inv(s, b)
  {
  }

  /** The device as it is opened, with any contents and any number of threads. */
  lemma Starts(b: Buffer, n: nat) returns (s: State)
    ensures Initial(s, b) && |s.threads| == n
  {
    s := State(b, None, seq(n, _ => Idle), 0, [], []);
  }

  lemma LegalAppend(b: Buffer, log: seq<Entry>, e: Entry)
    requires Legal(b, log) && Fits(e.op) && e.answer == Answer(Replay(b, log), e.op)
    ensures Legal(b, log + [e]) && Replay(b, log + [e]) == Effect(Replay(b, log), e.op)
  {
    var log' := log + [e];
    assert log'[..|log|] == log;
    forall i | 0 <= i < |log'| ensures log'[i].answer == Answer(Replay(b, log'[..i]), log'[i].op) {
      assert log'[..i] == log[..i];
    }
  }

  // ---------- every step keeps it ----------

  lemma TimesStep(s: State, e: Event)
    requires TimesOk(s) && Allowed(s, e)
    requires e.Release? ==> s.threads[e.t].invoked <= s.clock
    requires e.Return? ==> s.threads[e.t].entry < |s.log| && s.log[s.threads[e.t].entry].answer == s.threads[e.t].answer
    ensures TimesOk(Apply(s, e))
  {
  }

  ghost predicate OwnerOk(s: State, b: Buffer)
    requires AllFit(s.log)
  {
    && (s.owner.Some? ==> s.owner.value < |s.threads| && s.threads[s.owner.value].Copying?)
    && (s.owner == None ==> s.buff == Replay(b, s.log))
  }

  /** At the start of a copy nothing has been overwritten yet. */
  lemma FreshHolder(s: State, b: Buffer, op: Op, invoked: nat)
    requires AllFit(s.log) && Fits(op) && s.buff == Replay(b, s.log)
    ensures HolderOk(s, b, Copying(op, invoked, 0, []))
  {
    if op.Write? { assert op.data[..0] == [] && Overwrite(s.buff, 0, []) == s.buff; }
  }

  lemma QuietStep(s: State, e: Event, b: Buffer)
    requires Inv(s, b) && Allowed(s, e) && (e.Invoke? || e.Acquire? || e.Return?)
    ensures Inv(Apply(s, e), b)
  {
    hide Legal, TimesOk, HolderOk, Replay, OnceOk;
    var s' := Apply(s, e);
    OnceStep(s, e);
    assert ThreadOk(s, b, e.t);
    TimesStep(s, e);
    forall t | 0 <= t < |s'.threads| ensures ThreadOk(s', b, t) {
      assert ThreadOk(s, b, t);
      HolderSame(s, s', b, s.threads[t]);
      if e == Acquire(t) { FreshHolder(s', b, s.threads[t].op, s.threads[t].invoked); }
    }
  }

  lemma HolderSame(s: State, s': State, b: Buffer, th: Thread)
    requires AllFit(s.log) && s'.log == s.log && s'.buff == s.buff
    ensures th.Copying? ==> HolderOk(s', b, th) == HolderOk(s, b, th)
  {
  }

  lemma OneMoreByte(base: Buffer, data: seq<Byte>, i: nat)
    requires i < |data| <= SIZE
    ensures Overwrite(base, 0, data[..i])[i := data[i]] == Overwrite(base, 0, data[..i + 1])
  {
  }

  lemma CopyHolder(s: State, t: nat, b: Buffer)
    requires AllFit(s.log) && Allowed(s, CopyByte(t)) && HolderOk(s, b, s.threads[t])
    ensures HolderOk(Apply(s, CopyByte(t)), b, Apply(s, CopyByte(t)).threads[t])
  {
    var th := s.threads[t];
    if th.op.Write? {
      OneMoreByte(Replay(b, s.log), th.op.data, th.done);
    }
  }

  lemma CopyStep(s: State, t: nat, b: Buffer)
    requires Inv(s, b) && Allowed(s, CopyByte(t))
    ensures Inv(Apply(s, CopyByte(t)), b)
  {
    hide Legal, HolderOk, Replay, OnceOk;
    var s' := Apply(s, CopyByte(t));
    OnceStep(s, CopyByte(t));
    assert ThreadOk(s, b, t);
    CopyHolder(s, t, b);
    forall u | 0 <= u < |s'.threads| ensures ThreadOk(s', b, u) {
      assert ThreadOk(s, b, u);
    }
  }

  /** When the copy is complete, the buffer and the bytes read are what the atomic call makes them. */
  lemma CompleteHolder(s: State, b: Buffer, th: Thread)
    requires AllFit(s.log) && th.Copying? && HolderOk(s, b, th) && th.done >= Length(th.op)
    ensures th.got == Answer(Replay(b, s.log), th.op) && s.buff == Effect(Replay(b, s.log), th.op)
  {
    assert th.op.Write? ==> th.op.data[..th.done] == th.op.data;
  }

  lemma ReleaseStep(s: State, t: nat, b: Buffer)
    requires Inv(s, b) && Allowed(s, Release(t))
    ensures Inv(Apply(s, Release(t)), b)
  {
    hide Legal, TimesOk, HolderOk, Replay, OnceOk;
    var s' := Apply(s, Release(t));
    OnceStep(s, Release(t));
    var th := s.threads[t];
    assert ThreadOk(s, b, t);
    CompleteHolder(s, b, th);
    HolderFits(s, b, th);
    TimesStep(s, Release(t));
    LegalAppend(b, s.log, s'.log[|s.log|]);
    forall u | 0 <= u < |s'.threads| ensures ThreadOk(s', b, u) {
      assert ThreadOk(s, b, u);
    }
  }

  lemma HolderFits(s: State, b: Buffer, th: Thread)
    requires AllFit(s.log) && th.Copying? && HolderOk(s, b, th)
    ensures Fits(th.op)
  {
  }

  lemma StepInv(s: State, e: Event, b: Buffer)
    requires Inv(s, b) && Allowed(s, e)
    ensures Inv(Apply(s, e), b)
  {
    hide Inv;
    match e
    case CopyByte(t) => CopyStep(s, t, b);
    case Release(t) => ReleaseStep(s, t, b);
    case _ => QuietStep(s, e, b);
  }

  lemma {:induction false} RunInv(s: State, es: seq<Event>, b: Buffer)
    requires Inv(s, b) && Run(s, es)
    ensures Inv(After(s, es), b)
    decreases |es|
  {
    hide Inv;
    if es != [] {
      StepInv(s, es[0], b);
      RunInv(Apply(s, es[0]), es[1..], b);
    }
  }

  // ---------- runs and their events ----------

  /** The last call made by thread `t`, as an index into the events, or -1. */
  function LastCall(es: seq<Event>, t: nat): (i: int)
    ensures -1 <= i < |es|
    ensures i >= 0 ==> es[i].Invoke? && es[i].t == t
    ensures forall k :: i < k < |es| ==> !(es[k].Invoke? && es[k].t == t)
    decreases |es|
  {
    if es == [] then -1
    else
      var n := |es| - 1;
      if es[n].Invoke? && es[n].t == t then n else LastCall(es[..n], t)
  }

  lemma {:induction false} RunSnoc(s: State, es: seq<Event>, e: Event)
    requires Run(s, es + [e])
    ensures Run(s, es) && Allowed(After(s, es), e) && After(s, es + [e]) == Apply(After(s, es), e)
    decreases |es|
  {
    hide Apply, Allowed;
    if es == [] {
      assert (es + [e])[1..] == [];
    } else {
      assert (es + [e])[1..] == es[1..] + [e];
      RunSnoc(Apply(s, es[0]), es[1..], e);
    }
  }

  /** The log entry stands for the call made by event `i`. */
  predicate EntryFor(en: Entry, es: seq<Event>, i: int)
  {
    0 <= i < |es| && es[i].Invoke? && en.op == es[i].op && en.invoked == i + 1
  }

  /** Response `r` is what event `j` returned to its caller: the answer to the last call that thread made. */
  predicate ResponseTo(log: seq<Entry>, r: Response, es: seq<Event>, j: int)
  {
    && 0 <= j < |es| && es[j].Return? && r.at == j + 1 && r.entry < |log| && log[r.entry].answer == r.answer
    && EntryFor(log[r.entry], es, LastCall(es[..j], es[j].t))
  }

  /** What a thread is doing is its last call. */
  ghost predicate CallOk(th: Thread, log: seq<Entry>, es: seq<Event>, t: nat)
  {
    var i := LastCall(es, t);
    match th
    case Idle => true
    case Waiting(op, invoked) => i >= 0 && op == es[i].op && invoked == i + 1 && !Logged(log, invoked)
    case Copying(op, invoked, _, _) => i >= 0 && op == es[i].op && invoked == i + 1 && !Logged(log, invoked)
    case Done(entry, answer) => entry < |log| && EntryFor(log[entry], es, i) && log[entry].answer == answer
  }

  ghost predicate Logged(log: seq<Entry>, invoked: nat)
  {
    exists k :: 0 <= k < |log| && log[k].invoked == invoked
  }

  /** Every entry of the log stands for a call of the run, and no two for the same one. */
  ghost predicate LogOf(log: seq<Entry>, es: seq<Event>)
  {
    && (forall k :: 0 <= k < |log| ==> EntryFor(log[k], es, log[k].invoked - 1))
    && (forall k, l :: 0 <= k < l < |log| ==> log[k].invoked != log[l].invoked)
  }

  /** The responses are those of the run's returns, each once, in order. */
  ghost predicate ResponsesOf(log: seq<Entry>, returned: seq<Response>, es: seq<Event>)
  {
    && (forall k :: 0 <= k < |returned| ==> ResponseTo(log, returned[k], es, returned[k].at - 1))
    && (forall j :: 0 <= j < |es| && es[j].Return? ==> exists k :: 0 <= k < |returned| && returned[k].at == j + 1)
    && (forall k, l :: 0 <= k < l < |returned| ==> returned[k].at < returned[l].at)
  }

  /** What state and events have to do with each other. */
  ghost predicate Tied(s: State, es: seq<Event>)
  {
    && s.clock == |es| && LogOf(s.log, es) && ResponsesOf(s.log, s.returned, es)
    && forall t :: 0 <= t < |s.threads| ==> CallOk(s.threads[t], s.log, es, t)
  }

  lemma LastCallSnoc(es: seq<Event>, e: Event, t: nat)
    ensures LastCall(es + [e], t) == if e.Invoke? && e.t == t then |es| else LastCall(es, t)
  {
    assert (es + [e])[..|es|] == es;
  }

  lemma ResponseSnoc(log: seq<Entry>, more: seq<Entry>, r: Response, es: seq<Event>, e: Event, j: int)
    requires ResponseTo(log, r, es, j)
    ensures ResponseTo(log + more, r, es + [e], j)
  {
    assert (es + [e])[..j] == es[..j];
  }

  lemma LogSnoc(s: State, es: seq<Event>, e: Event)
    requires Tied(s, es) && Allowed(s, e)
    ensures LogOf(Apply(s, e).log, es + [e])
  {
    assert CallOk(s.threads[e.t], s.log, es, e.t);
  }

  lemma ResponsesSnoc(s: State, es: seq<Event>, e: Event)
    requires Tied(s, es) && Allowed(s, e)
    ensures ResponsesOf(Apply(s, e).log, Apply(s, e).returned, es + [e])
  {
    hide ResponseTo, LastCall;
    var s' := Apply(s, e);
    var more := s'.log[|s.log|..];
    assert s'.log == s.log + more;
    forall k | 0 <= k < |s'.returned| ensures ResponseTo(s'.log, s'.returned[k], es + [e], s'.returned[k].at - 1) {
      if k < |s.returned| {
        ResponseSnoc(s.log, more, s.returned[k], es, e, s.returned[k].at - 1);
      } else {
        NewResponse(s, es, e);
      }
    }
    AtsInRange(s, es);
    forall j | 0 <= j < |es + [e]| && (es + [e])[j].Return?
      ensures exists k :: 0 <= k < |s'.returned| && s'.returned[k].at == j + 1
    {
      if j < |es| {
        var k :| 0 <= k < |s.returned| && s.returned[k].at == j + 1;
        assert s'.returned[k].at == j + 1;
      } else {
        assert s'.returned[|s.returned|].at == j + 1;
      }
    }
  }

  lemma AtsInRange(s: State, es: seq<Event>)
    requires Tied(s, es)
    ensures forall k :: 0 <= k < |s.returned| ==> s.returned[k].at <= |es|
  {
    forall k | 0 <= k < |s.returned| ensures s.returned[k].at <= |es| {
      assert ResponseTo(s.log, s.returned[k], es, s.returned[k].at - 1);
    }
  }

  lemma NewResponse(s: State, es: seq<Event>, e: Event)
    requires Tied(s, es) && Allowed(s, e) && e.Return?
    ensures ResponseTo(Apply(s, e).log, Response(s.threads[e.t].entry, |es| + 1, s.threads[e.t].answer), es + [e], |es|)
  {
    assert CallOk(s.threads[e.t], s.log, es, e.t);
    assert (es + [e])[..|es|] == es;
  }

  /** The calls of the other threads stay what they were. */
  lemma OtherCall(s: State, es: seq<Event>, e: Event, t: nat)
    requires Tied(s, es) && Allowed(s, e) && t < |s.threads| && t != e.t
    ensures CallOk(s.threads[t], Apply(s, e).log, es + [e], t)
  {
    hide LastCall, LogOf, ResponsesOf;
    assert CallOk(s.threads[t], s.log, es, t);
    LastCallSnoc(es, e, t);
    if e.Release? { assert CallOk(s.threads[e.t], s.log, es, e.t); }
  }

  lemma OwnCall(s: State, es: seq<Event>, e: Event)
    requires Tied(s, es) && Allowed(s, e)
    ensures CallOk(Apply(s, e).threads[e.t], Apply(s, e).log, es + [e], e.t)
  {
    hide LastCall, ResponsesOf;
    assert CallOk(s.threads[e.t], s.log, es, e.t);
    LastCallSnoc(es, e, e.t);
  }

  lemma TiedStep(s: State, es: seq<Event>, e: Event)
    requires Tied(s, es) && Allowed(s, e)
    ensures Tied(Apply(s, e), es + [e])
  {
    LogSnoc(s, es, e);
    ResponsesSnoc(s, es, e);
    var s' := Apply(s, e);
    hide LastCall, LogOf, ResponsesOf, CallOk;
    forall t | 0 <= t < |s'.threads| ensures CallOk(s'.threads[t], s'.log, es + [e], t) {
      if t == e.t { OwnCall(s, es, e); } else { OtherCall(s, es, e, t); }
    }
  }

  lemma {:induction false} RunTied(s: State, es: seq<Event>, b: Buffer)
    requires Initial(s, b) && Run(s, es)
    ensures Tied(After(s, es), es)
    decreases |es|
  {
    if es != [] {
      var n := |es| - 1;
      assert es == es[..n] + [es[n]];
      RunSnoc(s, es[..n], es[n]);
      RunTied(s, es[..n], b);
      TiedStep(After(s, es[..n]), es[..n], es[n]);
    }
  }

  // ---------- linearizability ----------

  /**
   * Every run of concurrent reads and writes, with copies byte by byte, is explained by one
   * sequential order of its calls, the log. Every entry stands for one call of the run, and no two for the same.
   * Each has the answer of an atomic buffer at its turn, and every return of the run hands its caller the answer
   * of the entry for the call that caller made. Each call takes its turn after it is made and before it returns,
   * so that a call that returned before another was made comes first. The buffer ends up as that order leaves it.
   */
  lemma Linearizable(s: State, es: seq<Event>, b: Buffer)
    requires Initial(s, b) && Run(s, es)
    ensures var s' := After(s, es);
      && Legal(b, s'.log) && (s'.owner == None ==> s'.buff == Replay(b, s'.log))
      && LogOf(s'.log, es) && ResponsesOf(s'.log, s'.returned, es)
      && OnceOk(s') && TimesOk(s') && RealTime(s')
  {
    hide Replay, Legal, LogOf, ResponsesOf;
    InitialInv(s, b);
    RunInv(s, es, b);
    RunTied(s, es, b);
  }

  /** A call that returned before another was made precedes it in the log. */
  ghost predicate RealTime(s: State)
  {
    forall k, j :: 0 <= k < |s.returned| && 0 <= j < |s.log| && s.returned[k].at < s.log[j].invoked
      ==> s.returned[k].entry < j
  }

  // ---------- reads return what was last written ----------

  /** Entry `i` is the last before `e` that writes byte `x`. */
  predicate LastWrite(log: seq<Entry>, i: int, e: int, x: nat)
  {
    && 0 <= i < e <= |log| && log[i].op.Write? && x < |log[i].op.data|
    && forall j :: i < j < e && log[j].op.Write? ==> |log[j].op.data| <= x
  }

  lemma {:induction false} ReplayByte(b: Buffer, log: seq<Entry>, x: nat)
    requires AllFit(log) && x < SIZE
    ensures forall i :: LastWrite(log, i, |log|, x) ==> Replay(b, log)[x] == log[i].op.data[x]
    ensures (forall j :: 0 <= j < |log| && log[j].op.Write? ==> |log[j].op.data| <= x) ==> Replay(b, log)[x] == b[x]
    decreases |log|
  {
    if log != [] {
      var n := |log| - 1;
      ReplayByte(b, log[..n], x);
      var r, data := Replay(b, log[..n]), if log[n].op.Write? then log[n].op.data else [];
      if x < |data| { assert Overwrite(r, 0, data)[x] == Overwrite(r, 0, data)[0..|data|][x]; }
      forall i | LastWrite(log, i, |log|, x) ensures i == n || LastWrite(log[..n], i, n, x) {
        assert i < n ==> log[..n][i] == log[i];
      }
    }
  }

  /**
   * The atomic buffer, byte by byte: in every run, the call at entry `e` of the log hands back as many bytes as were
   * asked for, and each is that of the last write before it in the log that reaches so far, or the first contents.
   */
  lemma ReadsLastWritten(s: State, es: seq<Event>, b: Buffer, e: nat, x: nat)
    requires Initial(s, b) && Run(s, es) && e < |After(s, es).log| && After(s, es).log[e].op.Read?
    ensures var log := After(s, es).log; var size := log[e].op.size;
      && |log[e].answer| == size <= 256
      && (x < size ==> forall i :: LastWrite(log, i, e, x) ==> log[e].answer[x] == log[i].op.data[x])
      && (x < size && (forall j :: 0 <= j < e && log[j].op.Write? ==> |log[j].op.data| <= x) ==>
            log[e].answer[x] == b[x])
  {
    hide Replay, OnceOk, TimesOk, LogOf, ResponsesOf, RealTime, Run, After;
    Linearizable(s, es, b);
    var log := After(s, es).log;
    assert log[e].answer == Answer(Replay(b, log[..e]), log[e].op) && Fits(log[e].op);
    if x < log[e].op.size {
      ReplayByte(b, log[..e], x);
      forall i | LastWrite(log, i, e, x) ensures log[e].answer[x] == log[i].op.data[x] {
        assert LastWrite(log[..e], i, e, x);
      }
      assert forall j :: 0 <= j < e ==> log[..e][j] == log[j];
    }
  }

  // ---------- calls come to an end ----------

  lemma RunFirst(s: State, e: Event, es: seq<Event>)
    requires Allowed(s, e) && Run(Apply(s, e), es)
    ensures Run(s, [e] + es) && After(s, [e] + es) == After(Apply(s, e), es)
  {
    assert ([e] + es)[1..] == es;
  }

  /** From every state in which the mutex is free, an idle thread can make any call and have it return. */
  lemma CallReturns(s: State, t: nat, op: Op) returns (es: seq<Event>)
    requires t < |s.threads| && s.threads[t].Idle? && s.owner == None && Fits(op)
    ensures Run(s, es) && es != [] && es[0] == Invoke(t, op) && es[|es| - 1] == Return(t)
    ensures After(s, es).threads == s.threads && After(s, es).owner == None
    ensures |After(s, es).returned| == |s.returned| + 1
  {
    var s1 := Apply(s, Invoke(t, op));
    var s2 := Apply(s1, Acquire(t));
    var more := CopyAll(s2, t);
    hide Run, After;
    RunFirst(s1, Acquire(t), more);
    RunFirst(s, Invoke(t, op), [Acquire(t)] + more);
    es := [Invoke(t, op)] + ([Acquire(t)] + more);
    assert s2.threads[t := Idle] == s.threads;
  }

  /** The holder of the mutex can finish its copy, release the mutex and return. */
  lemma {:induction false} CopyAll(s: State, t: nat) returns (es: seq<Event>)
    requires t < |s.threads| && s.threads[t].Copying? && Fits(s.threads[t].op)
    ensures Run(s, es) && es != [] && es[|es| - 1] == Return(t)
    ensures After(s, es).threads == s.threads[t := Idle] && After(s, es).owner == None
    ensures |After(s, es).returned| == |s.returned| + 1
    decreases SIZE - s.threads[t].done
  {
    if s.threads[t].done < Length(s.threads[t].op) {
      var s1 := Apply(s, CopyByte(t));
      var more := CopyAll(s1, t);
      es := [CopyByte(t)] + more;
      RunFirst(s, CopyByte(t), more);
      assert s1.threads[t := Idle] == s.threads[t := Idle];
    } else {
      var s1 := Apply(s, Release(t));
      RunFirst(s1, Return(t), []);
      RunFirst(s, Release(t), [Return(t)]);
      es := [Release(t)] + [Return(t)];
      assert Apply(s1, Return(t)).threads == s.threads[t := Idle];
    }
  }

  // ---------- no mixed reads ----------

  predicate Constant(d: seq<Byte>)
  {
    forall i, j :: 0 <= i < j < |d| ==> d[i] == d[j]
  }

  /** All writers write the whole buffer with one byte value. */
  predicate FullConstantWrites(es: seq<Event>)
  {
    forall i :: 0 <= i < |es| && es[i].Invoke? && es[i].op.Write? ==> |es[i].op.data| == SIZE && Constant(es[i].op.data)
  }

  /** `d` is what the buffer held at first, or what some call of the run wrote. */
  ghost predicate InitialOrWritten(d: seq<Byte>, b: Buffer, es: seq<Event>)
  {
    d == b || exists i :: 0 <= i < |es| && es[i].Invoke? && es[i].op == Write(d)
  }

  lemma {:induction false} ReplayWhole(b: Buffer, log: seq<Entry>, es: seq<Event>)
    requires AllFit(log) && FullConstantWrites(es) && LogOf(log, es)
    ensures InitialOrWritten(Replay(b, log), b, es)
    decreases |log|
  {
    if log != [] {
      var n := |log| - 1;
      ReplayWhole(b, log[..n], es);
      assert EntryFor(log[n], es, log[n].invoked - 1);
      if log[n].op.Write? {
        assert Overwrite(Replay(b, log[..n]), 0, log[n].op.data) == log[n].op.data;
      }
    }
  }

  /** What a call asks to get back. */
  function Asked(op: Op): nat { if op.Read? then op.size else 0 }

  lemma ResponseAt(log: seq<Entry>, returned: seq<Response>, es: seq<Event>, j: nat) returns (r: Response)
    requires ResponsesOf(log, returned, es) && j < |es| && es[j].Return?
    ensures r in returned && ResponseTo(log, r, es, j)
  {
    hide ResponseTo;
    var k :| 0 <= k < |returned| && returned[k].at == j + 1;
    r := returned[k];
  }

  lemma AnswerWhole(b: Buffer, log: seq<Entry>, es: seq<Event>, e: nat) returns (d: seq<Byte>)
    requires Legal(b, log) && LogOf(log, es) && Constant(b) && FullConstantWrites(es) && e < |log|
    ensures |log[e].answer| == Asked(log[e].op) && Constant(log[e].answer)
    ensures InitialOrWritten(d, b, es) && log[e].answer <= d
  {
    ReplayWhole(b, log[..e], es);
    hide Replay;
    d := Replay(b, log[..e]);
  }

  /**
   * What the demo watches for: if all calls that write write full constant buffers, every return hands out as many
   * bytes as were asked for, all of one value: the beginning of the first contents or of one writer's data.
   */
  lemma NoMixedReads(s: State, es: seq<Event>, b: Buffer, j: nat) returns (r: Response, d: seq<Byte>)
    requires Initial(s, b) && Run(s, es) && Constant(b) && FullConstantWrites(es)
    requires j < |es| && es[j].Return?
    ensures r in After(s, es).returned && ResponseTo(After(s, es).log, r, es, j)
    ensures |r.answer| == Asked(es[LastCall(es[..j], es[j].t)].op) && Constant(r.answer)
    ensures InitialOrWritten(d, b, es) && r.answer <= d
  {
    hide Replay, Legal, LogOf, Run, After, LastCall, Constant, InitialOrWritten, OnceOk, TimesOk, RealTime,
      FullConstantWrites, ResponsesOf;
    Linearizable(s, es, b);
    var s' := After(s, es);
    r := ResponseAt(s'.log, s'.returned, es, j);
    d := AnswerWhole(b, s'.log, es, r.entry);
  }

  // ---------- the calls themselves ----------

  /** The device's buffer, used by one caller at a time: the mutex is held throughout each call. */
  class SharedBuffer {
    const buff: array<Byte>

    constructor ()
      ensures fresh(buff) && buff.Length == SIZE
    {
      buff := new Byte[SIZE];
    }

    /** read_file */
    method ReadFile(buf: array<Byte>, size: nat, offt: nat) returns (ret: nat, offt': nat)
      requires buff.Length == SIZE && size <= SIZE && size <= buf.Length && buf != buff
      modifies buf
      ensures ret == size && offt' == offt + size
      ensures buf[..] == Overwrite(old(buf[..]), 0, Answer(buff[..], Read(size)))
      ensures forall i :: 0 <= i < buf.Length ==> buf[i] == if i < size then buff[i] else old(buf[i])
    {
      for i := 0 to size
        invariant forall j :: 0 <= j < buf.Length ==> buf[j] == if j < i then buff[j] else old(buf[j])
      {
        buf[i] := buff[i];
      }
      assert buf[..] == buff[..size] + old(buf[..])[size..];
      return size, offt + size;
    }

    /** write_file */
    method WriteFile(buf: array<Byte>, size: nat, offt: nat) returns (ret: nat, offt': nat)
      requires buff.Length == SIZE && size <= SIZE && size <= buf.Length && buf != buff
      modifies buff
      ensures ret == size && offt' == offt + size
      ensures buff[..] == Effect(old(buff[..]), Write(buf[..size]))
      ensures forall i :: 0 <= i < 256 ==> buff[i] == if i < size then buf[i] else old(buff[i])
    {
      for i := 0 to size
        invariant forall j :: 0 <= j < SIZE ==> buff[j] == if j < i then buf[j] else old(buff[j])
      {
        buff[i] := buf[i];
      }
      assert buff[..] == buf[..size] + old(buff[..])[size..];
      return size, offt + size;
    }
  }
}
