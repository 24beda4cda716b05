/** Linearizability: the serial order respects real time, and every create returns the error of its place in it. */
module FsLinear {
  import opened Layout
  import opened FsState
  import opened FsMachine
  import opened FsSafety
  import opened FsOps
  import opened FsEffects
  import opened FsCommute
  import opened FsWork
  import opened FsAtomic
  import opened FsSerial

  // ---------- places in the serial order ----------

  /** How many operations have taken effect before event `k`. */
  function Place(m: Machine, es: seq<Event>, k: nat): nat
    requires Run(m, es) && k < |es|
  {
    RunPrefix(m, es, k);
    |Serial(m, es[..k])|
  }

  lemma {:induction false} SerialSplit(m: Machine, es: seq<Event>, k: nat) returns (rest: seq<Op>)
    requires Run(m, es) && k < |es|
    ensures Run(m, es[..k]) && Allowed(After(m, es[..k]), es[k])
    ensures Serial(m, es) == Serial(m, es[..k]) + (Effective(After(m, es[..k]), es[k]) + rest)
    decreases |es|
  {
    hide Apply, Allowed, Effective;
    RunPrefix(m, es, k);
    var m1 := Apply(m, es[0]);
    if k == 0 {
      rest := Serial(m1, es[1..]);
      assert es[..0] == [];
    } else {
      rest := SerialSplit(m1, es[1..], k - 1);
      assert es[1..][..k - 1] == es[..k][1..];
      Grouped(Effective(m, es[0]), Serial(m1, es[1..][..k - 1]), Effective(After(m, es[..k]), es[k]) + rest);
    }
  }

  lemma Grouped(a: seq<Op>, b: seq<Op>, c: seq<Op>)
    ensures a + (b + c) == (a + b) + c
  {
  }

  lemma OneEffect(m: Machine, e: Event)
    requires Allowed(m, e) && e.Step? && TakesEffect(m.threads[e.t], e.noMem)
    ensures |Effective(m, e)| == 1 && Named(Effective(m, e)[0]) == OpOf(m.threads[e.t])
  {
    hide CheckError;
  }

  /** The operation that takes effect with event `k` is found at its place. */
  lemma AtItsPlace(m: Machine, es: seq<Event>, k: nat, t: nat)
    requires Run(m, es) && EffectAt(m, es, k, t)
    ensures Place(m, es, k) < |Serial(m, es)|
      && Named(Serial(m, es)[Place(m, es, k)]) == OpOf(StateAt(m, es, k).threads[t])
  {
    hide Serial, Run, After, Effective, TakesEffect, Apply;
    Moment(m, es, k);
    OneEffect(StateAt(m, es, k), es[k]);
    var rest := SerialSplit(m, es, k);
  }

  /** Later effects have later places. */
  lemma PlacesAscend(m: Machine, es: seq<Event>, k: nat, l: nat, t: nat)
    requires Run(m, es) && EffectAt(m, es, k, t) && k < l < |es|
    ensures Place(m, es, k) < Place(m, es, l)
  {
    hide Serial, Run, After, Effective, TakesEffect, Apply;
    Moment(m, es, k);
    Moment(m, es, l);
    OneEffect(StateAt(m, es, k), es[k]);
    assert es[..l][..k] == es[..k] && es[..l][k] == es[k];
    var rest := SerialSplit(m, es[..l], k);
  }

  /**
   * A call that has returned before another is made comes before it in the serial order: each of them takes effect
   * with an event of its own between its start and its end, and the first at an earlier place.
   */
  lemma RealTimeOrder(m: Machine, es: seq<Event>, i: nat, j: nat, t: nat, i': nat, j': nat, t': nat)
      returns (k: nat, k': nat)
    requires Inv(m) && Run(m, es) && !After(m, es).fs.fault
    requires Spans(m, es, i, j, t) && Spans(m, es, i', j', t') && j < i'
    ensures i < k <= j < i' < k' <= j' < |es| && EffectAt(m, es, k, t) && EffectAt(m, es, k', t')
    ensures Place(m, es, k) < Place(m, es, k') < |Serial(m, es)|
    ensures Named(Serial(m, es)[Place(m, es, k)]) == OpOf(es[i].th)
    ensures Named(Serial(m, es)[Place(m, es, k')]) == OpOf(es[i'].th)
  {
    hide Inv, Serial, Run, After, Spans, EffectAt, StateAt;
    StartsThere(m, es, i, j, t);
    StartsThere(m, es, i', j', t');
    k := OnceWithin(m, es, i, j, t);
    k' := OnceWithin(m, es, i', j', t');
    AtItsPlace(m, es, k, t);
    AtItsPlace(m, es, k', t');
    PlacesAscend(m, es, k, k', t);
  }

  lemma StartsThere(m: Machine, es: seq<Event>, i: nat, j: nat, t: nat)
    requires Run(m, es) && Spans(m, es, i, j, t)
    ensures i < j < |es| && es[i].Start?
  {
  }

  // ---------- errors ----------

  lemma {:induction false} PrefixAgrees(m: Machine, es: seq<Event>, k: nat)
    requires Run(m, es) && WritesAgree(m, es) && k <= |es| && Run(m, es[..k])
    ensures WritesAgree(m, es[..k])
    decreases |es|
  {
    hide Apply, Allowed, StartsAgreeing;
    if k > 0 {
      assert es[1..][..k - 1] == es[..k][1..];
      PrefixAgrees(Apply(m, es[0]), es[1..], k - 1);
    }
  }

  /** Of two writes on one file, of which the second has not set the size yet: they agree on each offset both cover. */
  predicate MeetAgreeing(a: Thread, b: Thread)
  {
    b.pc in {WCopy, WWantM, WSetSize} && a.no == b.no ==>
      forall i, j :: 0 <= i < |a.data| && 0 <= j < |b.data| && a.pos + i == b.pos + j ==> a.data[i] == b.data[j]
  }

  /** What the runs are that serializability is about, said of their events and states. */
  lemma {:induction false} WritesAgreeIff(m: Machine, es: seq<Event>)
    requires Run(m, es)
    ensures WritesAgree(m, es)
      <==> forall i, u :: 0 <= i < |es| && es[i].Start? && es[i].th.pc == WCopy && 0 <= u < |StateAt(m, es, i).threads|
             ==> MeetAgreeing(es[i].th, StateAt(m, es, i).threads[u])
    decreases |es|
  {
    hide Apply, Allowed, MeetAgreeing, StartsAgreeing, After;
    if es != [] {
      StartsAgreeingIs(m, es[0]);
      FirstState(m, es);
      WritesAgreeIff(Apply(m, es[0]), es[1..]);
      forall i | 0 <= i < |es| - 1 ensures StateAt(Apply(m, es[0]), es[1..], i) == StateAt(m, es, i + 1) {
        LaterState(m, es, i);
      }
      hide StateAt, Run;
      assert forall i :: 0 <= i < |es| - 1 ==> es[1..][i] == es[i + 1];
      if WritesAgree(m, es) {
        forall i, u | 0 <= i < |es| && es[i].Start? && es[i].th.pc == WCopy && 0 <= u < |StateAt(m, es, i).threads|
          ensures MeetAgreeing(es[i].th, StateAt(m, es, i).threads[u])
        {
          if i > 0 { assert StateAt(Apply(m, es[0]), es[1..], i - 1) == StateAt(m, es, i) && es[1..][i - 1] == es[i]; }
        }
      }
    }
  }

  lemma StartsAgreeingIs(m: Machine, e: Event)
    ensures StartsAgreeing(m, e)
      <==> (e.Start? && e.th.pc == WCopy ==> forall u :: 0 <= u < |m.threads| ==> MeetAgreeing(e.th, m.threads[u]))
  {
    if e.Start? && e.th.pc == WCopy {
      forall u | 0 <= u < |m.threads|
        ensures (Copying(m.threads[u]) && m.threads[u].no == e.th.no ==> Agree(e.th, m.threads[u]))
          <==> MeetAgreeing(e.th, m.threads[u])
      {
      }
    }
  }

  lemma FirstState(m: Machine, es: seq<Event>)
    requires Run(m, es) && es != []
    ensures StateAt(m, es, 0) == m
  {
    assert es[..0] == [];
  }

  lemma LaterState(m: Machine, es: seq<Event>, i: nat)
    requires Run(m, es) && i < |es| - 1
    ensures StateAt(Apply(m, es[0]), es[1..], i) == StateAt(m, es, i + 1)
  {
    hide Apply, Allowed;
    Moment(m, es, i + 1);
    Moment(Apply(m, es[0]), es[1..], i);
    assert es[..i + 1][1..] == es[1..][..i];
  }

  /** At every moment of a run the machine is where the operations before it have brought it. */
  lemma FollowsAt(m: Machine, es: seq<Event>, k: nat)
    requires Initial(m) && Run(m, es) && WritesAgree(m, es) && !After(m, es).fs.fault && k < |es|
    ensures Run(m, es[..k]) && Follows(StateAt(m, es, k), PerformAll(m.fs, Serial(m, es[..k])))
  {
    hide WellFormed, Follows, WritesAgree, Serial, PerformAll, Run, After, StateAt, Inv;
    InitialInv(m);
    Moment(m, es, k);
    StillInv(m, es, k);
    PrefixAgrees(m, es, k);
    QuietFollows(m, m.fs);
    RunFollows(m, es[..k], m.fs);
  }

  lemma CreateErrorHere(m: Machine, t: nat, noMem: bool, s: Fs, th: Thread)
    requires Inv(m) && !m.fs.fault && CanStep(m, t) && Follows(m, s) && m.threads[t] == th
    requires TakesEffect(th, noMem) && th.pc != WSetSize
    ensures Next(m.fs, th, noMem).err == CreateError(s, th.mode, noMem && th.pc == CCheck)
  {
    hide Inv, Follows, Next, CreateError, SameFrame, SameButData, Ready, CanAdd, Sane, NewInode, TakeBlock, FreeBlock;
    Checked(m, t);
    ReadyNow(m);
    Grounds(m, s);
    DataFrame(s, Settled(m));
    if th.pc == CAlloc { AllocReady(m, t, noMem); } else { GiveUpReady(m, t, noMem); }
    AcrossCounts(CreateDone(m), Settled(m), s);
    SameError(m.fs, s, th, noMem);
  }

  lemma AcrossCounts(k: Fs, settled: Fs, s: Fs)
    requires SameFrame(k, settled) && SameFrame(settled, s)
    ensures s.count == k.count && s.free == k.free
  {
  }

  /** In a state with the same count and bitmap the same error comes out. */
  lemma SameError(fs: Fs, fs': Fs, th: Thread, noMem: bool)
    requires fs'.count == fs.count == th.count && fs'.free == fs.free && (th.pc == CAlloc || GivesUp(th, noMem))
    requires th.pc == CAlloc ==> th.count < MAX_OBJECTS && (IsDir(th.mode) || IsReg(th.mode)) && th.err == 0
    ensures Next(fs, th, noMem).err == CreateError(fs', th.mode, noMem && th.pc == CCheck)
  {
    hide LowestFree;
    AtMost64(fs);
  }

  /**
   * A create that returns does so with the error it would return if it ran alone after the operations that precede it
   * in the serial order; what it says about memory is what it met itself.
   */
  lemma ErrorIsSerial(m: Machine, es: seq<Event>, i: nat, j: nat, t: nat) returns (k: nat, noMem: bool)
    requires Initial(m) && Run(m, es) && WritesAgree(m, es) && !After(m, es).fs.fault && Spans(m, es, i, j, t)
    requires i < |es| && es[i].Start? && es[i].th.pc == CWantD
    ensures i < k <= j && EffectAt(m, es, k, t) && k < |es| && Run(m, es[..k])
    ensures t < |StateAt(m, es, j + 1).threads|
    ensures StateAt(m, es, j + 1).threads[t].err
      == CreateError(PerformAll(m.fs, Serial(m, es[..k])), es[i].th.mode, noMem)
  {
    hide WellFormed, Follows, WritesAgree, Serial, PerformAll, Run, After, StateAt, Inv, Spans, CreateError, Next,
      TakesEffect, OpOf;
    InitialInv(m);
    k := OnceWithin(m, es, i, j, t);
    FollowsAt(m, es, k);
    Moment(m, es, k);
    StillInv(m, es, k);
    var m' := StateAt(m, es, k);
    var th := m'.threads[t];
    SameThreads(m', es[k]);
    CreateOnly(th, es[i].th);
    noMem := es[k].noMem && th.pc == CCheck;
    CreateErrorHere(m', t, es[k].noMem, PerformAll(m.fs, Serial(m, es[..k])), th);
  }

  lemma CreateOnly(th: Thread, call: Thread)
    requires OpOf(th) == OpOf(call) && call.pc == CWantD
    ensures th.pc != WSetSize && th.mode == call.mode
  {
  }
}
