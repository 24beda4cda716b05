/**
 * Serializability: a run of any number of threads amounts to whole operations one after the other, as long as
 * writes on one file that are under way at the same time agree on the bytes both cover.
 *
 * A write takes effect where it sets the size. Until then the bytes it has copied are extra: take the serial state,
 * add the bytes copied by the writes that have not taken effect, and you have the actual state, once the create and
 * the save under way are finished.
 */
module FsSerial {
  import opened Layout
  import opened FsState
  import opened FsMachine
  import opened FsLocking
  import opened FsSafety
  import opened FsTheorems
  import opened FsOps
  import opened FsEffects
  import opened FsCommute
  import opened FsWork
  import opened FsAtomic

  // ---------- bytes copied ahead of their write ----------

  /** The thread is in a write that has not taken effect yet. */
  predicate Copying(th: Thread)
  {
    th.pc in {WCopy, WWantM, WSetSize}
  }

  function Copied(th: Thread): seq<Prim>
  {
    if Copying(th) then PutBytes(th.no, th.pos, th.data, 0, th.done) else []
  }

  function AllCopied(ths: seq<Thread>): seq<Prim>
  {
    if ths == [] then [] else Copied(ths[0]) + AllCopied(ths[1..])
  }

  lemma {:induction false} CopiedAround(ths: seq<Thread>, t: nat)
    requires t < |ths|
    ensures AllCopied(ths) == AllCopied(ths[..t]) + (Copied(ths[t]) + AllCopied(ths[t + 1..]))
    decreases |ths|
  {
    hide Copied;
    if t > 0 {
      CopiedAround(ths[1..], t - 1);
      assert ths[1..][..t - 1] == ths[..t][1..];
      assert ths[1..][t..] == ths[t + 1..];
    }
  }

  lemma CopiedUpdate(ths: seq<Thread>, t: nat, th: Thread)
    requires t < |ths|
    ensures AllCopied(ths[t := th]) == AllCopied(ths[..t]) + (Copied(th) + AllCopied(ths[t + 1..]))
  {
    CopiedAround(ths[t := th], t);
    assert ths[t := th][..t] == ths[..t] && ths[t := th][t + 1..] == ths[t + 1..];
  }

  lemma CopiedSame(ths: seq<Thread>, t: nat, th: Thread)
    requires t < |ths| && Copied(th) == Copied(ths[t])
    ensures AllCopied(ths[t := th]) == AllCopied(ths)
  {
    hide Copied, AllCopied;
    CopiedAround(ths, t);
    CopiedUpdate(ths, t, th);
  }

  predicate AllPut(ps: seq<Prim>)
  {
    forall k :: 0 <= k < |ps| ==> ps[k].PutByte?
  }

  lemma {:induction false} CopiedPuts(ths: seq<Thread>)
    ensures AllPut(AllCopied(ths))
    decreases |ths|
  {
    if ths != [] { CopiedPuts(ths[1..]); }
  }

  lemma {:induction false} CopiedTame(fs: Fs, ths: seq<Thread>)
    requires WritersIn(fs, ths)
    ensures Tame(fs, AllCopied(ths))
    decreases |ths|
  {
    if ths != [] { CopiedTame(fs, ths[1..]); }
  }

  // -- agreement --

  /** Wherever two writes meet they write the same. */
  predicate Agree(a: Thread, b: Thread)
  {
    forall i, j :: 0 <= i < |a.data| && 0 <= j < |b.data| && a.pos + i == b.pos + j ==> a.data[i] == b.data[j]
  }

  predicate Compatible(ths: seq<Thread>)
  {
    forall t, u :: 0 <= t < |ths| && 0 <= u < |ths| && t != u && Copying(ths[t]) && Copying(ths[u])
      && ths[t].no == ths[u].no
      ==> Agree(ths[t], ths[u])
  }

  /** A write copies no more than its data, and all of it before it goes on. */
  predicate InStep(th: Thread)
  {
    Copying(th) ==> th.done <= |th.data| && (th.pc != WCopy ==> th.done == |th.data|)
  }

  predicate AllInStep(ths: seq<Thread>)
  {
    forall t :: 0 <= t < |ths| ==> InStep(ths[t])
  }

  /** No write under way puts another byte where `q` does. */
  predicate NoClash(ths: seq<Thread>, q: Prim)
    requires q.PutByte?
  {
    forall u, j :: 0 <= u < |ths| && Copying(ths[u]) && ths[u].no == q.x && 0 <= j < |ths[u].data|
      && ths[u].pos + j == q.off
      ==> ths[u].data[j] == q.v
  }

  lemma {:induction false} CopiedSwap(ths: seq<Thread>, q: Prim)
    requires q.Resize? || q.Save? || (q.PutByte? && NoClash(ths, q))
    ensures AllSwap(AllCopied(ths), q)
    decreases |ths|
  {
    if ths != [] {
      var th := ths[0];
      forall k | 0 <= k < |Copied(th)| ensures Swaps(Copied(th)[k], q) {
        assert Copied(th)[k] == PutByte(th.no, th.pos + k, th.data[k]);
      }
      CopiedSwap(ths[1..], q);
    }
  }

  /** The bytes of a write may change places with those of any stretch of other threads. */
  lemma WriterSwaps(ths: seq<Thread>, t: nat, j: nat, lo: nat, hi: nat)
    requires Compatible(ths) && t < |ths| && Copying(ths[t]) && j < |ths[t].data| && lo <= hi <= |ths|
      && !(lo <= t < hi)
    ensures AllSwap(AllCopied(ths[lo..hi]), PutByte(ths[t].no, ths[t].pos + j, ths[t].data[j]))
  {
    hide Compatible, AllSwap, AllCopied;
    var q, others := PutByte(ths[t].no, ths[t].pos + j, ths[t].data[j]), ths[lo..hi];
    forall u, i | 0 <= u < |others| && Copying(others[u]) && others[u].no == q.x && 0 <= i < |others[u].data|
      && others[u].pos + i == q.off
      ensures others[u].data[i] == q.v
    {
      assert others[u] == ths[lo + u];
      Pair(ths, t, lo + u);
    }
    CopiedSwap(others, q);
  }

  lemma Pair(ths: seq<Thread>, t: nat, u: nat)
    requires Compatible(ths) && t < |ths| && u < |ths| && t != u && Copying(ths[t]) && Copying(ths[u])
      && ths[t].no == ths[u].no
    ensures Agree(ths[t], ths[u])
  {
  }

  // ---------- the serial state ----------

  /** The save of the write that has set the size and holds the inode lock. */
  function SaveLeft(m: Machine): seq<Prim>
  {
    if InodesLock in m.owner && m.owner[InodesLock] < |m.threads|
      && m.threads[m.owner[InodesLock]].pc in {WWantS, WSave}
    then [Save(m.threads[m.owner[InodesLock]].no)] else []
  }

  /** The file system once the create and the save under way are finished. */
  function Settled(m: Machine): Fs
  {
    DoAll(CreateDone(m), SaveLeft(m))
  }

  /** The machine is where the operations that lead to `s` have brought it, apart from bytes copied ahead. */
  ghost predicate Follows(m: Machine, s: Fs)
  {
    Settled(m) == DoAll(s, AllCopied(m.threads))
  }

  predicate SameButData(a: Fs, b: Fs)
  {
    a.core == b.core && a.table == b.table && a.count == b.count && a.free == b.free && |a.blocks| == |b.blocks|
  }

  lemma {:induction false} PutsOnlyData(s: Fs, ps: seq<Prim>)
    requires AllPut(ps)
    ensures SameButData(s, DoAll(s, ps))
    decreases |ps|
  {
    if ps != [] { PutsOnlyData(Do(s, ps[0]), ps[1..]); }
  }

  lemma SaneSame(a: Fs, b: Fs)
    requires SameButData(a, b) && Sane(a)
    ensures Sane(b)
  {
    forall x | x in b.core ensures Anchored(b, x) {
      assert Anchored(a, x);
      assert SlotOf(a, x) == SlotOf(b, x);
    }
  }

  lemma DoneSane(m: Machine)
    requires Ready(m)
    ensures Sane(CreateDone(m)) && WritersIn(CreateDone(m), m.threads)
  {
    hide Sane, OkAll, CreateWork, DoAll;
    OkAllSane(m.fs, CreateWork(m));
  }

  /** What the serial state has in common with the actual one. */
  lemma Grounds(m: Machine, s: Fs)
    requires Ready(m) && Follows(m, s)
    ensures Sane(CreateDone(m)) && Sane(Settled(m)) && Sane(s)
    ensures Tame(CreateDone(m), SaveLeft(m)) && SameFrame(CreateDone(m), Settled(m)) && SameButData(s, Settled(m))
    ensures WritersIn(s, m.threads) && WritersIn(Settled(m), m.threads)
  {
    DoneSane(m);
    hide Sane, OkAll, DoAll, Ready, CreateDone, AllCopied;
    TameOk(CreateDone(m), SaveLeft(m));
    CopiedPuts(m.threads);
    PutsOnlyData(s, AllCopied(m.threads));
    SaneSame(Settled(m), s);
  }

  // ---------- steps of writes ----------

  /** Work in the middle that may change places with what follows can come last. */
  lemma MiddleLast(s: Fs, front: seq<Prim>, qs: seq<Prim>, back: seq<Prim>)
    requires Sane(s) && Tame(s, front) && Tame(s, qs) && Tame(s, back) && Apart(back, qs)
    ensures DoAll(s, front + (qs + back)) == DoAll(DoAll(s, front + back), qs)
  {
    hide Sane, DoAll, OkAll, Apart;
    var s1 := DoAll(s, front);
    TameOk(s, front);
    FrameTame(s, s1, qs);
    FrameTame(s, s1, back);
    TameOk(s1, back);
    DoAllAppend(s, front, qs + back);
    DoAllAppend(s1, qs, back);
    DoAllAppend(s, front, back);
    MoveAllAhead(s1, back, qs);
  }

  lemma FrameTame(s: Fs, s': Fs, qs: seq<Prim>)
    requires SameFrame(s, s') && Tame(s, qs)
    ensures Tame(s', qs)
  {
  }

  lemma WriterTame(s: Fs, ths: seq<Thread>, t: nat)
    requires WritersIn(s, ths) && t < |ths|
    ensures Tame(s, AllCopied(ths[..t])) && Tame(s, Copied(ths[t])) && Tame(s, AllCopied(ths[t + 1..]))
    ensures Tame(s, AllCopied(ths[..t]) + Copied(ths[t])) && Tame(s, AllCopied(ths[..t]) + AllCopied(ths[t + 1..]))
  {
    CopiedTame(s, ths[..t]);
    CopiedTame(s, ths[t + 1..]);
  }

  lemma OneDo(s: Fs, q: Prim)
    ensures DoAll(s, [q]) == Do(s, q)
  {
  }

  lemma Regroup(a: seq<Prim>, b: seq<Prim>, c: seq<Prim>, d: seq<Prim>)
    ensures a + (b + d) == (a + b) + d && a + ((b + c) + d) == (a + b) + (c + d)
  {
  }

  lemma SwapsBehind(ths: seq<Thread>, t: nat, j: nat)
    requires Compatible(ths) && t < |ths| && Copying(ths[t]) && j < |ths[t].data|
    ensures AllSwap(AllCopied(ths[t + 1..]), PutByte(ths[t].no, ths[t].pos + j, ths[t].data[j]))
  {
    hide *;
    assert ths[t + 1..|ths|] == ths[t + 1..];
    WriterSwaps(ths, t, j, t + 1, |ths|);
  }

  lemma OneMore(th: Thread)
    requires th.pc == WCopy && th.done < |th.data|
    ensures Copied(th.(done := th.done + 1)) == Copied(th) + [PutByte(th.no, th.pos + th.done, th.data[th.done])]
  {
  }

  lemma OneApart(s: Fs, ths: seq<Thread>, t: nat, back: seq<Prim>, q: Prim)
    requires WritersIn(s, ths) && t < |ths| && Copying(ths[t]) && Local(q) && q.x == ths[t].no && AllSwap(back, q)
    ensures Tame(s, [q]) && Apart(back, [q])
  {
  }

  lemma LastOfMiddle(s: Fs, a: seq<Prim>, b: seq<Prim>, q: Prim, d: seq<Prim>)
    requires Sane(s) && Tame(s, a + b) && Tame(s, [q]) && Tame(s, d) && Apart(d, [q])
    ensures DoAll(s, a + ((b + [q]) + d)) == Do(DoAll(s, a + (b + d)), q)
  {
    hide *;
    Regroup(a, b, [q], d);
    MiddleLast(s, a + b, [q], d);
    OneDo(DoAll(s, a + (b + d)), q);
  }

  lemma MayComeLast(s: Fs, ths: seq<Thread>, t: nat, q: Prim)
    requires WritersIn(s, ths) && Compatible(ths) && t < |ths| && Copying(ths[t]) && ths[t].done < |ths[t].data|
    requires q == PutByte(ths[t].no, ths[t].pos + ths[t].done, ths[t].data[ths[t].done])
    ensures Tame(s, AllCopied(ths[..t]) + Copied(ths[t])) && Tame(s, [q]) && Tame(s, AllCopied(ths[t + 1..]))
    ensures Apart(AllCopied(ths[t + 1..]), [q])
  {
    hide Compatible, AllCopied, Copied, AllSwap, Apart, Tame;
    WriterTame(s, ths, t);
    SwapsBehind(ths, t, ths[t].done);
    OneApart(s, ths, t, AllCopied(ths[t + 1..]), q);
  }

  /** A byte more: it goes to the end of what the thread has copied, and may as well go to the end of everything. */
  lemma PutLast(s: Fs, ths: seq<Thread>, t: nat)
    requires Sane(s) && WritersIn(s, ths) && Compatible(ths) && t < |ths| && ths[t].pc == WCopy
      && ths[t].done < |ths[t].data|
    ensures var th := ths[t];
      DoAll(s, AllCopied(ths[t := th.(done := th.done + 1)]))
        == Do(DoAll(s, AllCopied(ths)), PutByte(th.no, th.pos + th.done, th.data[th.done]))
  {
    var th := ths[t];
    assert Copying(th);
    var q := PutByte(th.no, th.pos + th.done, th.data[th.done]);
    assert Local(q) && q.x == th.no;
    hide *;
    var a, b, d := AllCopied(ths[..t]), Copied(th), AllCopied(ths[t + 1..]);
    assert AllCopied(ths) == a + (b + d) by { CopiedAround(ths, t); }
    assert AllCopied(ths[t := th.(done := th.done + 1)]) == a + ((b + [q]) + d) by {
      OneMore(th);
      CopiedUpdate(ths, t, th.(done := th.done + 1));
    }
    MayComeLast(s, ths, t, q);
    LastOfMiddle(s, a, b, q, d);
  }

  // -- the save under way --

  lemma SaveLeftStep(m: Machine, t: nat, noMem: bool)
    requires LocksOk(m) && CanStep(m, t)
    ensures var th := m.threads[t]; var m' := Apply(m, Step(t, noMem));
      && (th.pc == WSetSize ==> SaveLeft(m) == [] && SaveLeft(m') == [Save(th.no)])
      && (th.pc == WSave ==> SaveLeft(m) == [Save(th.no)] && SaveLeft(m') == [])
      && (th.pc != WSetSize && th.pc != WSave ==> SaveLeft(m') == SaveLeft(m))
  {
    hide Effect, Locals;
    var th := m.threads[t];
    LocalsKeepTarget(m.fs, th, noMem);
    if InodesLock in m.owner {
      assert Holds(m.threads[m.owner[InodesLock]].pc, InodesLock);
    }
    if Holds(th.pc, InodesLock) { assert InodesLock in m.owner && m.owner[InodesLock] == t; }
  }

  lemma LocalsKeepTarget(fs: Fs, th: Thread, noMem: bool)
    ensures Locals(fs, th, noMem).no == th.no
  {
  }

  lemma WriterDone(m: Machine, t: nat, noMem: bool)
    requires LocksOk(m) && Ready(m) && CanStep(m, t) && WritePc(m.threads[t].pc)
    ensures CreateDone(Apply(m, Step(t, noMem))) == DoAll(CreateDone(m), Head(m.threads[t]))
  {
    hide LocksOk, Ready, WritePc, Head, CreateDone, Apply, Do;
    WriterActs(m, t, noMem);
    HeadIsOne(m.threads[t]);
    if Head(m.threads[t]) != [] { assert Head(m.threads[t])[1..] == []; }
  }

  lemma SaveSwaps(m: Machine, q: Prim)
    requires q.PutByte?
    ensures AllSwap(SaveLeft(m), q)
  {
  }

  lemma PutPastSave(fs: Fs, ps: seq<Prim>, q: Prim)
    requires Sane(fs) && Tame(fs, ps) && Local(q) && Ok(fs, q) && AllSwap(ps, q)
    ensures DoAll(DoAll(fs, [q]), ps) == Do(DoAll(fs, ps), q)
  {
    hide *;
    OneDo(fs, q);
    TameOk(fs, ps);
    MoveAhead(fs, ps, q);
  }

  lemma SettledIs(m: Machine)
    ensures Settled(m) == DoAll(CreateDone(m), SaveLeft(m))
  {
  }

  lemma SettledCopy(m: Machine, t: nat, e: Event, s: Fs, th: Thread, q: Prim)
    requires LocksOk(m) && Ready(m) && Follows(m, s) && e.Step? && e.t == t && Allowed(m, e)
    requires m.threads[t] == th && th.pc == WCopy && th.done < |th.data|
      && q == PutByte(th.no, th.pos + th.done, th.data[th.done])
    ensures Settled(Apply(m, e)) == Do(Settled(m), q)
  {
    var noMem := e.noMem;
    assert CanStep(m, t) && e == Step(t, noMem);
    hide *;
    SettledIs(m);
    SettledIs(Apply(m, e));
    CopyHead(th);
    Grounds(m, s);
    WriterDone(m, t, noMem);
    SaveLeftStep(m, t, noMem);
    SaveSwaps(m, q);
    QOk(m, t, q);
    PutPastSave(CreateDone(m), SaveLeft(m), q);
  }

  lemma CopyNext(fs: Fs, th: Thread, noMem: bool)
    requires th.pc == WCopy && th.done < |th.data|
    ensures Next(fs, th, noMem) == th.(done := th.done + 1)
  {
  }

  /** A copied byte is one byte more on both sides. */
  lemma CopyFollows(m: Machine, t: nat, noMem: bool, s: Fs)
    requires LocksOk(m) && Ready(m) && Compatible(m.threads) && Follows(m, s)
    requires CanStep(m, t) && m.threads[t].pc == WCopy && m.threads[t].done < |m.threads[t].data|
    ensures Follows(Apply(m, Step(t, noMem)), s)
  {
    hide LocksOk, Ready, Settled, DoAll, Do, Compatible, AllCopied, Sane, Tame, WritersIn, SameFrame, Next, Effect;
    CopyNext(m.fs, m.threads[t], noMem);
    Grounds(m, s);
    var th := m.threads[t];
    SettledCopy(m, t, Step(t, noMem), s, th, PutByte(th.no, th.pos + th.done, th.data[th.done]));
    PutLast(s, m.threads, t);
  }

  lemma CopyHead(th: Thread)
    requires th.pc == WCopy && th.done < |th.data|
    ensures Head(th) == [PutByte(th.no, th.pos + th.done, th.data[th.done])] && WritePc(th.pc)
  {
    PutBytesLeft(th.no, th.pos, th.data, th.done);
  }

  lemma QOk(m: Machine, t: nat, q: Prim)
    requires Ready(m) && t < |m.threads| && WritePc(m.threads[t].pc) && q.PutByte? && q.x == m.threads[t].no
    ensures Ok(CreateDone(m), q) && Local(q)
  {
    hide Sane, OkAll, CreateDone;
    DoneSane(m);
  }

  // -- the step that sets the size --

  lemma WorkApart(ths: seq<Thread>, t: nat)
    requires Compatible(ths) && t < |ths| && Copying(ths[t])
    ensures var th := ths[t];
      && Apart(AllCopied(ths[..t]) + AllCopied(ths[t + 1..]), WriteWork(th.no, th.pos, th.data))
      && Apart(AllCopied(ths[t + 1..]), PutBytes(th.no, th.pos, th.data, 0, |th.data|))
  {
    hide Compatible, AllCopied, Swaps;
    var th := ths[t];
    var a, d, ps := AllCopied(ths[..t]), AllCopied(ths[t + 1..]), PutBytes(th.no, th.pos, th.data, 0, |th.data|);
    forall j | 0 <= j < |ps| ensures AllSwap(a, ps[j]) && AllSwap(d, ps[j]) {
      assert ps[j] == PutByte(th.no, th.pos + j, th.data[j]);
      SwapsBehind(ths, t, j);
      SwapsBefore(ths, t, j);
    }
    var r, v := Resize(th.no, th.pos + |th.data|), Save(th.no);
    CopiedSwap(ths[..t], r);
    CopiedSwap(ths[t + 1..], r);
    CopiedSwap(ths[..t], v);
    CopiedSwap(ths[t + 1..], v);
  }

  lemma SwapsBefore(ths: seq<Thread>, t: nat, j: nat)
    requires Compatible(ths) && t < |ths| && Copying(ths[t]) && j < |ths[t].data|
    ensures AllSwap(AllCopied(ths[..t]), PutByte(ths[t].no, ths[t].pos + j, ths[t].data[j]))
  {
    hide *;
    assert ths[0..t] == ths[..t];
    WriterSwaps(ths, t, j, 0, t);
  }

  /** Bytes, size and save of a write can be taken together, before the bytes copied by the others. */
  lemma TakeTogether(s: Fs, a: seq<Prim>, b: seq<Prim>, tail: seq<Prim>, d: seq<Prim>)
    requires Sane(s) && Tame(s, a) && Tame(s, b) && Tame(s, tail) && Tame(s, d) && Tame(s, a + d) && Tame(s, b + tail)
    requires Apart(d, b) && Apart(a + d, b + tail)
    ensures DoAll(DoAll(s, a + (b + d)), tail) == DoAll(DoAll(s, b + tail), a + d)
  {
    hide *;
    MiddleLast(s, a, b, d);
    DoAllAppend(DoAll(s, a + d), b, tail);
    TameOk(s, a + d);
    MoveAllAhead(s, a + d, b + tail);
  }

  lemma SizeTame(s: Fs, th: Thread)
    requires th.no in s.core
    ensures Tame(s, SizeWork(th)) && Tame(s, WriteWork(th.no, th.pos, th.data))
    ensures WriteWork(th.no, th.pos, th.data) == PutBytes(th.no, th.pos, th.data, 0, |th.data|) + SizeWork(th)
  {
  }

  lemma SizeTogether(s: Fs, ths: seq<Thread>, t: nat, th': Thread)
    requires Sane(s) && WritersIn(s, ths) && Compatible(ths) && t < |ths| && ths[t].pc == WSetSize && InStep(ths[t])
      && !Copying(th')
    ensures var th := ths[t];
      DoAll(DoAll(s, AllCopied(ths)), SizeWork(th))
        == DoAll(WriteResult(s, th.no, th.pos, th.data), AllCopied(ths[t := th']))
  {
    var th := ths[t];
    assert Copying(th) && Copied(th) == PutBytes(th.no, th.pos, th.data, 0, |th.data|) && Copied(th') == []
      && th.no in s.core;
    hide *;
    var a, b, d := AllCopied(ths[..t]), Copied(th), AllCopied(ths[t + 1..]);
    CopiedAround(ths, t);
    CopiedUpdate(ths, t, th');
    assert [] + d == d;
    WriterTame(s, ths, t);
    SizeTame(s, th);
    WorkApart(ths, t);
    TakeTogether(s, a, b, SizeWork(th), d);
    DoWrite(s, th.no, th.pos, th.data);
  }

  lemma SizeHead(fs: Fs, th: Thread, noMem: bool)
    requires th.pc == WSetSize
    ensures Head(th) + [Save(th.no)] == SizeWork(th) && WritePc(th.pc) && !Copying(Next(fs, th, noMem))
  {
  }

  /** The write takes effect: its bytes leave the extra ones and become part of the serial state. */
  lemma SizeFollows(m: Machine, t: nat, noMem: bool, s: Fs, th: Thread)
    requires LocksOk(m) && Ready(m) && Compatible(m.threads) && AllInStep(m.threads) && Follows(m, s)
    requires CanStep(m, t) && m.threads[t] == th && th.pc == WSetSize
    ensures Follows(Apply(m, Step(t, noMem)), WriteResult(s, th.no, th.pos, th.data))
  {
    var m' := Apply(m, Step(t, noMem));
    var th' := Next(m.fs, th, noMem);
    assert m'.threads == m.threads[t := th'] && InStep(th);
    hide LocksOk, Ready, CreateDone, DoAll, Do, Compatible, AllCopied, Sane, Tame, Head, SaveLeft, Apply, CanStep,
      WritersIn, WriteResult;
    hide SameFrame, Next, WritePc, Copying, AllInStep, SizeWork;
    SizeHead(m.fs, th, noMem);
    Grounds(m, s);
    WriterDone(m, t, noMem);
    SaveLeftStep(m, t, noMem);
    DoAllAppend(CreateDone(m), Head(th), [Save(th.no)]);
    NoneDone(CreateDone(m));
    SizeTogether(s, m.threads, t, th');
  }

  lemma NoneDone(fs: Fs)
    ensures DoAll(fs, []) == fs
  {
  }

  lemma SaveHead(fs: Fs, th: Thread, noMem: bool)
    requires th.pc == WSave
    ensures Head(th) == [Save(th.no)] && WritePc(th.pc) && Copied(th) == Copied(Next(fs, th, noMem)) == []
  {
  }

  lemma SaveFollows(m: Machine, t: nat, noMem: bool, s: Fs)
    requires LocksOk(m) && Ready(m) && Follows(m, s) && CanStep(m, t) && m.threads[t].pc == WSave
    ensures Follows(Apply(m, Step(t, noMem)), s)
  {
    hide LocksOk, Ready, CreateDone, DoAll, AllCopied, Head, SaveLeft, Next, WritePc, Copied, Effect;
    var th := m.threads[t];
    SaveHead(m.fs, th, noMem);
    WriterDone(m, t, noMem);
    SaveLeftStep(m, t, noMem);
    NoneDone(DoAll(CreateDone(m), [Save(th.no)]));
    CopiedSame(m.threads, t, Next(m.fs, th, noMem));
  }

  lemma SilentWrite(fs: Fs, th: Thread, noMem: bool)
    requires WritePc(th.pc) && InStep(th) && th.pc != WSetSize && th.pc != WSave
      && (th.pc == WCopy ==> th.done >= |th.data|)
    ensures Head(th) == [] && Copied(th) == Copied(Next(fs, th, noMem))
  {
  }

  lemma SilentFollows(m: Machine, t: nat, noMem: bool, s: Fs)
    requires LocksOk(m) && Ready(m) && Follows(m, s) && CanStep(m, t) && WritePc(m.threads[t].pc)
      && InStep(m.threads[t])
    requires m.threads[t].pc != WSetSize && m.threads[t].pc != WSave
      && (m.threads[t].pc == WCopy ==> m.threads[t].done >= |m.threads[t].data|)
    ensures Follows(Apply(m, Step(t, noMem)), s)
  {
    hide LocksOk, Ready, CreateDone, DoAll, AllCopied, Head, SaveLeft, Next, WritePc, Copied, Effect;
    var th := m.threads[t];
    SilentWrite(m.fs, th, noMem);
    WriterDone(m, t, noMem);
    SaveLeftStep(m, t, noMem);
    NoneDone(CreateDone(m));
    CopiedSame(m.threads, t, Next(m.fs, th, noMem));
  }

  // ---------- steps of creates ----------

  lemma CreateCopies(fs: Fs, th: Thread, noMem: bool)
    requires !WritePc(th.pc)
    ensures Copied(th) == Copied(Next(fs, th, noMem)) == []
  {
    CreatePcs(fs, th, noMem);
  }

  lemma CreatorFollows(m: Machine, t: nat, noMem: bool, s: Fs)
    requires LocksOk(m) && Follows(m, s) && CanStep(m, t) && !WritePc(m.threads[t].pc) && m.threads[t].pc != CAlloc
    ensures Follows(Apply(m, Step(t, noMem)), s)
  {
    hide LocksOk, CreateDone, DoAll, AllCopied, SaveLeft, Next, WritePc, Copied, Effect;
    CreateCopies(m.fs, m.threads[t], noMem);
    CreatorActs(m, t, noMem);
    NoSave(m.threads[t]);
    SaveLeftStep(m, t, noMem);
    CopiedSame(m.threads, t, Next(m.fs, m.threads[t], noMem));
  }

  lemma NoSave(th: Thread)
    requires !WritePc(th.pc)
    ensures th.pc != WSetSize && th.pc != WSave
  {
  }

  // -- a create and accesses to other inodes --

  /** The new inode can be stored and counted. */
  ghost predicate CanAdd(fs: Fs, i: Inode)
  {
    Ok(fs, Store(i)) && Ok(StoreInode(fs, i), Count(i))
  }

  lemma FrameAdd(fs: Fs, fs': Fs, i: Inode)
    requires SameFrame(fs, fs') && CanAdd(fs, i)
    ensures CanAdd(fs', i)
  {
    var a, b := StoreInode(fs, i), StoreInode(fs', i);
    forall k | 0 <= k < b.count ensures b.table[k].no != i.no {
      assert a.table[k] == fs.table[k] && b.table[k] == fs'.table[k];
    }
    forall x | x in b.core ensures b.core[x].block != i.block {
      assert x in a.core;
    }
  }

  lemma TakenFrame(fs: Fs, fs': Fs)
    requires SameFrame(fs, fs')
    ensures SameFrame(TakeBlock(fs), TakeBlock(fs')) && FreeBlock(fs') == FreeBlock(fs)
  {
  }

  lemma TakenSane(fs: Fs)
    requires Sane(fs)
    ensures Sane(TakeBlock(fs))
  {
    SaneFree(fs, TakeBlock(fs).free);
  }

  lemma SaneFree(fs: Fs, free: set<nat>)
    requires Sane(fs)
    ensures Sane(fs.(free := free))
  {
    forall x | x in fs.core ensures Anchored(fs.(free := free), x) {
      assert Anchored(fs, x);
      assert SlotOf(fs.(free := free), x) == SlotOf(fs, x);
    }
  }

  /** The work of a create, as far as the accesses go. */
  function CreateAccesses(i: Inode, dir: nat, name: Name): seq<Prim>
  {
    [Store(i), Count(i)] + [PutName(dir, name, i.no), Bump(dir), Save(dir)]
  }

  lemma DoAccesses(fs: Fs, i: Inode, dir: nat, name: Name)
    ensures DoAll(fs, CreateAccesses(i, dir, name)) == LinkInto(AddInode(fs, i), dir, name, i.no)
  {
    var th := Thread(CStore, dir, name, i.mode, 0, i, 0, [], 0, 0);
    DoCreate(fs, th);
  }

  lemma AccessesOk(fs: Fs, i: Inode, dir: nat, name: Name)
    requires Sane(fs) && CanAdd(fs, i) && dir in fs.core
    ensures OkAll(fs, CreateAccesses(i, dir, name))
  {
    var th := Thread(CStore, dir, name, i.mode, 0, i, 0, [], 0, 0);
    StoreAndOnOk(fs, th);
  }

  lemma AccessesApart(i: Inode, dir: nat, name: Name, ps: seq<Prim>)
    requires AwayFrom(ps, dir)
    ensures Apart(CreateAccesses(i, dir, name), ps)
  {
    var cs := CreateAccesses(i, dir, name);
    forall k, l | 0 <= k < |ps| && 0 <= l < |cs| ensures Swaps(cs[l], ps[k]) {
      assert Local(cs[l]) ==> cs[l].x == dir;
    }
  }

  /** A create that succeeds commutes with accesses to other inodes in core. */
  lemma AddPast(fs: Fs, i: Inode, dir: nat, name: Name, ps: seq<Prim>)
    requires Sane(fs) && CanAdd(fs, i) && dir in fs.core && Tame(fs, ps) && AwayFrom(ps, dir)
    ensures LinkInto(AddInode(DoAll(fs, ps), i), dir, name, i.no)
      == DoAll(LinkInto(AddInode(fs, i), dir, name, i.no), ps)
  {
    hide *;
    AccessesOk(fs, i, dir, name);
    AccessesApart(i, dir, name, ps);
    DoAccesses(fs, i, dir, name);
    DoAccesses(DoAll(fs, ps), i, dir, name);
    MoveAllAhead(fs, CreateAccesses(i, dir, name), ps);
  }

  lemma CreatePast(fs: Fs, dir: nat, name: Name, mode: Mode, noMem: bool, ps: seq<Prim>)
    requires Sane(fs) && dir in fs.core && Tame(fs, ps) && AwayFrom(ps, dir)
    requires CreateError(fs, mode, noMem) == 0 ==> CanAdd(TakeBlock(fs), NewInode(fs, mode))
    ensures CreateResult(DoAll(fs, ps), dir, name, mode, noMem) == DoAll(CreateResult(fs, dir, name, mode, noMem), ps)
  {
    TameOk(fs, ps);
    SameErrors(fs, DoAll(fs, ps), mode, noMem);
    if CreateError(fs, mode, noMem) == 0 {
      hide Sane, Tame, DoAll, LinkInto, AddInode, CanAdd, AwayFrom, SameFrame, LowestFree, CreateError;
      TakenSane(fs);
      TakenTame(fs, ps);
      FreeAside(fs, TakeBlock(fs).free, ps);
      AddPast(TakeBlock(fs), NewInode(fs, mode), dir, name, ps);
    }
  }

  lemma SameErrors(fs: Fs, fs': Fs, mode: Mode, noMem: bool)
    requires SameFrame(fs, fs')
    ensures CreateError(fs', mode, noMem) == CreateError(fs, mode, noMem) && NewInode(fs', mode) == NewInode(fs, mode)
    ensures fs'.free == fs.free && fs'.count == fs.count
  {
  }

  lemma TakenTame(fs: Fs, ps: seq<Prim>)
    requires Tame(fs, ps)
    ensures Tame(TakeBlock(fs), ps)
  {
  }

  // -- the step with which a create takes effect --

  /** A create at the step where it takes its block finds the file system as it is, and can add the new inode. */
  lemma AllocReady(m: Machine, t: nat, noMem: bool)
    requires Inv(m) && !m.fs.fault && CanStep(m, t) && m.threads[t].pc == CAlloc
    ensures CreateDone(m) == m.fs && m.threads[t].no in m.fs.core
    ensures CreateError(m.fs, m.threads[t].mode, false) == 0
      ==> CanAdd(TakeBlock(m.fs), NewInode(m.fs, m.threads[t].mode))
  {
    hide Inv, Work, CanAdd, NewInode;
    Checked(m, t);
    CreateWorks(m, t, noMem);
    TargetInside(m, t);
    if FreeBlock(m.fs) < MAX_OBJECTS {
      GrantedThread(m, t, noMem);
      StepInv(m, t, noMem);
      NewAdds(Apply(m, Step(t, noMem)), t);
    }
  }

  lemma TargetInside(m: Machine, t: nat)
    requires Inv(m) && !m.fs.fault && t < |m.threads| && m.threads[t].pc != Idle
    ensures m.threads[t].no in m.fs.core
  {
    hide Consistent;
    assert ThreadOk(m.fs, m.threads[t]);
  }

  lemma NewAdds(m: Machine, t: nat)
    requires Inv(m) && !m.fs.fault && t < |m.threads| && m.threads[t].pc == CRelS1 && m.threads[t].err == 0
    ensures CanAdd(m.fs, m.threads[t].inode)
  {
    hide Consistent, Flat, CoreOk;
    var th := m.threads[t];
    assert ThreadOk(m.fs, th);
    assert Holds(th.pc, DirLock);
    Basics(m.fs, Limbo(m), Orphans(m), Dirty(m));
    assert Limbo(m) == LimboOf(th);
    assert th.inode.block in Limbo(m);
    NewInodeCounts(m.fs, th.inode, Limbo(m), Dirty(m));
  }

  lemma {:induction false} CopiedAway(ths: seq<Thread>, x: nat)
    requires NoWriterOn(ths, x)
    ensures AwayFrom(AllCopied(ths), x)
    decreases |ths|
  {
    if ths != [] { CopiedAway(ths[1..], x); }
  }

  lemma SaveAway(m: Machine, x: nat)
    requires NoWriterOn(m.threads, x)
    ensures AwayFrom(SaveLeft(m), x)
  {
  }

  /** The create's directory is none of the files being written. */
  lemma CreateElsewhere(m: Machine, t: nat)
    requires LocksOk(m) && Ready(m) && t < |m.threads| && HoldsD(m.threads[t].pc)
    ensures NoWriterOn(m.threads, m.threads[t].no)
  {
    assert Holds(m.threads[t].pc, DirLock);
  }

  lemma DataFrame(s: Fs, fs: Fs)
    requires SameButData(s, fs) && Sane(s)
    ensures SameFrame(fs, s)
  {
    Below(s);
  }

  /** Where a create takes effect, what it finds, and what it makes of it. */
  ghost predicate CreateHere(m: Machine, m': Machine, dir: nat, name: Name, mode: Mode, noMem: bool)
  {
    && CreateDone(m') == CreateResult(CreateDone(m), dir, name, mode, noMem) && dir in CreateDone(m).core
    && NoWriterOn(m.threads, dir) && SaveLeft(m') == SaveLeft(m) && AllCopied(m'.threads) == AllCopied(m.threads)
    && (CreateError(CreateDone(m), mode, noMem) == 0
      ==> CanAdd(TakeBlock(CreateDone(m)), NewInode(CreateDone(m), mode)))
  }

  lemma AddAcross(k: Fs, settled: Fs, s: Fs, mode: Mode, noMem: bool)
    requires SameFrame(k, settled) && SameFrame(settled, s)
    requires CreateError(k, mode, noMem) == 0 ==> CanAdd(TakeBlock(k), NewInode(k, mode))
    ensures CreateError(s, mode, noMem) == CreateError(k, mode, noMem)
    ensures CreateError(s, mode, noMem) == 0 ==> CanAdd(TakeBlock(s), NewInode(s, mode))
  {
    hide SameFrame, CanAdd;
    SameErrors(k, settled, mode, noMem);
    SameErrors(settled, s, mode, noMem);
    if CreateError(k, mode, noMem) == 0 {
      TakenFrame(k, settled);
      TakenFrame(settled, s);
      FrameAdd(TakeBlock(k), TakeBlock(settled), NewInode(k, mode));
      FrameAdd(TakeBlock(settled), TakeBlock(s), NewInode(k, mode));
    }
  }

  lemma CoreAcross(k: Fs, settled: Fs, s: Fs, x: nat)
    requires SameFrame(k, settled) && SameFrame(settled, s) && x in k.core
    ensures x in s.core
  {
  }

  /** A create takes effect as a whole where it takes its block, or gives up. */
  lemma CreateFollows(m: Machine, m': Machine, s: Fs, dir: nat, name: Name, mode: Mode, noMem: bool)
    requires Ready(m) && Follows(m, s) && CreateHere(m, m', dir, name, mode, noMem)
    ensures Follows(m', CreateResult(s, dir, name, mode, noMem))
  {
    hide Ready, Sane, Tame, DoAll, CreateResult, CreateError, CanAdd, AllCopied, SaveLeft, CreateDone, SameFrame,
      AwayFrom, SameButData;
    hide WritersIn, NewInode, TakeBlock, NoWriterOn;
    var k, settled := CreateDone(m), Settled(m);
    Grounds(m, s);
    DataFrame(s, settled);
    SaveAway(m, dir);
    CopiedAway(m.threads, dir);
    CopiedTame(s, m.threads);
    CreatePast(k, dir, name, mode, noMem, SaveLeft(m));
    AddAcross(k, settled, s, mode, noMem);
    CoreAcross(k, settled, s, dir);
    CreatePast(s, dir, name, mode, noMem, AllCopied(m.threads));
  }

  lemma AllocHere(m: Machine, t: nat, noMem: bool, th: Thread)
    requires Inv(m) && !m.fs.fault && CanStep(m, t) && m.threads[t] == th && th.pc == CAlloc
    ensures CreateHere(m, Apply(m, Step(t, noMem)), th.no, th.name, th.mode, false)
  {
    hide CreateResult, CreateError, CanAdd, AllCopied, SaveLeft, CreateDone, NewInode, TakeBlock, Next, Effect, Inv,
      Copied;
    AllocReady(m, t, noMem);
    AllocDone(m, t, noMem);
    ReadyNow(m);
    InvLocks(m);
    CreateElsewhere(m, t);
    SaveLeftStep(m, t, noMem);
    CreateCopies(m.fs, th, noMem);
    CopiedSame(m.threads, t, Next(m.fs, th, noMem));
  }

  lemma GiveUpReady(m: Machine, t: nat, noMem: bool)
    requires Inv(m) && !m.fs.fault && CanStep(m, t) && GivesUp(m.threads[t], noMem)
    ensures CreateDone(m) == m.fs && m.threads[t].no in m.fs.core && CreateError(m.fs, m.threads[t].mode, noMem) != 0
  {
    Checked(m, t);
    CreateWorks(m, t, noMem);
    TargetInside(m, t);
  }

  lemma GiveUpHere(m: Machine, t: nat, noMem: bool, th: Thread)
    requires Inv(m) && !m.fs.fault && CanStep(m, t) && m.threads[t] == th && GivesUp(th, noMem)
    ensures CreateHere(m, Apply(m, Step(t, noMem)), th.no, th.name, th.mode, noMem)
  {
    hide CreateResult, CreateError, CanAdd, AllCopied, SaveLeft, CreateDone, NewInode, TakeBlock, Next, Effect, Inv,
      Copied;
    GiveUpReady(m, t, noMem);
    GivesUpActs(m, t, noMem);
    ReadyNow(m);
    InvLocks(m);
    CreateElsewhere(m, t);
    SaveLeftStep(m, t, noMem);
    CreateCopies(m.fs, th, noMem);
    CopiedSame(m.threads, t, Next(m.fs, th, noMem));
  }

  // ---------- other events ----------

  lemma LoadFollows(m: Machine, no: nat, s: Fs)
    requires Ready(m) && Follows(m, s)
    ensures Follows(Apply(m, Load(no)), LoadInode(s, no))
  {
    assert SaveLeft(Apply(m, Load(no))) == SaveLeft(m) && Apply(m, Load(no)).threads == m.threads;
    hide Ready, Sane, Tame, OkAll, DoAll, LoadInode, CreateDone, SaveLeft, AllCopied, Apply, SameFrame, SameButData,
      WritersIn;
    Grounds(m, s);
    LoadActs(m, no);
    TameOk(CreateDone(m), SaveLeft(m));
    LoadPastAll(CreateDone(m), SaveLeft(m), no);
    CopiedTame(s, m.threads);
    TameOk(s, AllCopied(m.threads));
    LoadPastAll(s, AllCopied(m.threads), no);
  }

  lemma StartSame(m: Machine, t: nat, th: Thread)
    requires LocksOk(m) && Allowed(m, Start(t, th))
    ensures SaveLeft(Apply(m, Start(t, th))) == SaveLeft(m)
    ensures Copied(th) == Copied(m.threads[t]) == []
  {
    if InodesLock in m.owner { assert Holds(m.threads[m.owner[InodesLock]].pc, InodesLock); }
  }

  lemma StartFollows(m: Machine, t: nat, th: Thread, s: Fs)
    requires LocksOk(m) && Allowed(m, Start(t, th)) && Follows(m, s)
    ensures Follows(Apply(m, Start(t, th)), s)
  {
    StartSame(m, t, th);
    StartLeavesCreate(m, t, th);
    hide LocksOk, DoAll, SaveLeft, AllCopied, Copied, CreateWork;
    CopiedSame(m.threads, t, th);
  }

  lemma WriterFollows(m: Machine, t: nat, noMem: bool, s: Fs)
    requires LocksOk(m) && Ready(m) && Compatible(m.threads) && AllInStep(m.threads) && Follows(m, s)
    requires CanStep(m, t) && WritePc(m.threads[t].pc)
    ensures Follows(Apply(m, Step(t, noMem)), PerformAll(s, Effective(m, Step(t, noMem))))
  {
    hide LocksOk, Ready, Compatible, Follows, WritePc, WriteResult, Apply, InStep;
    var th := m.threads[t];
    assert InStep(th);
    if th.pc == WSetSize {
      SizeFollows(m, t, noMem, s, th);
    } else if th.pc == WSave {
      SaveFollows(m, t, noMem, s);
    } else if th.pc == WCopy && th.done < |th.data| {
      CopyFollows(m, t, noMem, s);
    } else {
      WriterQuiet(th);
      SilentFollows(m, t, noMem, s);
    }
  }

  lemma WriterQuiet(th: Thread)
    requires WritePc(th.pc)
    ensures th.pc != CAlloc && th.pc != CCheck
  {
  }

  lemma StepFollows(m: Machine, t: nat, noMem: bool, s: Fs)
    requires Inv(m) && !m.fs.fault && Compatible(m.threads) && AllInStep(m.threads) && Follows(m, s) && CanStep(m, t)
    ensures Follows(Apply(m, Step(t, noMem)), PerformAll(s, Effective(m, Step(t, noMem))))
  {
    hide Inv, LocksOk, Ready, Compatible, AllInStep, Follows, WritePc, CreateResult, Apply, CreateHere, CheckError;
    var th := m.threads[t];
    InvLocks(m);
    ReadyNow(m);
    if WritePc(th.pc) {
      WriterFollows(m, t, noMem, s);
    } else if th.pc == CAlloc {
      AllocHere(m, t, noMem, th);
      CreateFollows(m, Apply(m, Step(t, noMem)), s, th.no, th.name, th.mode, false);
    } else if GivesUp(th, noMem) {
      GiveUpHere(m, t, noMem, th);
      CreateFollows(m, Apply(m, Step(t, noMem)), s, th.no, th.name, th.mode, noMem);
    } else {
      NoSave(th);
      CreatorFollows(m, t, noMem, s);
    }
  }

  lemma EventFollows(m: Machine, e: Event, s: Fs)
    requires Inv(m) && !m.fs.fault && Compatible(m.threads) && AllInStep(m.threads) && Follows(m, s) && Allowed(m, e)
    ensures Follows(Apply(m, e), PerformAll(s, Effective(m, e)))
  {
    hide Inv, LocksOk, Ready, Compatible, AllInStep, Follows, LoadInode, Apply;
    InvLocks(m);
    ReadyNow(m);
    match e
    case Step(t, noMem) => StepFollows(m, t, noMem, s);
    case Start(t, th) => StartFollows(m, t, th, s);
    case Load(no) => LoadFollows(m, no, s);
  }

  // ---------- every run ----------

  /** A write that starts agrees with those on the same file that have not taken effect yet. */
  predicate StartsAgreeing(m: Machine, e: Event)
  {
    e.Start? && e.th.pc == WCopy ==>
      forall u :: 0 <= u < |m.threads| && Copying(m.threads[u]) && m.threads[u].no == e.th.no
        ==> Agree(e.th, m.threads[u])
  }

  /** Writes on one file that are under way at the same time agree wherever they meet. */
  predicate WritesAgree(m: Machine, es: seq<Event>)
    requires Run(m, es)
    decreases |es|
  {
    es == [] || (StartsAgreeing(m, es[0]) && WritesAgree(Apply(m, es[0]), es[1..]))
  }

  lemma NextWrite(fs: Fs, th: Thread, noMem: bool)
    ensures Copying(Next(fs, th, noMem)) ==> Copying(th)
    ensures var th' := Next(fs, th, noMem); th'.no == th.no && th'.pos == th.pos && th'.data == th.data
    ensures InStep(th) ==> InStep(Next(fs, th, noMem))
  {
    hide FreeBlock, CheckError, SaveFinds;
  }

  lemma StaysInStep(m: Machine, e: Event)
    requires Allowed(m, e) && AllInStep(m.threads)
    ensures AllInStep(Apply(m, e).threads)
  {
    hide Effect, Next, InStep;
    if e.Step? { NextWrite(m.fs, m.threads[e.t], e.noMem); }
    if e.Start? { CallInStep(m.fs, e.th); }
  }

  lemma CallInStep(fs: Fs, th: Thread)
    requires FreshCall(fs, th)
    ensures InStep(th) && (Copying(th) ==> th.pc == WCopy)
  {
  }

  lemma Alike(a: Thread, b: Thread, c: Thread)
    requires Agree(a, b) && c.pos == a.pos && c.data == a.data
    ensures Agree(c, b) && Agree(b, c)
  {
  }

  lemma StaysCompatible(m: Machine, e: Event)
    requires Allowed(m, e) && Compatible(m.threads) && StartsAgreeing(m, e)
    ensures Compatible(Apply(m, e).threads)
  {
    var ths, ths' := m.threads, Apply(m, e).threads;
    SameThreads(m, e);
    if e.Step? { NextWrite(m.fs, ths[e.t], e.noMem); }
    if e.Start? { CallInStep(m.fs, e.th); }
    hide Effect, Next, Agree, Copying, Apply, FreshCall, InStep;
    forall t, u | 0 <= t < |ths'| && 0 <= u < |ths'| && t != u && Copying(ths'[t]) && Copying(ths'[u])
      && ths'[t].no == ths'[u].no
      ensures Agree(ths'[t], ths'[u])
    {
      if !e.Load? && e.t == t {
        Alike(if e.Start? then e.th else ths[t], ths[u], ths'[t]);
      } else if !e.Load? && e.t == u {
        Alike(if e.Start? then e.th else ths[u], ths[t], ths'[u]);
      }
    }
  }

  lemma {:induction false} RunFollows(m: Machine, es: seq<Event>, s: Fs)
    requires Inv(m) && Run(m, es) && !After(m, es).fs.fault && WritesAgree(m, es)
    requires Compatible(m.threads) && AllInStep(m.threads) && Follows(m, s)
    ensures Follows(After(m, es), PerformAll(s, Serial(m, es)))
    decreases |es|
  {
    hide Inv, Follows, Apply, Effective, Compatible, AllInStep, StartsAgreeing;
    if m.fs.fault { FaultStaysInRun(m, es); }
    if es != [] {
      var m1 := Apply(m, es[0]);
      EventInv(m, es[0]);
      EventFollows(m, es[0], s);
      StaysCompatible(m, es[0]);
      StaysInStep(m, es[0]);
      RunFollows(m1, es[1..], PerformAll(s, Effective(m, es[0])));
      PerformAppend(s, Effective(m, es[0]), Serial(m1, es[1..]));
    }
  }

  lemma {:induction false} NoneCopied(ths: seq<Thread>)
    requires forall t :: 0 <= t < |ths| ==> ths[t].pc == Idle
    ensures AllCopied(ths) == []
    decreases |ths|
  {
    if ths != [] { NoneCopied(ths[1..]); }
  }

  lemma QuietFollows(m: Machine, s: Fs)
    requires Quiet(m)
    ensures Follows(m, s) <==> m.fs == s
  {
    NoneCopied(m.threads);
    NoCreate(m);
  }

  /**
   * Serializability. Any number of threads may be inside creates, mkdirs and writes at once: when all have
   * ended, the file system is exactly what the operations produce one after the other, undisturbed, in the
   * order in which they took effect: all the operations that were started, each once. Only where two writes on
   * one file are under way at the same time must they write the same bytes.
   */
  lemma Serializable(m: Machine, es: seq<Event>)
    requires Initial(m) && Run(m, es) && WritesAgree(m, es) && Quiet(After(m, es)) && !After(m, es).fs.fault
    ensures After(m, es).fs == PerformAll(m.fs, Serial(m, es))
    ensures multiset(NamedAll(Serial(m, es))) == multiset(Started(es))
  {
    hide WellFormed, Follows, WritesAgree;
    SerialIsStarted(m, es);
    InitialInv(m);
    QuietFollows(m, m.fs);
    QuietFollows(After(m, es), PerformAll(m.fs, Serial(m, es)));
    RunFollows(m, es, m.fs);
  }
}
