/**
 * Two writes on one file: which of them can be interleaved in every way with a serial outcome.
 */
module FsOverlap {
  import opened Bytes
  import opened Layout
  import opened FsState
  import opened FsMachine
  import opened FsLocking
  import opened FsSafety
  import opened FsTheorems
  import opened FsOps
  import opened FsEffects
  import opened FsCommute
  import opened FsWork
  import opened FsAtomic
  import FsSerial

  // ---------- accesses to one file ----------

  predicate OnFile(ps: seq<Prim>, f: nat)
  {
    forall k :: 0 <= k < |ps| ==> Local(ps[k]) && ps[k].x == f
  }

  /** What a sequence of accesses makes of the view of their file. */
  function ViewAfter(ps: seq<Prim>, v: View): View
    requires forall k :: 0 <= k < |ps| ==> Local(ps[k])
    decreases |ps|
  {
    if ps == [] then v else ViewAfter(ps[1..], FsCommute.Act(ps[0], v))
  }

  function BadAfter(ps: seq<Prim>, v: View): bool
    requires forall k :: 0 <= k < |ps| ==> Local(ps[k])
    decreases |ps|
  {
    ps != [] && (Bad(ps[0], v) || BadAfter(ps[1..], FsCommute.Act(ps[0], v)))
  }

  /** Accesses to one file change the view of that file and nothing else. */
  lemma {:induction false} OnlyTheFile(fs: Fs, f: nat, ps: seq<Prim>)
    requires Sane(fs) && f in fs.core && OnFile(ps, f)
    ensures Anchored(fs, f) && DoAll(fs, ps) == Put(fs, f, ViewAfter(ps, Look(fs, f)), BadAfter(ps, Look(fs, f)))
    decreases |ps|
  {
    Anchors(fs, f);
    var v := Look(fs, f);
    if ps == [] {
      assert fs.core[f := fs.core[f]] == fs.core;
    } else {
      hide Sane, Do, Put, Look, FsCommute.Act, Bad, Fits, Anchored, SlotOf;
      LocalSane(fs, ps[0]);
      DoIsAct(fs, ps[0]);
      ActFits(fs, ps[0]);
      Anchors(Do(fs, ps[0]), f);
      OnlyTheFile(Do(fs, ps[0]), f, ps[1..]);
      var w := FsCommute.Act(ps[0], v);
      PutTwice(fs, f, w, Bad(ps[0], v), ViewAfter(ps[1..], w), BadAfter(ps[1..], w));
    }
  }

  // -- bytes and sizes --

  predicate PutsAt(p: Prim, o: nat)
  {
    p.PutByte? && p.off == o
  }

  /** A byte is what some access put there, or what it was if none did; so is the size. */
  lemma {:induction false} AfterAll(ps: seq<Prim>, v: View, o: nat)
    requires (forall k :: 0 <= k < |ps| ==> ps[k].PutByte? || ps[k].Resize? || ps[k].Save?) && o < BLOCK_SIZE
    ensures var w := ViewAfter(ps, v);
      && (if exists k :: 0 <= k < |ps| && PutsAt(ps[k], o)
          then exists k :: 0 <= k < |ps| && PutsAt(ps[k], o) && w.block[o] == ps[k].v
          else w.block[o] == v.block[o])
      && w.inode == v.inode.(size := w.inode.size)
      && (if exists k :: 0 <= k < |ps| && ps[k].Resize?
          then exists k :: 0 <= k < |ps| && ps[k].Resize? && w.inode.size == ps[k].size
          else w.inode.size == v.inode.size)
    decreases |ps|
  {
    if ps != [] {
      var n := |ps| - 1;
      AfterAll(ps[..n], v, o);
      ViewSnoc(ps[..n], ps[n], v);
      assert ps == ps[..n] + [ps[n]];
    }
  }

  lemma {:induction false} ViewSnoc(ps: seq<Prim>, p: Prim, v: View)
    requires Local(p) && forall k :: 0 <= k < |ps| ==> Local(ps[k])
    ensures ViewAfter(ps + [p], v) == FsCommute.Act(p, ViewAfter(ps, v))
    decreases |ps|
  {
    hide FsCommute.Act;
    if ps == [] {
      assert ps + [p] == [p];
    } else {
      assert (ps + [p])[1..] == ps[1..] + [p];
      ViewSnoc(ps[1..], p, FsCommute.Act(ps[0], v));
    }
  }

  // ---------- two writes ----------

  /** A write of `data` at `pos`. */
  datatype Stretch = Stretch(pos: nat, data: seq<Byte>)

  function End(w: Stretch): nat { w.pos + |w.data| }

  predicate Covers(w: Stretch, o: nat) { w.pos <= o < End(w) }

  function ByteAt(w: Stretch, o: nat): Byte
    requires Covers(w, o)
  {
    w.data[o - w.pos]
  }

  /** Both writes cover the offset, with different bytes. */
  predicate Clash(a: Stretch, b: Stretch, o: nat)
  {
    Covers(a, o) && Covers(b, o) && ByteAt(a, o) != ByteAt(b, o)
  }

  /** The writes clash nowhere, or in one place and end at the same one. */
  ghost predicate Harmless(a: Stretch, b: Stretch)
  {
    (forall o :: !Clash(a, b, o)) || (End(a) == End(b) && forall o, o' :: Clash(a, b, o) && Clash(a, b, o') ==> o == o')
  }

  function Works(f: nat, w: Stretch): seq<Prim> { WriteWork(f, w.pos, w.data) }

  function WOp(f: nat, w: Stretch): Op { WriteOp(f, w.pos, w.data) }

  /** The accesses are those of the two writes, and of no other, in whatever order. */
  ghost predicate Mixes(ps: seq<Prim>, f: nat, a: Stretch, b: Stretch)
  {
    forall p :: p in ps <==> p in Works(f, a) || p in Works(f, b)
  }

  lemma WorksHold(f: nat, w: Stretch, p: Prim)
    ensures p in Works(f, w) ==> (p.PutByte? || p.Resize? || p.Save?) && p.x == f
    ensures p in Works(f, w) && p.PutByte? ==> Covers(w, p.off) && p.v == ByteAt(w, p.off)
    ensures p in Works(f, w) && p.Resize? ==> p.size == End(w)
    ensures Resize(f, End(w)) in Works(f, w)
  {
    assert Works(f, w)[|w.data|] == Resize(f, End(w));
  }

  lemma WorksCover(f: nat, w: Stretch, o: nat)
    requires Covers(w, o)
    ensures PutByte(f, o, ByteAt(w, o)) in Works(f, w)
  {
    assert Works(f, w)[o - w.pos] == PutByte(f, o, ByteAt(w, o));
  }

  lemma MixOnFile(ps: seq<Prim>, f: nat, a: Stretch, b: Stretch)
    requires Mixes(ps, f, a, b)
    ensures OnFile(ps, f) && forall k :: 0 <= k < |ps| ==> ps[k].PutByte? || ps[k].Resize? || ps[k].Save?
  {
    forall k | 0 <= k < |ps| ensures Local(ps[k]) && ps[k].x == f && (ps[k].PutByte? || ps[k].Resize? || ps[k].Save?) {
      assert ps[k] in ps;
      WorksHold(f, a, ps[k]);
      WorksHold(f, b, ps[k]);
    }
  }

  /** What a byte may be after the two writes, in whatever order. */
  ghost predicate ByteChoice(x: Byte, was: Byte, a: Stretch, b: Stretch, o: nat)
  {
    if Covers(a, o) && Covers(b, o) then x == ByteAt(a, o) || x == ByteAt(b, o)
    else if Covers(a, o) then x == ByteAt(a, o)
    else if Covers(b, o) then x == ByteAt(b, o)
    else x == was
  }

  lemma MixedByte(ps: seq<Prim>, f: nat, a: Stretch, b: Stretch, v: View, o: nat)
    requires Mixes(ps, f, a, b) && o < BLOCK_SIZE && OnFile(ps, f)
    ensures ByteChoice(ViewAfter(ps, v).block[o], v.block[o], a, b, o)
  {
    MixOnFile(ps, f, a, b);
    AfterAll(ps, v, o);
    if Covers(a, o) { WorksCover(f, a, o); assert PutsAt(PutByte(f, o, ByteAt(a, o)), o); }
    if Covers(b, o) { WorksCover(f, b, o); assert PutsAt(PutByte(f, o, ByteAt(b, o)), o); }
    if k :| 0 <= k < |ps| && PutsAt(ps[k], o) && ViewAfter(ps, v).block[o] == ps[k].v {
      assert ps[k] in ps;
      WorksHold(f, a, ps[k]);
      WorksHold(f, b, ps[k]);
    }
  }

  lemma MixedSize(ps: seq<Prim>, f: nat, a: Stretch, b: Stretch, v: View)
    requires Mixes(ps, f, a, b) && OnFile(ps, f)
    ensures ViewAfter(ps, v).inode == v.inode.(size := End(a)) || ViewAfter(ps, v).inode == v.inode.(size := End(b))
  {
    MixOnFile(ps, f, a, b);
    AfterAll(ps, v, 0);
    WorksHold(f, a, Resize(f, End(a)));
    if k :| 0 <= k < |ps| && ps[k].Resize? && ViewAfter(ps, v).inode.size == ps[k].size {
      assert ps[k] in ps;
      WorksHold(f, a, ps[k]);
      WorksHold(f, b, ps[k]);
    }
  }

  // -- one after the other --

  predicate FitsBlock(w: Stretch) { End(w) <= BLOCK_SIZE }

  /** The view of a file after a whole write. */
  function Written(v: View, w: Stretch): View
    requires FitsBlock(w)
  {
    var i := v.inode.(size := End(w));
    View(i, i, Overwrite(v.block, w.pos, w.data))
  }

  lemma {:induction false} ViewAppend(ps: seq<Prim>, qs: seq<Prim>, v: View)
    requires (forall k :: 0 <= k < |ps| ==> Local(ps[k])) && (forall k :: 0 <= k < |qs| ==> Local(qs[k]))
    ensures ViewAfter(ps + qs, v) == ViewAfter(qs, ViewAfter(ps, v))
    decreases |ps|
  {
    hide FsCommute.Act;
    if ps == [] {
      assert ps + qs == qs;
    } else {
      assert (ps + qs)[1..] == ps[1..] + qs;
      ViewAppend(ps[1..], qs, FsCommute.Act(ps[0], v));
    }
  }

  lemma {:induction false} PutsView(f: nat, w: Stretch, lo: nat, hi: nat, v: View)
    requires FitsBlock(w) && lo <= hi <= |w.data|
    ensures ViewAfter(PutBytes(f, w.pos, w.data, lo, hi), v)
      == v.(block := Overwrite(v.block, w.pos + lo, w.data[lo..hi]))
    decreases hi - lo
  {
    var ps := PutBytes(f, w.pos, w.data, lo, hi);
    if lo < hi {
      var v1 := v.(block := v.block[w.pos + lo := w.data[lo]]);
      assert ps[1..] == PutBytes(f, w.pos, w.data, lo + 1, hi);
      PutsView(f, w, lo + 1, hi, v1);
      assert Overwrite(v1.block, w.pos + lo + 1, w.data[lo + 1..hi]) == Overwrite(v.block, w.pos + lo, w.data[lo..hi]);
    } else {
      assert ps == [] && Overwrite(v.block, w.pos + lo, w.data[lo..hi]) == v.block;
    }
  }

  lemma SizeView(f: nat, w: Stretch, v: View)
    ensures var i := v.inode.(size := End(w)); ViewAfter([Resize(f, End(w)), Save(f)], v) == View(i, i, v.block)
  {
    var tail := [Resize(f, End(w)), Save(f)];
    assert tail[1..] == [Save(f)];
    var v1 := v.(inode := v.inode.(size := End(w)));
    assert ViewAfter(tail, v) == ViewAfter([Save(f)], v1);
    assert ViewAfter([Save(f)], v1) == FsCommute.Act(Save(f), v1);
  }

  lemma WorkView(f: nat, w: Stretch, v: View)
    requires FitsBlock(w) && OnFile(Works(f, w), f)
    ensures ViewAfter(Works(f, w), v) == Written(v, w)
  {
    hide ViewAfter, Overwrite;
    var ps, tail := PutBytes(f, w.pos, w.data, 0, |w.data|), [Resize(f, End(w)), Save(f)];
    assert Works(f, w) == ps + tail;
    ViewAppend(ps, tail, v);
    PutsView(f, w, 0, |w.data|, v);
    assert w.data[0..|w.data|] == w.data;
    SizeView(f, w, v.(block := Overwrite(v.block, w.pos, w.data)));
  }

  lemma WorksOnFile(f: nat, w: Stretch)
    ensures OnFile(Works(f, w), f)
  {
  }

  lemma TwiceByte(v: View, a: Stretch, b: Stretch, o: nat)
    requires FitsBlock(a) && FitsBlock(b) && o < BLOCK_SIZE
    ensures Written(Written(v, a), b).block[o]
         == if Covers(b, o) then ByteAt(b, o) else if Covers(a, o) then ByteAt(a, o) else v.block[o]
  {
  }

  /** A harmless mixture is one of the two orders. */
  lemma HarmlessView(v: View, w: View, a: Stretch, b: Stretch)
    requires FitsBlock(a) && FitsBlock(b) && Harmless(a, b)
    requires forall o :: 0 <= o < BLOCK_SIZE ==> ByteChoice(w.block[o], v.block[o], a, b, o)
    requires (w.inode == v.inode.(size := End(a)) || w.inode == v.inode.(size := End(b))) && w.slot == w.inode
    ensures w == Written(Written(v, a), b) || w == Written(Written(v, b), a)
  {
    var ab, ba := Written(Written(v, a), b), Written(Written(v, b), a);
    hide Written, Overwrite;
    OrderViews(v, a, b);
    OrderViews(v, b, a);
    forall o | 0 <= o < BLOCK_SIZE
      ensures w.block[o] == ab.block[o] || w.block[o] == ba.block[o]
      ensures !Clash(a, b, o) ==> w.block[o] == ab.block[o] == ba.block[o]
    {
      TwiceByte(v, a, b, o);
      TwiceByte(v, b, a, o);
    }
    if o: nat :| Clash(a, b, o) {
      if w.block[o] == ab.block[o] {
        assert forall o' :: 0 <= o' < BLOCK_SIZE ==> w.block[o'] == ab.block[o'];
        assert w.block == ab.block;
      } else {
        assert forall o' :: 0 <= o' < BLOCK_SIZE ==> w.block[o'] == ba.block[o'];
        assert w.block == ba.block;
      }
    } else {
      assert w.block == ab.block && w.block == ba.block;
    }
  }

  lemma OrderViews(v: View, a: Stretch, b: Stretch)
    requires FitsBlock(a) && FitsBlock(b)
    ensures var w := Written(Written(v, a), b); w.inode == w.slot == v.inode.(size := End(b))
  {
  }

  // ---------- runs of two writes ----------

  /** A run in which the two writes are called, and nothing else, until both have returned. */
  ghost predicate TwoCalls(m: Machine, es: seq<Event>, f: nat, a: Stretch, b: Stretch)
  {
    Run(m, es) && Quiet(After(m, es)) && multiset(Started(es)) == multiset{WOp(f, a), WOp(f, b)}
  }

  /** It ends as if one write had been made after the other. */
  ghost predicate SerialOutcome(m: Machine, es: seq<Event>, f: nat, a: Stretch, b: Stretch)
  {
    && Run(m, es)
    && (After(m, es).fs == PerformAll(m.fs, [WOp(f, a), WOp(f, b)])
      || After(m, es).fs == PerformAll(m.fs, [WOp(f, b), WOp(f, a)]))
  }

  // -- its events --

  lemma {:induction false} StartsListed(es: seq<Event>, i: nat)
    requires i < |es| && !es[i].Step?
    ensures StartedAt(es[i])[0] in Started(es)
    decreases i
  {
    if i > 0 { StartsListed(es[1..], i - 1); }
  }

  lemma {:induction false} ListedStarts(es: seq<Event>, o: Op) returns (i: nat)
    requires o in Started(es)
    ensures i < |es| && !es[i].Step? && StartedAt(es[i])[0] == o
    decreases |es|
  {
    if o in StartedAt(es[0]) {
      i := 0;
    } else {
      var j := ListedStarts(es[1..], o);
      i := j + 1;
    }
  }

  /** The event starts one of the two writes, or is a step. */
  ghost predicate StartsOne(e: Event, f: nat, a: Stretch, b: Stretch)
  {
    e.Step? || (e.Start? && (OpOf(e.th) == WOp(f, a) || OpOf(e.th) == WOp(f, b)))
  }

  lemma OnlyTwo(es: seq<Event>, f: nat, a: Stretch, b: Stretch)
    requires multiset(Started(es)) == multiset{WOp(f, a), WOp(f, b)}
    ensures forall i :: 0 <= i < |es| ==> StartsOne(es[i], f, a, b)
    ensures forall o :: o in Started(es) ==> o == WOp(f, a) || o == WOp(f, b)
    ensures WOp(f, a) in Started(es) && WOp(f, b) in Started(es)
  {
    hide Started;
    BothListed(Started(es), WOp(f, a), WOp(f, b));
    forall i | 0 <= i < |es| ensures StartsOne(es[i], f, a, b) {
      if !es[i].Step? {
        StartsListed(es, i);
      }
    }
  }

  lemma BothListed(ops: seq<Op>, o: Op, o': Op)
    requires multiset(ops) == multiset{o, o'}
    ensures o in ops && o' in ops && forall x :: x in ops ==> x == o || x == o'
  {
    forall x | x in ops ensures x == o || x == o' { assert x in multiset(ops); }
    assert o in multiset(ops) && o' in multiset(ops);
  }

  lemma {:induction false} NothingElse(ops: seq<Op>)
    requires forall o :: o in ops ==> o.WriteOp?
    ensures NoWrites(ops) == []
    decreases |ops|
  {
    if ops != [] {
      assert ops[0] in ops;
      NothingElse(ops[1..]);
    }
  }

  // -- its accesses --

  function PrimsOf(acts: seq<Action>): seq<Prim>
  {
    if acts == [] then [] else (if acts[0].Access? then [acts[0].p] else []) + PrimsOf(acts[1..])
  }

  lemma {:induction false} OnlyAccesses(fs: Fs, acts: seq<Action>)
    requires Wholes(acts) == []
    ensures ActAll(fs, acts) == DoAll(fs, PrimsOf(acts))
    decreases |acts|
  {
    hide Do;
    if acts != [] {
      OnlyAccesses(Do(fs, acts[0].p), acts[1..]);
      assert PrimsOf(acts)[1..] == PrimsOf(acts[1..]);
    }
  }

  lemma {:induction false} ThreadsPrims(acts: seq<Action>, t: nat, p: Prim)
    requires p in OfThread(acts, t)
    ensures p in PrimsOf(acts)
    decreases |acts|
  {
    if p in OfThread(acts[1..], t) { ThreadsPrims(acts[1..], t, p); }
  }

  lemma {:induction false} PrimsThread(acts: seq<Action>, p: Prim, n: nat) returns (t: nat)
    requires p in PrimsOf(acts) && forall k :: 0 <= k < |acts| && acts[k].Access? ==> acts[k].t < n
    ensures t < n && p in OfThread(acts, t)
    decreases |acts|
  {
    if acts[0].Access? && acts[0].p == p {
      t := acts[0].t;
    } else {
      t := PrimsThread(acts[1..], p, n);
    }
  }

  lemma {:induction false} TagsBelow(m: Machine, es: seq<Event>)
    requires Run(m, es)
    ensures |After(m, es).threads| == |m.threads|
    ensures forall k :: 0 <= k < |Actions(m, es)| && Actions(m, es)[k].Access? ==> Actions(m, es)[k].t < |m.threads|
    decreases |es|
  {
    if es != [] {
      SameThreads(m, es[0]);
      TagHere(m, es[0]);
      hide Apply, ActionsAt, Allowed;
      TagsBelow(Apply(m, es[0]), es[1..]);
    }
  }

  lemma TagHere(m: Machine, e: Event)
    requires Allowed(m, e)
    ensures forall k :: 0 <= k < |ActionsAt(m, e)| && ActionsAt(m, e)[k].Access? ==> ActionsAt(m, e)[k].t < |m.threads|
  {
    hide Head, WritePc, CheckError;
  }

  lemma {:induction false} WritesListed(es: seq<Event>, i: nat, p: Prim)
    requires i < |es| && p in WriteStartedAt(es[i], if es[i].Start? then es[i].t else 0)
    ensures es[i].Start? && p in StartedWrites(es, es[i].t)
    decreases i
  {
    hide WriteWork;
    if i > 0 { WritesListed(es[1..], i - 1, p); }
  }

  lemma {:induction false} ListedWrites(es: seq<Event>, t: nat, p: Prim) returns (i: nat)
    requires p in StartedWrites(es, t)
    ensures i < |es| && p in WriteStartedAt(es[i], t)
    decreases |es|
  {
    hide WriteStartedAt;
    if p in WriteStartedAt(es[0], t) {
      i := 0;
    } else {
      var j := ListedWrites(es[1..], t, p);
      i := j + 1;
    }
  }

  /** An event of the run that starts a write starts it as the kernel may: at the beginning of its copy. */
  lemma CallsBegin(m: Machine, es: seq<Event>, i: nat)
    requires Run(m, es) && i < |es| && es[i].Start?
    ensures es[i].th.pc in {WCopy, CWantD} && es[i].th.done == 0 && es[i].t < |m.threads|
  {
    Moment(m, es, i);
    TagsBelow(m, es[..i]);
  }

  lemma OpTells(th: Thread, f: nat, w: Stretch)
    requires OpOf(th) == WOp(f, w)
    ensures WritePc(th.pc) && th.no == f && th.pos == w.pos && th.data == w.data
  {
  }

  lemma StartedOne(m: Machine, es: seq<Event>, f: nat, a: Stretch, b: Stretch, i: nat, p: Prim)
    requires Run(m, es) && i < |es| && es[i].Start? && StartsOne(es[i], f, a, b)
    ensures p in WriteStartedAt(es[i], es[i].t) ==> p in Works(f, a) || p in Works(f, b)
    ensures OpOf(es[i].th) == WOp(f, a) ==> WriteStartedAt(es[i], es[i].t) == Works(f, a)
    ensures OpOf(es[i].th) == WOp(f, b) ==> WriteStartedAt(es[i], es[i].t) == Works(f, b)
  {
    CallsBegin(m, es, i);
    hide OpOf, WriteWork, Run;
    if OpOf(es[i].th) == WOp(f, a) { OpTells(es[i].th, f, a); }
    if OpOf(es[i].th) == WOp(f, b) { OpTells(es[i].th, f, b); }
    WriteBegins(es[i].th);
  }

  lemma WriteBegins(th: Thread)
    ensures th.pc in {WCopy, CWantD} ==> (WritePc(th.pc) <==> th.pc == WCopy)
  {
  }

  /** Every access of either write is made. */
  lemma MadeOf(m: Machine, es: seq<Event>, f: nat, a: Stretch, b: Stretch, w: Stretch, p: Prim)
    requires Run(m, es) && (forall i :: 0 <= i < |es| ==> StartsOne(es[i], f, a, b)) && (w == a || w == b)
    requires WOp(f, w) in Started(es) && p in Works(f, w)
    requires forall t :: 0 <= t < |m.threads| ==> OfThread(Actions(m, es), t) == StartedWrites(es, t)
    ensures p in PrimsOf(Actions(m, es))
  {
    hide Run, Actions, OfThread, StartedWrites, WriteWork, PrimsOf, Started, OpOf, WriteStartedAt, Works;
    var i := ListedStarts(es, WOp(f, w));
    assert StartsOne(es[i], f, a, b);
    StartedOne(m, es, f, a, b, i, p);
    CallsBegin(m, es, i);
    WritesListed(es, i, p);
    ThreadsPrims(Actions(m, es), es[i].t, p);
  }

  /** No access of anything else is. */
  lemma MadeOnlyOf(m: Machine, es: seq<Event>, f: nat, a: Stretch, b: Stretch, p: Prim)
    requires Run(m, es) && (forall i :: 0 <= i < |es| ==> StartsOne(es[i], f, a, b)) && p in PrimsOf(Actions(m, es))
    requires forall t :: 0 <= t < |m.threads| ==> OfThread(Actions(m, es), t) == StartedWrites(es, t)
    ensures p in Works(f, a) || p in Works(f, b)
  {
    hide Run, Actions, OfThread, StartedWrites, WriteWork, PrimsOf, OpOf, Works;
    TagsBelow(m, es);
    var t := PrimsThread(Actions(m, es), p, |m.threads|);
    var i := ListedWrites(es, t, p);
    StartedOne(m, es, f, a, b, i, p);
  }

  lemma MixesHere(m: Machine, es: seq<Event>, f: nat, a: Stretch, b: Stretch) returns (ps: seq<Prim>)
    requires Initial(m) && TwoCalls(m, es, f, a, b) && !After(m, es).fs.fault
    ensures Mixes(ps, f, a, b) && After(m, es).fs == DoAll(m.fs, ps)
  {
    hide WellFormed, Run, After, Actions, OfThread, StartedWrites, Works, PrimsOf, Started, StartsOne, DoAll, Wholes,
      NoWrites, NamedAll, ActAll;
    OnlyTwo(es, f, a, b);
    CreatesAreAtomic(m, es);
    NothingElse(Started(es));
    NoNames();
    assert multiset(NamedAll(Wholes(Actions(m, es)))) == multiset{};
    NoNamed(Wholes(Actions(m, es)));
    OnlyAccesses(m.fs, Actions(m, es));
    ps := PrimsOf(Actions(m, es));
    forall p ensures p in ps <==> p in Works(f, a) || p in Works(f, b) {
      if p in ps { MadeOnlyOf(m, es, f, a, b, p); }
      if p in Works(f, a) { MadeOf(m, es, f, a, b, a, p); }
      if p in Works(f, b) { MadeOf(m, es, f, a, b, b, p); }
    }
  }

  lemma NoNames()
    ensures NamedAll([]) == []
  {
  }

  lemma NoNamed(ops: seq<Op>)
    requires multiset(NamedAll(ops)) == multiset{}
    ensures ops == []
  {
    assert |multiset(NamedAll(ops))| == |ops|;
  }

  // -- it stays in its block --

  predicate Fitting(th: Thread)
  {
    th.pc == Idle || (WritePc(th.pc) && th.pos + |th.data| <= BLOCK_SIZE)
  }

  lemma FittingStep(fs: Fs, th: Thread, noMem: bool)
    requires Fitting(th)
    ensures Fitting(Next(fs, th, noMem)) && !Unchecked(fs, th)
  {
  }

  lemma {:induction false} FittingRun(m: Machine, es: seq<Event>)
    requires Inv(m) && !m.fs.fault && Run(m, es) && (forall t :: 0 <= t < |m.threads| ==> Fitting(m.threads[t]))
    requires forall i :: 0 <= i < |es| && es[i].Start? ==> Fitting(es[i].th)
    ensures !After(m, es).fs.fault
    decreases |es|
  {
    hide Inv, Fitting, Unchecked, Next;
    if es != [] {
      var m1 := Apply(m, es[0]);
      EventInv(m, es[0]);
      SameThreads(m, es[0]);
      if es[0].Step? {
        FittingStep(m.fs, m.threads[es[0].t], es[0].noMem);
        FaultIffUnchecked(m, es[0].t, es[0].noMem);
      } else {
        LoadsNoFault(m, es[0]);
      }
      hide Apply, Allowed;
      FittingRun(m1, es[1..]);
    }
  }

  lemma IdleFits(th: Thread)
    requires th.pc == Idle
    ensures Fitting(th)
  {
  }

  lemma TwoFit(m: Machine, es: seq<Event>, f: nat, a: Stretch, b: Stretch)
    requires Initial(m) && TwoCalls(m, es, f, a, b) && FitsBlock(a) && FitsBlock(b)
    ensures !After(m, es).fs.fault
  {
    Unfaulted(m.fs);
    InitialInv(m);
    hide WellFormed, Run, After, Started, Inv, OpOf, Fitting;
    OnlyTwo(es, f, a, b);
    forall i | 0 <= i < |es| && es[i].Start? ensures Fitting(es[i].th) {
      assert StartsOne(es[i], f, a, b);
      FitsIn(es[i].th, f, a);
      FitsIn(es[i].th, f, b);
    }
    forall t | 0 <= t < |m.threads| ensures Fitting(m.threads[t]) { IdleFits(m.threads[t]); }
    FittingRun(m, es);
  }

  lemma FitsIn(th: Thread, f: nat, w: Stretch)
    requires FitsBlock(w)
    ensures OpOf(th) == WOp(f, w) ==> Fitting(th)
  {
  }

  lemma Unfaulted(fs: Fs)
    requires WellFormed(fs)
    ensures !fs.fault
  {
  }

  // ---------- harmless writes ----------

  ghost predicate OpenFor(fs: Fs, f: nat)
  {
    WellFormed(fs) && f in fs.core && IsReg(fs.core[f].mode)
  }

  lemma FileFacts(fs: Fs, f: nat)
    requires OpenFor(fs, f)
    ensures Sane(fs) && Anchored(fs, f) && !fs.fault && fs.table[SlotOf(fs, f)] == fs.core[f]
  {
    hide Flat, CoreOk;
    Basics(fs, {}, {}, {});
    SaneNow(fs, {}, {});
    Anchors(fs, f);
    SlotFacts(fs, f);
  }

  lemma SlotFacts(fs: Fs, f: nat)
    requires Flat(fs, {}) && CoreOk(fs, {}) && f in fs.core
    ensures fs.count <= |fs.table| && SlotOf(fs, f) < fs.count && fs.table[SlotOf(fs, f)] == fs.core[f]
  {
    assert CoreEntryOk(fs, f, {});
  }

  lemma WriteIsPut(fs: Fs, f: nat, w: Stretch)
    requires OpenFor(fs, f) && FitsBlock(w)
    ensures Anchored(fs, f) && WriteResult(fs, f, w.pos, w.data) == Put(fs, f, Written(Look(fs, f), w), false)
    ensures OpenFor(WriteResult(fs, f, w.pos, w.data), f)
  {
    FileFacts(fs, f);
    WriteKeepsWellFormed(fs, f, w.pos, w.data);
    hide WellFormed, Sane, WriteResult, DoAll, Works, Look, Written, ViewAfter, BadAfter, SlotOf;
    WorksOnFile(f, w);
    DoWrite(fs, f, w.pos, w.data);
    assert DoAll(fs, Works(f, w)) == WriteResult(fs, f, w.pos, w.data) by { WorksAre(f, w); }
    OnlyTheFile(fs, f, Works(f, w));
    WorkView(f, w, Look(fs, f));
    Unfaulted(WriteResult(fs, f, w.pos, w.data));
    WrittenMode(Look(fs, f), w);
    Looks(fs, f);
  }

  lemma WorksAre(f: nat, w: Stretch)
    ensures Works(f, w) == WriteWork(f, w.pos, w.data)
  {
  }

  lemma WrittenMode(v: View, w: Stretch)
    requires FitsBlock(w)
    ensures Written(v, w).inode.mode == v.inode.mode
  {
  }

  lemma Looks(fs: Fs, f: nat)
    requires Anchored(fs, f)
    ensures Look(fs, f).inode == fs.core[f] && Look(fs, f).slot == fs.table[SlotOf(fs, f)]
  {
  }

  lemma SerialIsPut(fs: Fs, f: nat, a: Stretch, b: Stretch)
    requires OpenFor(fs, f) && FitsBlock(a) && FitsBlock(b)
    ensures Anchored(fs, f)
    ensures PerformAll(fs, [WOp(f, a), WOp(f, b)]) == Put(fs, f, Written(Written(Look(fs, f), a), b), false)
  {
    FileFacts(fs, f);
    var fs1 := WriteResult(fs, f, a.pos, a.data);
    var ops := [WOp(f, a), WOp(f, b)];
    assert ops[1..] == [WOp(f, b)];
    assert PerformAll(fs, ops) == WriteResult(fs1, f, b.pos, b.data) by {
      assert PerformAll(fs, ops) == PerformAll(fs1, [WOp(f, b)]);
      assert PerformAll(fs1, [WOp(f, b)]) == Perform(fs1, WOp(f, b));
    }
    hide WellFormed, OpenFor, Sane, WriteResult, Put, Look, Written, SlotOf, PerformAll, Fits;
    WriteIsPut(fs, f, a);
    WriteIsPut(fs1, f, b);
    FitsWritten(fs, f, a);
    PutTwice(fs, f, Written(Look(fs, f), a), false, Written(Written(Look(fs, f), a), b), false);
  }

  lemma FitsWritten(fs: Fs, f: nat, w: Stretch)
    requires Anchored(fs, f) && FitsBlock(w)
    ensures Fits(fs, f, Written(Look(fs, f), w))
  {
  }

  /** Writes that are harmless together end in a serial state, however they are interleaved. */
  lemma HarmlessIsSerial(m: Machine, es: seq<Event>, f: nat, a: Stretch, b: Stretch)
    requires Initial(m) && OpenFor(m.fs, f) && FitsBlock(a) && FitsBlock(b) && Harmless(a, b)
      && TwoCalls(m, es, f, a, b)
    ensures SerialOutcome(m, es, f, a, b)
  {
    TwoFit(m, es, f, a, b);
    QuietIsWellFormed(m, es);
    FileFacts(m.fs, f);
    var fs, fs' := m.fs, After(m, es).fs;
    hide WellFormed, Run, After, Mixes, DoAll, Sane, Put, Look, Written, ViewAfter, BadAfter, SlotOf, PerformAll,
      Harmless, OnFile, TwoCalls, ByteChoice;
    var ps := MixesHere(m, es, f, a, b);
    MixOnFile(ps, f, a, b);
    OnlyTheFile(fs, f, ps);
    var v := Look(fs, f);
    var w := ViewAfter(ps, v);
    forall o | 0 <= o < BLOCK_SIZE ensures ByteChoice(w.block[o], v.block[o], a, b, o) { MixedByte(ps, f, a, b, v, o); }
    MixedSize(ps, f, a, b, v);
    Settles(fs, f, w, BadAfter(ps, v));
    HarmlessView(v, w, a, b);
    SerialIsPut(fs, f, a, b);
    SerialIsPut(fs, f, b, a);
  }

  /** A change of one file that leaves the image well-formed has been saved, and was not bad. */
  lemma Settles(fs: Fs, f: nat, w: View, bad: bool)
    requires OpenFor(fs, f) && Anchored(fs, f) && w.inode == Look(fs, f).inode.(size := w.inode.size)
      && WellFormed(Put(fs, f, w, bad))
    ensures w.slot == w.inode && Put(fs, f, w, bad) == Put(fs, f, w, false)
  {
    hide WellFormed, SlotFrom;
    SavedSlot(fs, Put(fs, f, w, bad), f);
  }

  lemma SavedSlot(fs: Fs, fs': Fs, f: nat)
    requires WellFormed(fs) && WellFormed(fs') && f in fs.core && f in fs'.core
    requires fs.count <= |fs.table| && fs'.count == fs.count && |fs'.table| == |fs.table|
    requires fs'.core[f].no == fs.core[f].no
    requires forall k :: 0 <= k < fs.count && k != SlotOf(fs, f) ==> fs'.table[k] == fs.table[k]
    ensures SlotOf(fs, f) < fs.count && fs'.table[SlotOf(fs, f)] == fs'.core[f] && !fs'.fault
  {
    hide Flat, CoreOk, SlotFrom;
    Basics(fs', {}, {}, {});
    Basics(fs, {}, {}, {});
    SlotFacts(fs', f);
    SlotFacts(fs, f);
    SlotOfSaved(fs, fs', f);
  }

  /** The numbers of well-formed tables are distinct, so a slot that holds one holds it alone. */
  lemma SlotOfSaved(fs: Fs, fs': Fs, f: nat)
    requires Flat(fs, {}) && Flat(fs', {}) && CoreOk(fs, {}) && CoreOk(fs', {}) && f in fs.core && f in fs'.core
    requires fs'.count == fs.count && fs'.core[f].no == fs.core[f].no
    requires forall k :: 0 <= k < fs.count && k != SlotOf(fs, f) ==> fs'.table[k] == fs.table[k]
    ensures SlotOf(fs', f) == SlotOf(fs, f)
  {
    assert CoreEntryOk(fs, f, {}) && CoreEntryOk(fs', f, {});
    assert fs'.table[SlotOf(fs', f)].no == f == fs.table[SlotOf(fs, f)].no;
  }

  // ---------- an interleaving for each of the others ----------

  function Writer(f: nat, w: Stretch, done: nat): Thread
  {
    Thread(WCopy, f, [], Mode(0, 0), 0, Inode(Mode(0, 0), 0, 0, 0), w.pos, w.data, done, 0)
  }

  lemma {:induction false} RunAppend(m: Machine, a: seq<Event>, b: seq<Event>)
    requires Run(m, a) && Run(After(m, a), b)
    ensures Run(m, a + b) && After(m, a + b) == After(After(m, a), b)
    decreases |a|
  {
    hide Apply;
    if a == [] {
      assert a + b == b;
    } else {
      RunAppend(Apply(m, a[0]), a[1..], b);
      assert (a + b)[1..] == a[1..] + b;
    }
  }

  lemma {:induction false} StartedAppend(a: seq<Event>, b: seq<Event>)
    ensures Started(a + b) == Started(a) + Started(b)
    decreases |a|
  {
    if a == [] {
      assert a + b == b;
    } else {
      assert (a + b)[1..] == a[1..] + b;
      StartedAppend(a[1..], b);
    }
  }

  lemma {:induction false} StepsStartNothing(es: seq<Event>)
    requires OnlySteps(es)
    ensures Started(es) == []
    decreases |es|
  {
    if es != [] { StepsStartNothing(es[1..]); }
  }

  lemma CopyOne(m: Machine, t: nat, f: nat, w: Stretch, d: nat)
    requires t < |m.threads| && m.threads[t] == Writer(f, w, d) && d < |w.data|
    ensures CanStep(m, t)
    ensures Apply(m, Step(t, false))
         == Machine(Do(m.fs, PutByte(f, w.pos + d, w.data[d])), m.owner, m.threads[t := Writer(f, w, d + 1)])
  {
  }

  /** A writer copies on for a while. */
  lemma {:induction false} CopySome(m: Machine, t: nat, f: nat, w: Stretch, d: nat, k: nat) returns (es: seq<Event>)
    requires t < |m.threads| && m.threads[t] == Writer(f, w, d) && d <= k <= |w.data|
    ensures Run(m, es) && OnlySteps(es)
    ensures After(m, es)
      == Machine(DoAll(m.fs, PutBytes(f, w.pos, w.data, d, k)), m.owner, m.threads[t := Writer(f, w, k)])
    decreases k - d
  {
    hide Do, Apply, CanStep, Writer;
    if d == k {
      es := [];
      assert PutBytes(f, w.pos, w.data, d, k) == [] && m.threads[t := m.threads[t]] == m.threads;
    } else {
      CopyOne(m, t, f, w, d);
      var e := Step(t, false);
      var m1 := Apply(m, e);
      var rest := CopySome(m1, t, f, w, d + 1, k);
      es := [e] + rest;
      assert es[1..] == rest;
      assert PutBytes(f, w.pos, w.data, d, k)[1..] == PutBytes(f, w.pos, w.data, d + 1, k);
      assert m.threads[t := Writer(f, w, d + 1)][t := Writer(f, w, k)] == m.threads[t := Writer(f, w, k)];
    }
  }

  /** The accesses when the first `k` bytes of `b` come before all of `a`, and the rest of `b` after it. */
  function Split(f: nat, a: Stretch, b: Stretch, k: nat): seq<Prim>
  {
    PutBytes(f, b.pos, b.data, 0, k) + (Works(f, a) + (PutBytes(f, b.pos, b.data, k, |b.data|) + [Resize(f, End(b)), Save(f)]))
  }

  lemma RestOf(fs: Fs, f: nat, w: Stretch, k: nat)
    requires k <= |w.data|
    ensures Finish(fs, Writer(f, w, k), false).0
      == DoAll(fs, PutBytes(f, w.pos, w.data, k, |w.data|) + [Resize(f, End(w)), Save(f)])
  {
    hide Finish, SetFileSize, SaveInode, CopyAll, PutBytes;
    var th := Writer(f, w, k);
    FinishFrom(fs, th, false);
    var ps, tail := PutBytes(f, w.pos, w.data, k, |w.data|), [Resize(f, End(w)), Save(f)];
    DoAllAppend(fs, ps, tail);
    DoBytes(fs, f, w.pos, w.data, k);
    var fs1 := CopyAll(fs, f, w.pos, w.data, k);
    var fs2 := SetFileSize(fs1, f, End(w));
    assert tail[1..] == [Save(f)];
    assert DoAll(fs1, tail) == DoAll(fs2, [Save(f)]);
    assert DoAll(fs2, [Save(f)]) == SaveInode(fs2, f);
  }

  lemma StartOne(m: Machine, t: nat, f: nat, w: Stretch)
    requires t < |m.threads| && m.threads[t].pc == Idle && f in m.fs.core && IsReg(m.fs.core[f].mode)
    ensures Allowed(m, Start(t, Writer(f, w, 0))) && Run(m, [Start(t, Writer(f, w, 0))])
    ensures After(m, [Start(t, Writer(f, w, 0))]) == Machine(m.fs, m.owner, m.threads[t := Writer(f, w, 0)])
    ensures Started([Start(t, Writer(f, w, 0))]) == [WOp(f, w)]
  {
    var es := [Start(t, Writer(f, w, 0))];
    assert es[1..] == [];
    assert Started(es) == StartedAt(es[0]) + [];
  }

  lemma PutsKeepCore(fs: Fs, f: nat, w: Stretch, lo: nat, hi: nat)
    ensures DoAll(fs, PutBytes(f, w.pos, w.data, lo, hi)).core == fs.core
  {
    FsSerial.PutsOnlyData(fs, PutBytes(f, w.pos, w.data, lo, hi));
  }

  lemma NoLocks(th: Thread, l: Lock)
    requires th.pc == Idle || th.pc == WCopy
    ensures !Holds(th.pc, l)
  {
  }

  lemma WholeOf(fs: Fs, f: nat, w: Stretch)
    ensures Finish(fs, Writer(f, w, 0), false).0 == DoAll(fs, Works(f, w))
  {
    RestOf(fs, f, w, 0);
  }

  /** The first part: `b` starts and copies `k` bytes, then `a` is called. */
  lemma FirstPart(m: Machine, f: nat, a: Stretch, b: Stretch, k: nat) returns (es: seq<Event>)
    requires |m.threads| >= 2 && m.threads[0].pc == Idle && m.threads[1].pc == Idle && f in m.fs.core
      && IsReg(m.fs.core[f].mode) && k <= |b.data|
    ensures Run(m, es) && Started(es) == [WOp(f, b), WOp(f, a)]
    ensures After(m, es)
         == Machine(DoAll(m.fs, PutBytes(f, b.pos, b.data, 0, k)), m.owner, m.threads[1 := Writer(f, b, k)][0 := Writer(f, a, 0)])
  {
    hide Run, After, Started, Writer, DoAll, PutBytes, WOp;
    StartOne(m, 1, f, b);
    var e1 := [Start(1, Writer(f, b, 0))];
    var m1 := After(m, e1);
    var e2 := CopySome(m1, 1, f, b, 0, k);
    var m2 := After(m1, e2);
    assert m1.threads[1 := Writer(f, b, k)] == m.threads[1 := Writer(f, b, k)];
    PutsKeepCore(m.fs, f, b, 0, k);
    StartOne(m2, 0, f, a);
    var e3 := [Start(0, Writer(f, a, 0))];
    RunAppend(m, e1, e2);
    RunAppend(m, e1 + e2, e3);
    StartedAppend(e1, e2);
    StartedAppend(e1 + e2, e3);
    StepsStartNothing(e2);
    es := e1 + e2 + e3;
  }

  /** The second part: `a` runs to its end, then `b`. */
  lemma SecondPart(m: Machine, f: nat, a: Stretch, b: Stretch, k: nat) returns (es: seq<Event>)
    requires LocksOk(m) && |m.threads| >= 2 && m.threads[0] == Writer(f, a, 0) && m.threads[1] == Writer(f, b, k)
      && k <= |b.data|
    requires forall t :: 2 <= t < |m.threads| ==> m.threads[t].pc == Idle
    ensures Run(m, es) && OnlySteps(es) && Quiet(After(m, es))
    ensures After(m, es).fs
      == DoAll(DoAll(m.fs, Works(f, a)), PutBytes(f, b.pos, b.data, k, |b.data|) + [Resize(f, End(b)), Save(f)])
  {
    assert Writer(f, a, 0).pc == WCopy && Writer(f, b, k).pc == WCopy;
    hide Run, After, Writer, DoAll, PutBytes, Works, Finish, Holds, LocksOk;
    forall u, l | 0 <= u < |m.threads| && u != 0 ensures !Holds(m.threads[u].pc, l) { NoLocks(m.threads[u], l); }
    var x := Alone(m, 0, false);
    var m1 := After(m, x);
    FinishIdle(m.fs, m.threads[0], false);
    forall u, l | 0 <= u < |m1.threads| && u != 1 ensures !Holds(m1.threads[u].pc, l) { NoLocks(m1.threads[u], l); }
    LocksAlong(m, x);
    var y := Alone(m1, 1, false);
    FinishIdle(m1.fs, m1.threads[1], false);
    RunAppend(m, x, y);
    WholeOf(m.fs, f, a);
    RestOf(m1.fs, f, b, k);
    es := x + y;
  }

  lemma {:induction false} LocksAlong(m: Machine, es: seq<Event>)
    requires LocksOk(m) && Run(m, es)
    ensures LocksOk(After(m, es))
    decreases |es|
  {
    hide LocksOk, Apply, Allowed;
    if es != [] {
      LocksKept(m, es[0]);
      LocksAlong(Apply(m, es[0]), es[1..]);
    }
  }

  /** The two parts are a run of the two writes that makes the accesses in the split order. */
  lemma SplitRun(m: Machine, f: nat, a: Stretch, b: Stretch, k: nat) returns (es: seq<Event>)
    requires Initial(m) && |m.threads| >= 2 && f in m.fs.core && IsReg(m.fs.core[f].mode) && k <= |b.data|
    ensures TwoCalls(m, es, f, a, b) && After(m, es).fs == DoAll(m.fs, Split(f, a, b, k))
  {
    hide WellFormed, Run, After, Started, Writer, DoAll, PutBytes, Works, WOp, LocksOk;
    InitialLocks(m);
    var x := FirstPart(m, f, a, b, k);
    var m1 := After(m, x);
    LocksAlong(m, x);
    var y := SecondPart(m1, f, a, b, k);
    RunAppend(m, x, y);
    StartedAppend(x, y);
    StepsStartNothing(y);
    es := x + y;
    var ps, qs := PutBytes(f, b.pos, b.data, 0, k), PutBytes(f, b.pos, b.data, k, |b.data|) + [Resize(f, End(b)),
      Save(f)];
    DoAllAppend(m.fs, ps, Works(f, a) + qs);
    DoAllAppend(m1.fs, Works(f, a), qs);
  }

  // -- what the split order leaves --

  lemma SplitOnFile(f: nat, a: Stretch, b: Stretch, k: nat)
    ensures OnFile(Split(f, a, b, k), f)
  {
    WorksOnFile(f, a);
  }

  /**
   * The file after the split order: of `b`, only what was copied after `a` prevails over it; the size is that of `b`.
   */
  lemma SplitView(f: nat, a: Stretch, b: Stretch, k: nat, v: View, o: nat)
    requires FitsBlock(a) && FitsBlock(b) && k <= |b.data| && o < BLOCK_SIZE && OnFile(Split(f, a, b, k), f)
    ensures ViewAfter(Split(f, a, b, k), v).inode.size == End(b)
    ensures ViewAfter(Split(f, a, b, k), v).block[o]
         == if Covers(b, o) && o >= b.pos + k then ByteAt(b, o)
            else if Covers(a, o) then ByteAt(a, o)
            else if Covers(b, o) then ByteAt(b, o) else v.block[o]
  {
    var ps, qs, tail := PutBytes(f, b.pos, b.data, 0, k), PutBytes(f, b.pos, b.data, k, |b.data|), [Resize(f, End(b)),
      Save(f)];
    WorksOnFile(f, a);
    var v1 := ViewAfter(ps, v);
    var v2 := ViewAfter(Works(f, a), v1);
    var v3 := ViewAfter(qs, v2);
    hide ViewAfter, PutBytes, Works;
    ViewAppend(ps, Works(f, a) + (qs + tail), v);
    ViewAppend(Works(f, a), qs + tail, v1);
    ViewAppend(qs, tail, v2);
    PutsView(f, b, 0, k, v);
    WorkView(f, a, v1);
    PutsView(f, b, k, |b.data|, v2);
    SizeView(f, b, v3);
    SplitByte(v, a, b, k, o);
  }

  lemma SplitByte(v: View, a: Stretch, b: Stretch, k: nat, o: nat)
    requires FitsBlock(a) && FitsBlock(b) && k <= |b.data| && o < BLOCK_SIZE
    ensures var w := Overwrite(Overwrite(Overwrite(v.block, b.pos, b.data[0..k]), a.pos, a.data), b.pos + k, b.data[k..|b.data|]);
      w[o] == if Covers(b, o) && o >= b.pos + k then ByteAt(b, o)
              else if Covers(a, o) then ByteAt(a, o)
              else if Covers(b, o) then ByteAt(b, o) else v.block[o]
  {
  }

  lemma PutsTell(fs: Fs, f: nat, v: View, w: View, bad: bool, worse: bool)
    requires Anchored(fs, f) && Put(fs, f, v, bad) == Put(fs, f, w, worse)
    ensures v.inode == w.inode && v.block == w.block
  {
    assert Put(fs, f, v, bad).core[f] == v.inode && Put(fs, f, w, worse).core[f] == w.inode;
    assert Put(fs, f, v, bad).blocks[fs.core[f].block] == v.block
      && Put(fs, f, w, worse).blocks[fs.core[f].block] == w.block;
  }

  /** The split order is neither of the serial ones when it differs from both. */
  lemma SplitIsNotSerial(m: Machine, f: nat, a: Stretch, b: Stretch, k: nat, o: nat, o': nat) returns (es: seq<Event>)
    requires Initial(m) && |m.threads| >= 2 && OpenFor(m.fs, f) && FitsBlock(a) && FitsBlock(b) && k <= |b.data|
    requires Clash(a, b, o) && o < b.pos + k && (End(a) != End(b) || (Clash(a, b, o') && o' >= b.pos + k))
    ensures TwoCalls(m, es, f, a, b) && !SerialOutcome(m, es, f, a, b)
  {
    es := SplitRun(m, f, a, b, k);
    FileFacts(m.fs, f);
    SplitOnFile(f, a, b, k);
    hide WellFormed, Run, After, DoAll, Sane, Put, Look, Written, ViewAfter, BadAfter, SlotOf, PerformAll, Split,
      OnFile, Anchored;
    var fs, v := m.fs, Look(m.fs, f);
    OnlyTheFile(fs, f, Split(f, a, b, k));
    var w, bad := ViewAfter(Split(f, a, b, k), v), BadAfter(Split(f, a, b, k), v);
    SerialIsPut(fs, f, a, b);
    SerialIsPut(fs, f, b, a);
    SplitView(f, a, b, k, v, o);
    TwiceByte(v, a, b, o);
    OrderViews(v, b, a);
    if Clash(a, b, o') && o' >= b.pos + k {
      SplitView(f, a, b, k, v, o');
      TwiceByte(v, b, a, o');
    }
    if After(m, es).fs == PerformAll(fs, [WOp(f, a), WOp(f, b)]) {
      PutsTell(fs, f, w, Written(Written(v, a), b), bad, false);
    }
    if After(m, es).fs == PerformAll(fs, [WOp(f, b), WOp(f, a)]) {
      PutsTell(fs, f, w, Written(Written(v, b), a), bad, false);
    }
  }

  /** Writes that are not harmless together have an interleaving that is not serial. */
  lemma HarmfulMix(m: Machine, f: nat, a: Stretch, b: Stretch) returns (es: seq<Event>)
    requires Initial(m) && |m.threads| >= 2 && OpenFor(m.fs, f) && FitsBlock(a) && FitsBlock(b) && !Harmless(a, b)
    ensures TwoCalls(m, es, f, a, b) && !SerialOutcome(m, es, f, a, b)
  {
    hide TwoCalls, SerialOutcome, Initial, OpenFor;
    var o: nat :| Clash(a, b, o);
    if End(a) != End(b) {
      es := SplitIsNotSerial(m, f, a, b, |b.data|, o, o);
    } else {
      var x: nat, y: nat :| Clash(a, b, x) && Clash(a, b, y) && x != y;
      var lo, hi := if x < y then x else y, if x < y then y else x;
      es := SplitIsNotSerial(m, f, a, b, lo - b.pos + 1, lo, hi);
    }
  }

  /**
   * Two writes on one file end as if one had been made after the other, in every run in which just these two are
   * called, if and only if they clash nowhere, or clash in one place only and end at the same offset.
   */
  lemma TwoWritesSerialIff(m: Machine, f: nat, a: Stretch, b: Stretch)
    requires Initial(m) && |m.threads| >= 2 && f in m.fs.core && IsReg(m.fs.core[f].mode)
    requires a.pos + |a.data| <= 4096 && b.pos + |b.data| <= 4096
    ensures (forall es :: TwoCalls(m, es, f, a, b) ==> SerialOutcome(m, es, f, a, b)) <==> Harmless(a, b)
  {
    hide TwoCalls, SerialOutcome, WellFormed, Harmless;
    if Harmless(a, b) {
      forall es | TwoCalls(m, es, f, a, b) ensures SerialOutcome(m, es, f, a, b) {
        HarmlessIsSerial(m, es, f, a, b);
      }
    } else {
      var es := HarmfulMix(m, f, a, b);
    }
  }

  /** Two writes of the same two offsets with different bytes can end in a state that neither order produces. */
  lemma OverlappingWritesMix(m: Machine, f: nat) returns (es: seq<Event>)
    requires Initial(m) && |m.threads| >= 2 && OpenFor(m.fs, f)
    ensures TwoCalls(m, es, f, Stretch(0, [1, 1]), Stretch(0, [2, 2]))
      && !SerialOutcome(m, es, f, Stretch(0, [1, 1]), Stretch(0, [2, 2]))
  {
    hide TwoCalls, SerialOutcome, Initial, OpenFor;
    var a, b := Stretch(0, [1, 1]), Stretch(0, [2, 2]);
    assert Clash(a, b, 0) && Clash(a, b, 1);
    es := HarmfulMix(m, f, a, b);
  }
}
