/** Lookup and iterate take no lock: what they return while creates go on around them. */
module FsLookup {
  import opened Wrappers
  import opened Layout
  import opened FsState
  import opened FsInvariant
  import opened FsMachine
  import opened FsSafety
  import opened FsNamespace
  import opened FsEffects

  // ---------- a directory in a reachable state ----------

  ghost predicate OpenDir(m: Machine, dir: nat)
  {
    Inv(m) && !m.fs.fault && dir in m.fs.core && IsDir(m.fs.core[dir].mode)
  }

  /** Whose unsaved size a directory has: that of a create which has counted its record. */
  lemma Unsaved(m: Machine, dir: nat)
    requires OpenDir(m, dir) && dir in Dirty(m)
    ensures exists c :: GainedRecord(m.fs, dir, c)
  {
    hide Consistent, GainedRecord;
    var th := m.threads[m.owner[InodesLock]];
    assert ThreadOk(m.fs, th);
    assert GainedRecord(m.fs, dir, th.count);
  }

  /** The records a directory counts in core, even while a create is under way: each names an inode that has a slot. */
  lemma RecordsResolveNow(m: Machine, dir: nat)
    requires OpenDir(m, dir)
    ensures dir in m.fs.core && m.fs.core[dir].size <= RECORDS_PER_BLOCK && m.fs.core[dir].block < |m.fs.blocks|
    ensures Entries(m.fs, dir) == EntriesIn(m.fs.blocks[m.fs.core[dir].block], m.fs.core[dir].size)
    ensures m.fs.count <= |m.fs.table| && DirAt(m.fs, dir)
    ensures forall j :: 0 <= j < m.fs.core[dir].size ==>
      SlotOf(m.fs, RecordAt(m.fs.blocks[m.fs.core[dir].block], j).no) < m.fs.count
  {
    hide Inv, TreeOk, RecordAt, EntriesIn, SlotFrom, Flat, CoreOk, GainedRecord;
    TreeNow(m);
    DirInCore(m, dir);
    DirSlot(m.fs, dir, Limbo(m), Dirty(m));
    SlotResolves(m.fs, SlotOf(m.fs, dir), Orphans(m));
    if dir in Dirty(m) {
      Unsaved(m, dir);
      var c :| GainedRecord(m.fs, dir, c);
      LastResolves(m.fs, dir, c);
    }
  }

  lemma DirSlot(fs: Fs, dir: nat, limbo: set<nat>, dirty: set<nat>)
    requires Flat(fs, limbo) && CoreOk(fs, dirty) && dir in fs.core && IsDir(fs.core[dir].mode)
    ensures Shape(fs) && SlotOf(fs, dir) < fs.count
      && fs.core[dir].block == fs.table[SlotOf(fs, dir)].block < |fs.blocks|
    ensures IsDir(fs.table[SlotOf(fs, dir)].mode) && fs.table[SlotOf(fs, dir)].size <= RECORDS_PER_BLOCK
    ensures dir !in dirty ==> fs.core[dir].size == fs.table[SlotOf(fs, dir)].size
  {
    hide SlotFrom;
    assert CoreEntryOk(fs, dir, dirty);
  }

  lemma LastResolves(fs: Fs, dir: nat, c: nat)
    requires GainedRecord(fs, dir, c)
    ensures Shape(fs) && dir in fs.core && SlotOf(fs, dir) < fs.count && fs.core[dir].block < |fs.blocks|
    ensures fs.core[dir].size == fs.table[SlotOf(fs, dir)].size + 1 <= RECORDS_PER_BLOCK
    ensures SlotOf(fs, RecordAt(fs.blocks[fs.core[dir].block], fs.core[dir].size - 1).no) < fs.count
  {
    hide SlotFrom, RecordAt;
    SlotFound(fs, c);
  }

  lemma TreeNow(m: Machine)
    requires Inv(m) && !m.fs.fault
    ensures Flat(m.fs, Limbo(m)) && CoreOk(m.fs, Dirty(m)) && TreeOk(TreeOf(m.fs), Orphans(m))
  {
  }

  lemma SlotFound(fs: Fs, c: nat)
    requires Shape(fs) && c < fs.count
    ensures SlotOf(fs, fs.table[c].no) < fs.count
  {
  }

  lemma SlotResolves(fs: Fs, p: nat, orphans: set<nat>)
    requires Readable(fs) && Shape(fs) && TreeOk(TreeOf(fs), orphans) && p < fs.count && IsDir(fs.table[p].mode)
    ensures forall j :: 0 <= j < fs.table[p].size ==>
      SlotOf(fs, RecordAt(fs.blocks[fs.table[p].block], j).no) < fs.count
  {
    var t := TreeOf(fs);
    forall j | 0 <= j < fs.table[p].size
      ensures SlotOf(fs, RecordAt(fs.blocks[fs.table[p].block], j).no) < fs.count
    {
      assert Resolves(t, p, j);
      var c :| p < c && Link(t, p, j, c);
      SlotFound(fs, c);
    }
  }

  lemma StepKeepsDir(fs: Fs, th: Thread, limbo: set<nat>, dirty: set<nat>, dir: nat)
    requires Flat(fs, limbo) && CoreOk(fs, dirty) && ThreadOk(fs, th) && !Effect(fs, th).fault
    requires dir in fs.core && IsDir(fs.core[dir].mode)
    ensures dir in Effect(fs, th).core && IsDir(Effect(fs, th).core[dir].mode)
    ensures Effect(fs, th).core[dir].block == fs.core[dir].block
  {
    hide Flat, CoreOk, ThreadOk;
    CoreKept(fs, th, limbo, dirty, dir);
  }

  lemma DirStays(m: Machine, e: Event, dir: nat)
    requires OpenDir(m, dir) && Allowed(m, e) && !Apply(m, e).fs.fault
    ensures OpenDir(Apply(m, e), dir) && Apply(m, e).fs.core[dir].block == m.fs.core[dir].block
  {
    hide Inv, Effect, Next, NewOwner, Flat, CoreOk, ThreadOk;
    EventInv(m, e);
    if e.Step? {
      TreeNow(m);
      ThreadNow(m, e.t);
      StepKeepsDir(m.fs, m.threads[e.t], Limbo(m), Dirty(m), dir);
    }
  }

  lemma ThreadNow(m: Machine, t: nat)
    requires Inv(m) && !m.fs.fault && t < |m.threads|
    ensures ThreadOk(m.fs, m.threads[t])
  {
    hide Consistent;
  }

  // ---------- over a run ----------

  /** From one moment of a run to a later one, a directory keeps its place and only gains records, at the end. */
  lemma {:induction false} DirLater(m: Machine, es: seq<Event>, dir: nat, j: nat, k: nat)
    requires Inv(m) && Run(m, es) && !After(m, es).fs.fault && j <= k <= |es| && OpenDir(StateAt(m, es, j), dir)
    ensures OpenDir(StateAt(m, es, k), dir)
    ensures StateAt(m, es, k).fs.core[dir].block == StateAt(m, es, j).fs.core[dir].block
    ensures Entries(StateAt(m, es, j).fs, dir) <= Entries(StateAt(m, es, k).fs, dir)
    decreases k
  {
    hide Inv, Run, After, Apply, Entries, StateAt, DirAt, EventAppends;
    if j < k {
      DirLater(m, es, dir, j, k - 1);
      var m1 := StateAt(m, es, k - 1);
      Moment(m, es, k - 1);
      NoFaultAt(m, es, k);
      DirStays(m1, es[k - 1], dir);
      RecordsResolveNow(m1, dir);
      EventEntries(m1, es[k - 1], dir);
    }
  }

  lemma NoFaultAt(m: Machine, es: seq<Event>, k: nat)
    requires Inv(m) && Run(m, es) && !After(m, es).fs.fault && k <= |es|
    ensures Inv(StateAt(m, es, k)) && !StateAt(m, es, k).fs.fault
  {
    hide Inv;
    if k < |es| { StillInv(m, es, k); } else { RunInv(m, es); }
  }

  // ---------- walking along the records ----------

  /** How a walk along a directory's records ends: at a record with the name looked for, or past the last record. */
  datatype Walk = Unfinished | Found(at: nat, no: nat) | Ended(at: nat, seen: seq<DirRecord>)

  /** Moments of a run, in order. */
  predicate Moments(ks: seq<nat>, n: nat)
  {
    (forall i :: 0 <= i < |ks| ==> ks[i] <= n) && forall i, j :: 0 <= i <= j < |ks| ==> ks[i] <= ks[j]
  }

  /**
   * The loop of simplefs_lookup and simplefs_iterate with `seen` behind it: it reads the count at one moment, the next
   * record at a later one, and so on. Iterate looks for no name.
   */
  function WalkFrom(
      m: Machine, es: seq<Event>, dir: nat, block: nat, name: Option<Name>, seen: seq<DirRecord>, ks: seq<nat>): Walk
    requires Run(m, es) && Moments(ks, |es|)
    decreases |ks|
  {
    if ks == [] then Unfinished
    else
      var fs := StateAt(m, es, ks[0]).fs;
      if dir !in fs.core || |seen| >= fs.core[dir].size then Ended(ks[0], seen)
      else if |ks| == 1 || block >= |StateAt(m, es, ks[1]).fs.blocks| || |seen| >= RECORDS_PER_BLOCK then Unfinished
      else
        var r := RecordAt(StateAt(m, es, ks[1]).fs.blocks[block], |seen|);
        if name == Some(r.name) then Found(ks[1], r.no) else WalkFrom(m, es, dir, block, name, seen + [r], ks[2..])
  }

  /** The whole call: it first reads the number of the directory's block. */
  function WalkDir(m: Machine, es: seq<Event>, dir: nat, name: Option<Name>, ks: seq<nat>): Walk
    requires Run(m, es) && Moments(ks, |es|)
  {
    if ks == [] || dir !in StateAt(m, es, ks[0]).fs.core then Unfinished
    else WalkFrom(m, es, dir, StateAt(m, es, ks[0]).fs.core[dir].block, name, [], ks[1..])
  }

  /** No record has the name looked for, if there is one. */
  predicate Misses(es: seq<DirRecord>, name: Option<Name>)
  {
    name.Some? ==> FirstMatch(es, name.value) == None
  }

  /** The walk gives what these records say. */
  predicate Answers(w: Walk, es: seq<DirRecord>, name: Option<Name>)
  {
    match w
    case Unfinished => true
    case Found(_, no) => name.Some? && FirstMatch(es, name.value) == Some(no)
    case Ended(_, seen) => seen == es && Misses(es, name)
  }

  lemma {:induction false} MatchNext(es: seq<DirRecord>, i: nat, name: Option<Name>)
    requires i < |es| && Misses(es[..i], name)
    ensures if name == Some(es[i].name) then FirstMatch(es, name.value) == Some(es[i].no) else Misses(es[..i + 1], name)
  {
    assert es[..i + 1] == es[..i] + [es[i]] && es == es[..i + 1] + es[i + 1..];
    if name == Some(es[i].name) {
      MatchNew(es[..i], es[i]);
      MatchStays(es[..i + 1], es[i + 1..], name.value);
    } else if name.Some? {
      MatchOther(es[..i], es[i], name.value);
    }
  }

  lemma {:induction false} WalkIsRight(
      m: Machine, es: seq<Event>, dir: nat, block: nat, name: Option<Name>, seen: seq<DirRecord>, k: nat, ks: seq<nat>)
    requires Inv(m) && Run(m, es) && !After(m, es).fs.fault && Moments(ks, |es|) && k <= |es|
    requires OpenDir(StateAt(m, es, k), dir) && StateAt(m, es, k).fs.core[dir].block == block
    requires seen <= Entries(StateAt(m, es, k).fs, dir) && Misses(seen, name) && (ks != [] ==> k <= ks[0])
    ensures var w := WalkFrom(m, es, dir, block, name, seen, ks);
      && (|ks| + 2 * |seen| > 2 * RECORDS_PER_BLOCK ==> !w.Unfinished?)
      && (!w.Unfinished? ==> w.at in ks && k <= w.at && Answers(w, Entries(StateAt(m, es, w.at).fs, dir), name))
    decreases |ks|
  {
    hide Inv, Run, After, Entries, StateAt, OpenDir, EntriesIn, FirstMatch, Misses, RecordAt, SlotFrom, DirAt;
    RecordsResolveNow(StateAt(m, es, k), dir);
    if ks != [] {
      var fs := StateAt(m, es, ks[0]).fs;
      DirLater(m, es, dir, k, ks[0]);
      RecordsResolveNow(StateAt(m, es, ks[0]), dir);
      var all := Entries(fs, dir);
      if |seen| < fs.core[dir].size && |ks| > 1 {
        DirLater(m, es, dir, ks[0], ks[1]);
        RecordsResolveNow(StateAt(m, es, ks[1]), dir);
        var later := Entries(StateAt(m, es, ks[1]).fs, dir);
        var r := RecordAt(StateAt(m, es, ks[1]).fs.blocks[block], |seen|);
        assert r == later[|seen|] && seen == later[..|seen|];
        MatchNext(later, |seen|, name);
        if name != Some(r.name) {
          assert seen + [r] == later[..|seen| + 1];
          WalkIsRight(m, es, dir, block, name, seen + [r], ks[1], ks[2..]);
        }
      } else if |seen| >= fs.core[dir].size {
        assert all == seen;
      }
    }
  }

  /**
   * A lookup that runs while other threads create, mkdir and write, reading the count and the records one after the
   * other at any moments of the run, answers what a lookup made at one of these moments would, and an iterate lists
   * what was in the directory at one of them. Either comes to an end.
   */
  lemma WalksAreAtomic(m: Machine, es: seq<Event>, dir: nat, name: Option<Name>, ks: seq<nat>)
    requires Inv(m) && Run(m, es) && !After(m, es).fs.fault && Moments(ks, |es|) && ks != []
    requires dir in StateAt(m, es, ks[0]).fs.core && IsDir(StateAt(m, es, ks[0]).fs.core[dir].mode)
    ensures var w := WalkDir(m, es, dir, name, ks);
      && (|ks| > 2 * RECORDS_PER_BLOCK + 1 ==> !w.Unfinished?)
      && (!w.Unfinished? ==> w.at in ks && Answers(w, Entries(StateAt(m, es, w.at).fs, dir), name))
  {
    hide Inv, Run, After, Entries, StateAt, WalkFrom;
    NoFaultAt(m, es, ks[0]);
    WalkIsRight(m, es, dir, StateAt(m, es, ks[0]).fs.core[dir].block, name, [], ks[0], ks[1..]);
  }

  /** And the inode that a lookup has found is there whenever it goes on to load it. */
  lemma FoundIsThere(m: Machine, es: seq<Event>, dir: nat, name: Option<Name>, ks: seq<nat>, k: nat)
    requires Inv(m) && Run(m, es) && !After(m, es).fs.fault && Moments(ks, |es|) && ks != []
    requires dir in StateAt(m, es, ks[0]).fs.core && IsDir(StateAt(m, es, ks[0]).fs.core[dir].mode)
    requires WalkDir(m, es, dir, name, ks).Found? && WalkDir(m, es, dir, name, ks).at <= k <= |es|
    ensures StateAt(m, es, k).fs.count <= |StateAt(m, es, k).fs.table|
    ensures SlotOf(StateAt(m, es, k).fs, WalkDir(m, es, dir, name, ks).no) < StateAt(m, es, k).fs.count
  {
    hide Inv, Run, After, Entries, StateAt, WalkDir, SlotFrom, FirstMatch, EntriesIn;
    WalksAreAtomic(m, es, dir, name, ks);
    var w := WalkDir(m, es, dir, name, ks);
    NoFaultAt(m, es, ks[0]);
    DirLater(m, es, dir, ks[0], w.at);
    DirLater(m, es, dir, w.at, k);
    var here, later := Entries(StateAt(m, es, w.at).fs, dir), Entries(StateAt(m, es, k).fs, dir);
    MatchStays(here, later[|here|..], name.value);
    assert later == here + later[|here|..];
    var i := MatchIsRecord(later, name.value);
    RecordsResolveNow(StateAt(m, es, k), dir);
  }

  lemma {:induction false} MatchIsRecord(es: seq<DirRecord>, name: Name) returns (i: nat)
    requires FirstMatch(es, name).Some?
    ensures i < |es| && es[i].no == FirstMatch(es, name).value
    decreases |es|
  {
    if es[0].name == name {
      i := 0;
    } else {
      i := MatchIsRecord(es[1..], name);
      i := i + 1;
    }
  }
}
