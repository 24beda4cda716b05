/**
 * The RCU demo as a protocol: any number of readers, one updater that replaces the published
 * object again and again, and reclaim of the replaced objects, either by a callback some time
 * after `call_rcu` or by the updater itself after `synchronize_rcu`.
 *
 * Reading through a pointer to a freed object, or freeing one again, raises `fault`.
 */
module Rcu {
  import opened Wrappers

  datatype Reclaim = Callback | Synchronous

  /**
   * A reader outside or inside its critical section. `index` is the place of what it holds in the publication history.
   */
  datatype Reader =
    | Out(last: int)
    | In(last: int, p: Option<nat>, index: nat)

  datatype Updater =
    | Resting
    | Allocated(draft: nat)
    | Copied(draft: nat, prev: nat)
    | Valued(draft: nat, prev: nat)
    | Published(prev: nat)
    | Waiting(prev: nat)

  datatype State = State(
    heap: map<nat, int>,           // live objects: identity to field `a`
    next: nat,                     // identities below this one have been handed out
    g: nat,                        // the published pointer
    value: int,                    // the updater's `value`
    updater: Updater,
    readers: seq<Reader>,
    grace: map<nat, set<nat>>,     // retired objects, with the readers that still have to leave
    freed: seq<nat>,               // history: objects freed, in order
    hist: seq<nat>,                // history: objects published, in order
    fault: bool)

  datatype Event =
    | Lock(r: nat) | Deref(r: nat) | Print(r: nat) | Unlock(r: nat)
    | Alloc | Copy | SetValue | Publish | Retire | Free(id: nat)

  /** The readers inside a critical section. */
  function Active(rs: seq<Reader>): set<nat>
  {
    set r | 0 <= r < |rs| && rs[r].In?
  }

  predicate Allowed(s: State, e: Event, how: Reclaim)
  {
    match e
    case Lock(r) => r < |s.readers| && s.readers[r].Out?
    case Deref(r) => r < |s.readers| && s.readers[r].In? && s.readers[r].p == None
    case Print(r) => r < |s.readers| && s.readers[r].In? && s.readers[r].p.Some?
    case Unlock(r) => r < |s.readers| && s.readers[r].In?
    case Alloc => s.updater.Resting?
    case Copy => s.updater.Allocated?
    case SetValue => s.updater.Copied?
    case Publish => s.updater.Valued?
    case Retire => s.updater.Published?
    case Free(id) =>
      // the grace period is over: every reader active at retirement has left
      && id in s.grace && s.grace[id] == {}
      && (how == Synchronous ==> s.updater == Waiting(id))
  }

  function Leave(grace: map<nat, set<nat>>, r: nat): map<nat, set<nat>>
  {
    map id | id in grace :: grace[id] - {r}
  }

  function Apply(s: State, e: Event, how: Reclaim): State
    requires Allowed(s, e, how)
  {
    match e
    case Lock(r) => s.(readers := s.readers[r := In(s.readers[r].last, None, 0)])
    case Deref(r) => s.(readers := s.readers[r := s.readers[r].(p := Some(s.g), index := if |s.hist| > 0 then |s.hist| - 1 else 0)])
    case Print(r) =>
      var p := s.readers[r].p.value;
      if p in s.heap then s.(readers := s.readers[r := s.readers[r].(last := s.heap[p])]) else s.(fault := true)
    case Unlock(r) => s.(readers := s.readers[r := Out(s.readers[r].last)], grace := Leave(s.grace, r))
    case Alloc => s.(heap := s.heap[s.next := 0], next := s.next + 1, updater := Allocated(s.next))
    case Copy =>
      if s.g in s.heap && s.updater.draft in s.heap then
        s.(heap := s.heap[s.updater.draft := s.heap[s.g]], updater := Copied(s.updater.draft, s.g))
      else s.(fault := true)
    case SetValue =>
      if s.updater.draft in s.heap then
        s.(heap := s.heap[s.updater.draft := s.value], updater := Valued(s.updater.draft, s.updater.prev))
      else s.(fault := true)
    case Publish => s.(g := s.updater.draft, hist := s.hist + [s.updater.draft], updater := Published(s.updater.prev))
    case Retire =>
      var s' := s.(grace := s.grace[s.updater.prev := Active(s.readers)]);
      if how == Callback then s'.(updater := Resting, value := s.value + 1) else s'.(updater := Waiting(s.updater.prev))
    case Free(id) =>
      var s' := if id in s.heap then s.(heap := s.heap - {id}) else s.(fault := true);
      var s'' := s'.(grace := s'.grace - {id}, freed := s'.freed + [id]);
      if how == Callback then s'' else s''.(updater := Resting, value := s.value + 1)
  }

  predicate Run(s: State, es: seq<Event>, how: Reclaim)
    decreases |es|
  {
    es == [] || (Allowed(s, es[0], how) && Run(Apply(s, es[0], how), es[1..], how))
  }

  function After(s: State, es: seq<Event>, how: Reclaim): State
    requires Run(s, es, how)
    decreases |es|
  {
    if es == [] then s else After(Apply(s, es[0], how), es[1..], how)
  }

  /** The values the updaters start from: 1 for the pointer, 1000 for the list. */
  function FirstValue(how: Reclaim): int { if how == Callback then 1 else 1000 }

  /** After the module's init: one zeroed object published, nobody in a critical section. */
  predicate Initial(s: State, how: Reclaim)
  {
    && s.heap == map[s.g := 0] && s.next == s.g + 1 && s.value == FirstValue(how) && s.updater == Resting
    && (forall r :: 0 <= r < |s.readers| ==> s.readers[r] == Out(0))
    && s.grace == map[] && s.freed == [] && s.hist == [s.g] && !s.fault
  }

  // ---------- the invariant ----------

  /** The value of the `i`th object published. */
  function ValueOf(i: nat, how: Reclaim): int
  {
    if i == 0 then 0 else FirstValue(how) + i - 1
  }

  /** The object the updater has replaced and not yet retired. */
  function Replaced(u: Updater): set<nat>
  {
    if u.Published? then {u.prev} else {}
  }

  /** The object the updater is still preparing. */
  function Private(u: Updater): set<nat>
  {
    match u
    case Allocated(q) => {q}
    case Copied(q, _) => {q}
    case Valued(q, _) => {q}
    case _ => {}
  }

  ghost predicate HistoryOk(s: State, how: Reclaim)
  {
    && |s.hist| >= 1 && s.g == s.hist[|s.hist| - 1]
    && (forall i :: 0 <= i < |s.hist| ==> s.hist[i] < s.next)
    && (forall i, j :: 0 <= i < j < |s.hist| ==> s.hist[i] != s.hist[j])
    && (forall i :: 0 <= i < |s.hist| && s.hist[i] in s.heap ==> s.heap[s.hist[i]] == ValueOf(i, how))
    && s.value == ValueOf(|s.hist|, how) - (if s.updater.Published? || s.updater.Waiting? then 1 else 0)
  }

  ghost predicate UpdaterOk(s: State, how: Reclaim)
  {
    match s.updater
    case Resting => true
    case Allocated(q) => q < s.next && q !in s.hist
    case Copied(q, prev) => q < s.next && q !in s.hist && prev == s.g
    case Valued(q, prev) => q < s.next && q !in s.hist && prev == s.g && q in s.heap && s.heap[q] == s.value
    case Published(prev) => |s.hist| >= 2 && prev == s.hist[|s.hist| - 2]
    case Waiting(prev) => how == Synchronous && s.grace.Keys == {prev}
  }

  /** Live objects are exactly the published one, the retired ones, and what the updater has in hand. */
  ghost predicate HeapOk(s: State, how: Reclaim)
  {
    && s.heap.Keys == {s.g} + s.grace.Keys + Replaced(s.updater) + Private(s.updater)
    && s.g !in s.grace && (forall id :: id in s.grace ==> id in s.hist)
    && s.grace.Keys !! Replaced(s.updater)
    && (how == Synchronous && !s.updater.Waiting? ==> s.grace == map[])
    && (forall id :: id in s.freed ==> id !in s.heap && id < s.next)
    && (forall i, j :: 0 <= i < j < |s.freed| ==> s.freed[i] != s.freed[j])
  }

  /** A reader in its section holds an object that was published, and nothing may free it yet. */
  ghost predicate ReaderOk(s: State, r: nat, how: Reclaim)
  {
    r < |s.readers| && |s.hist| >= 1 &&
    match s.readers[r]
    case Out(last) => last <= ValueOf(|s.hist| - 1, how)
    case In(last, None, _) => last <= ValueOf(|s.hist| - 1, how)
    case In(last, Some(id), index) =>
      && index < |s.hist| && s.hist[index] == id && last <= ValueOf(index, how)
      && (id == s.g || id in Replaced(s.updater) || (id in s.grace && r in s.grace[id]))
  }

  /** Everything but the readers. */
  ghost predicate SharedOk(s: State, how: Reclaim)
  {
    !s.fault && HistoryOk(s, how) && UpdaterOk(s, how) && HeapOk(s, how)
  }

  ghost predicate Inv(s: State, how: Reclaim)
  {
    SharedOk(s, how) && forall r :: 0 <= r < |s.readers| ==> ReaderOk(s, r, how)
  }

  lemma InitialInv(s: State, how: Reclaim)
    requires Initial(s, how)
    ensures Inv(s, how)
  {
  }

  /** The state after init, with any number of readers. */
  lemma Starts(n: nat, how: Reclaim) returns (s: State)
    ensures Initial(s, how) && |s.readers| == n
  {
    s := State(map[0 := 0], 1, 0, FirstValue(how), Resting, seq(n, _ => Out(0)), map[], [], [0], false);
  }

  // ---------- every step keeps it ----------

  /** The object a reader holds is live, and its field is what was published. */
  lemma HeldIsLive(s: State, r: nat, how: Reclaim)
    requires SharedOk(s, how) && r < |s.readers| && ReaderOk(s, r, how) && s.readers[r].In? && s.readers[r].p.Some?
    ensures s.readers[r].p.value in s.heap
    ensures s.readers[r].index < |s.hist| && s.hist[s.readers[r].index] == s.readers[r].p.value
    ensures s.heap[s.readers[r].p.value] == ValueOf(s.readers[r].index, how) >= s.readers[r].last
  {
  }

  lemma ReaderEventShared(s: State, e: Event, how: Reclaim)
    requires SharedOk(s, how) && Allowed(s, e, how) && (e.Lock? || e.Deref? || e.Print? || e.Unlock?)
    requires e.Print? ==> ReaderOk(s, e.r, how)
    ensures SharedOk(Apply(s, e, how), how)
  {
    hide HistoryOk, HeapOk, UpdaterOk;
    if e.Print? { HeldIsLive(s, e.r, how); }
    var s' := Apply(s, e, how);
    assert s'.grace.Keys == s.grace.Keys;
    SameShared(s, s', how);
  }

  /** Nothing but the readers, and whom reclaim waits for, has changed. */
  lemma SameShared(s: State, s': State, how: Reclaim)
    requires SharedOk(s, how) && s'.grace.Keys == s.grace.Keys
    requires s' == s.(readers := s'.readers, grace := s'.grace)
    ensures SharedOk(s', how)
  {
    hide HistoryOk, HeapOk;
    SameHistory(s, s', how);
    SameHeap(s, s', how);
  }

  lemma SameHistory(s: State, s': State, how: Reclaim)
    requires HistoryOk(s, how) && s' == s.(readers := s'.readers, grace := s'.grace)
    ensures HistoryOk(s', how)
  {
  }

  lemma SameHeap(s: State, s': State, how: Reclaim)
    requires HeapOk(s, how) && s' == s.(readers := s'.readers, grace := s'.grace) && s'.grace.Keys == s.grace.Keys
    ensures HeapOk(s', how)
  {
    assert s.grace == map[] ==> s'.grace.Keys == {};
  }

  lemma PrepareShared(s: State, e: Event, how: Reclaim)
    requires SharedOk(s, how) && Allowed(s, e, how) && (e.Alloc? || e.Copy? || e.SetValue?)
    ensures SharedOk(Apply(s, e, how), how)
  {
    var s' := Apply(s, e, how);
    assert HistoryOk(s', how);
    assert HeapOk(s', how);
  }

  lemma PublishShared(s: State, how: Reclaim)
    requires SharedOk(s, how) && Allowed(s, Publish, how)
    ensures SharedOk(Apply(s, Publish, how), how)
  {
    var s' := Apply(s, Publish, how);
    assert HistoryOk(s', how);
    assert HeapOk(s', how);
  }

  lemma RetireShared(s: State, how: Reclaim)
    requires SharedOk(s, how) && Allowed(s, Retire, how)
    ensures SharedOk(Apply(s, Retire, how), how)
  {
    var s' := Apply(s, Retire, how);
    assert HistoryOk(s', how);
    assert HeapOk(s', how);
  }

  lemma FreeHeap(s: State, id: nat, how: Reclaim)
    requires HeapOk(s, how) && UpdaterOk(s, how) && HistoryOk(s, how) && Allowed(s, Free(id), how)
    ensures id in s.heap && id !in s.freed
    ensures HeapOk(Apply(s, Free(id), how), how)
  {
    var s' := Apply(s, Free(id), how);
    assert id in s.hist;
    assert s'.heap.Keys == s.heap.Keys - {id};
    assert s'.grace.Keys == s.grace.Keys - {id};
    if how == Synchronous { assert s'.grace == map[]; }
  }

  lemma FreeShared(s: State, id: nat, how: Reclaim)
    requires SharedOk(s, how) && Allowed(s, Free(id), how)
    ensures SharedOk(Apply(s, Free(id), how), how)
  {
    FreeHeap(s, id, how);
    hide HeapOk;
    assert HistoryOk(Apply(s, Free(id), how), how);
  }

  lemma SharedStep(s: State, e: Event, how: Reclaim)
    requires Inv(s, how) && Allowed(s, e, how)
    ensures SharedOk(Apply(s, e, how), how)
  {
    match e
    case Lock(_) | Deref(_) | Print(_) | Unlock(_) => ReaderEventShared(s, e, how);
    case Alloc | Copy | SetValue => PrepareShared(s, e, how);
    case Publish => PublishShared(s, how);
    case Retire => RetireShared(s, how);
    case Free(id) => FreeShared(s, id, how);
  }

  lemma ReaderKept(s: State, e: Event, how: Reclaim, r: nat)
    requires SharedOk(s, how) && Allowed(s, e, how) && ReaderOk(s, r, how) && (e.Lock? || e.Deref? || e.Print?)
    ensures ReaderOk(Apply(s, e, how), r, how)
  {
    if e.Print? && e.r == r { HeldIsLive(s, r, how); }
  }

  lemma ReaderUpdated(s: State, e: Event, how: Reclaim, r: nat)
    requires SharedOk(s, how) && Allowed(s, e, how) && ReaderOk(s, r, how)
      && (e.Alloc? || e.Copy? || e.SetValue? || e.Publish?)
    ensures ReaderOk(Apply(s, e, how), r, how)
  {
    hide HeapOk;
  }

  /** Retiring an object makes its reclaim wait for everyone who may hold it. */
  lemma ReaderProtected(s: State, e: Event, how: Reclaim, r: nat)
    requires SharedOk(s, how) && Allowed(s, e, how) && ReaderOk(s, r, how) && (e.Retire? || e.Free? || e.Unlock?)
    ensures ReaderOk(Apply(s, e, how), r, how)
  {
  }

  lemma StepInv(s: State, e: Event, how: Reclaim)
    requires Inv(s, how) && Allowed(s, e, how)
    ensures Inv(Apply(s, e, how), how)
  {
    hide HistoryOk, UpdaterOk, HeapOk, ReaderOk;
    SharedStep(s, e, how);
    forall r | 0 <= r < |Apply(s, e, how).readers|
      ensures ReaderOk(Apply(s, e, how), r, how)
    {
      if e.Retire? || e.Free? || e.Unlock? {
        ReaderProtected(s, e, how, r);
      } else if e.Alloc? || e.Copy? || e.SetValue? || e.Publish? {
        ReaderUpdated(s, e, how, r);
      } else {
        ReaderKept(s, e, how, r);
      }
    }
  }

  lemma {:induction false} RunInv(s: State, es: seq<Event>, how: Reclaim)
    requires Inv(s, how) && Run(s, es, how)
    ensures Inv(After(s, es, how), how)
    decreases |es|
  {
    hide Inv;
    if es != [] {
      StepInv(s, es[0], how);
      RunInv(Apply(s, es[0], how), es[1..], how);
    }
  }

  // ---------- what follows for every run ----------

  /**
   * Whatever the interleaving, no reader inside its section holds a freed object, none ever reads
   * one, and no object is freed twice.
   */
  lemma NoUseAfterFree(s: State, es: seq<Event>, how: Reclaim)
    requires Initial(s, how) && Run(s, es, how)
    ensures var s' := After(s, es, how);
      && !s'.fault
      && (forall r :: 0 <= r < |s'.readers| && s'.readers[r].In? && s'.readers[r].p.Some?
            ==> s'.readers[r].p.value in s'.heap && s'.readers[r].p.value !in s'.freed)
      && (forall i, j :: 0 <= i < j < |s'.freed| ==> s'.freed[i] != s'.freed[j])
  {
    InitialInv(s, how);
    RunInv(s, es, how);
    var s' := After(s, es, how);
    hide HistoryOk, UpdaterOk, ReaderOk;
    forall r | 0 <= r < |s'.readers| && s'.readers[r].In? && s'.readers[r].p.Some?
      ensures s'.readers[r].p.value in s'.heap && s'.readers[r].p.value !in s'.freed
    {
      HeldIsLive(s', r, how);
    }
  }

  /** The values a reader prints in the course of a run, in order. */
  function Printed(s: State, es: seq<Event>, how: Reclaim, r: nat): seq<int>
    requires Run(s, es, how)
    decreases |es|
  {
    if es == [] then []
    else
      var s1 := Apply(s, es[0], how);
      (if es[0] == Print(r) && r < |s1.readers| then [s1.readers[r].last] else []) + Printed(s1, es[1..], how, r)
  }

  predicate Ascending(xs: seq<int>, from: int)
  {
    forall i :: 0 <= i < |xs| ==> from <= xs[i] && (i > 0 ==> xs[i - 1] <= xs[i])
  }

  lemma LastAscends(s: State, e: Event, how: Reclaim, r: nat)
    requires Inv(s, how) && Allowed(s, e, how) && r < |s.readers|
    ensures r < |Apply(s, e, how).readers| && s.readers[r].last <= Apply(s, e, how).readers[r].last
    ensures e != Print(r) ==> s.readers[r].last == Apply(s, e, how).readers[r].last
  {
    if e == Print(r) { HeldIsLive(s, r, how); }
  }

  /** The values a reader sees, from section to section, never decrease. */
  lemma {:induction false} ReadsAscend(s: State, es: seq<Event>, how: Reclaim, r: nat)
    requires Inv(s, how) && Run(s, es, how) && r < |s.readers|
    ensures Ascending(Printed(s, es, how, r), s.readers[r].last)
    decreases |es|
  {
    hide Inv, Apply;
    if es != [] {
      var s1 := Apply(s, es[0], how);
      StepInv(s, es[0], how);
      LastAscends(s, es[0], how, r);
      ReadsAscend(s1, es[1..], how, r);
    }
  }

  // -- the moments of a section --

  lemma {:induction false} RunPrefix(s: State, es: seq<Event>, how: Reclaim, k: nat)
    requires Run(s, es, how) && k < |es|
    ensures Run(s, es[..k], how) && Run(s, es[..k + 1], how) && Allowed(After(s, es[..k], how), es[k], how)
    ensures After(s, es[..k + 1], how) == Apply(After(s, es[..k], how), es[k], how)
    decreases |es|
  {
    hide Apply, Allowed;
    if k == 0 {
      assert es[..1][1..] == [];
    } else {
      RunPrefix(Apply(s, es[0], how), es[1..], how, k - 1);
      assert es[1..][..k - 1] == es[..k][1..] && es[1..][..k] == es[..k + 1][1..];
    }
  }

  /** After the first `k` events object `id` is the published one, and its field holds `v`. */
  ghost predicate PublishedAt(s: State, es: seq<Event>, how: Reclaim, k: int, id: nat, v: int)
  {
    && 0 <= k <= |es| && Run(s, es[..k], how)
    && var s' := After(s, es[..k], how); s'.g == id && id in s'.heap && s'.heap[id] == v
  }

  /** Events `i` and `j` belong to the same section of reader `r`: it begins at `i` and has not ended at `j`. */
  predicate SameSection(es: seq<Event>, i: int, j: int, r: nat)
  {
    0 <= i < j <= |es| && es[i] == Lock(r) && forall k :: i < k < j ==> es[k] != Unlock(r)
  }

  /** What a reader holds was the published object at some moment since its section began. */
  ghost predicate HeldSince(s: State, es: seq<Event>, how: Reclaim, i: int, j: int, r: nat)
    requires 0 <= j <= |es| && Run(s, es[..j], how)
  {
    var s' := After(s, es[..j], how);
    && r < |s'.readers| && s'.readers[r].In?
    && (s'.readers[r].p.Some? ==>
          exists k :: i < k <= j
            && PublishedAt(s, es, how, k, s'.readers[r].p.value, ValueOf(s'.readers[r].index, how)))
  }

  lemma HeldStep(s: State, es: seq<Event>, how: Reclaim, i: nat, j: nat, r: nat)
    requires Initial(s, how) && Run(s, es, how) && SameSection(es, i, j + 1, r) && j < |es| && i < j
    requires Run(s, es[..j], how) && Run(s, es[..j + 1], how) && HeldSince(s, es, how, i, j, r)
    ensures HeldSince(s, es, how, i, j + 1, r)
  {
    hide Inv;
    RunPrefix(s, es, how, j);
    var s1, s2 := After(s, es[..j], how), After(s, es[..j + 1], how);
    if es[j] == Deref(r) {
      InitialInv(s, how);
      RunInv(s, es[..j], how);
      Newest(s1, how);
      assert PublishedAt(s, es, how, j, s1.g, ValueOf(|s1.hist| - 1, how));
    } else {
      assert s2.readers[r].In? && s2.readers[r].p == s1.readers[r].p && s2.readers[r].index == s1.readers[r].index by {
        hide Run, After;
      }
    }
  }

  /** The published object holds the newest value. */
  lemma Newest(s: State, how: Reclaim)
    requires Inv(s, how)
    ensures |s.hist| >= 1 && s.g in s.heap && s.heap[s.g] == ValueOf(|s.hist| - 1, how)
  {
  }

  lemma {:induction false} Held(s: State, es: seq<Event>, how: Reclaim, i: nat, j: nat, r: nat)
    requires Initial(s, how) && Run(s, es, how) && SameSection(es, i, j, r)
    ensures Run(s, es[..j], how) && HeldSince(s, es, how, i, j, r)
    decreases j
  {
    RunPrefix(s, es, how, j - 1);
    if j > i + 1 {
      Held(s, es, how, i, j - 1, r);
      HeldStep(s, es, how, i, j - 1, r);
    }
  }

  /**
   * What a reader prints in a section is the value of an object that was the published one, with that very
   * value in it, at some moment since that section began.
   */
  lemma PrintsPublished(s: State, es: seq<Event>, how: Reclaim, i: nat, j: nat, r: nat)
    requires Initial(s, how) && Run(s, es, how) && SameSection(es, i, j, r) && j < |es| && es[j] == Print(r)
    ensures Run(s, es[..j + 1], how) && r < |After(s, es[..j + 1], how).readers|
    ensures var rd := After(s, es[..j + 1], how).readers[r];
      rd.In? && rd.p.Some? && exists k :: i < k <= j && PublishedAt(s, es, how, k, rd.p.value, rd.last)
  {
    hide Inv;
    RunPrefix(s, es, how, j);
    Held(s, es, how, i, j, r);
    InitialInv(s, how);
    RunInv(s, es[..j], how);
    var s1 := After(s, es[..j], how);
    Reads(s1, r, how);
  }

  lemma Reads(s: State, r: nat, how: Reclaim)
    requires Inv(s, how) && Allowed(s, Print(r), how)
    ensures Apply(s, Print(r), how).readers[r] == s.readers[r].(last := ValueOf(s.readers[r].index, how))
  {
    HeldIsLive(s, r, how);
  }

  // ---------- nothing is leaked ----------

  /**
   * With everyone out and the updater resting, all retired objects can be reclaimed, and then only the published one is
   * left.
   */
  lemma {:induction false} ReclaimsAll(s: State, how: Reclaim) returns (es: seq<Event>)
    requires Inv(s, how) && s.updater.Resting? && forall id :: id in s.grace ==> s.grace[id] == {}
    ensures Run(s, es, how) && After(s, es, how).heap.Keys == {s.g}
    decreases |s.grace|
  {
    hide Inv;
    LiveObjects(s, how);
    if s.grace == map[] {
      es := [];
    } else {
      var id :| id in s.grace;
      var e := Free(id);
      StepInv(s, e, how);
      var s1 := Apply(s, e, how);
      GraceShrinks(s.grace, id);
      var rest := ReclaimsAll(s1, how);
      es := [e] + rest;
      assert es[1..] == rest;
    }
  }

  lemma LiveObjects(s: State, how: Reclaim)
    requires Inv(s, how) && s.updater.Resting?
    ensures s.heap.Keys == {s.g} + s.grace.Keys
    ensures how == Synchronous ==> s.grace == map[]
  {
  }

  lemma GraceShrinks(grace: map<nat, set<nat>>, id: nat)
    requires id in grace
    ensures |grace - {id}| < |grace|
  {
    var rest := grace - {id};
    assert rest.Keys == grace.Keys - {id};
    assert |grace.Keys| == |rest.Keys| + 1;
  }

  /** Once every reader has left, no retired object waits for anyone. */
  lemma OutMeansGraceOver(s: State)
    requires WaitersActive(s) && forall r :: 0 <= r < |s.readers| ==> s.readers[r].Out?
    ensures forall id :: id in s.grace ==> s.grace[id] == {}
  {
    forall id | id in s.grace ensures s.grace[id] == {} {
      assert s.grace[id] <= Active(s.readers);
    }
  }

  /** Reclaim waits only for readers that are inside a section. */
  ghost predicate WaitersActive(s: State)
  {
    forall id :: id in s.grace ==> s.grace[id] <= Active(s.readers)
  }

  lemma WaitersStay(s: State, e: Event, how: Reclaim)
    requires WaitersActive(s) && Allowed(s, e, how)
    ensures WaitersActive(Apply(s, e, how))
  {
    var s' := Apply(s, e, how);
    forall id | id in s'.grace ensures s'.grace[id] <= Active(s'.readers) {
      if e != Retire { assert s.grace[id] <= Active(s.readers); }
    }
  }

  lemma {:induction false} WaitersRun(s: State, es: seq<Event>, how: Reclaim)
    requires WaitersActive(s) && Run(s, es, how)
    ensures WaitersActive(After(s, es, how))
    decreases |es|
  {
    if es != [] {
      WaitersStay(s, es[0], how);
      WaitersRun(Apply(s, es[0], how), es[1..], how);
    }
  }

  /**
   * After every run, once the readers are out and the updater rests, reclaim can go on until only the published object
   * is left.
   */
  lemma NothingLeaks(s: State, es: seq<Event>, how: Reclaim) returns (more: seq<Event>)
    requires Initial(s, how) && Run(s, es, how) && After(s, es, how).updater.Resting?
    requires forall r :: 0 <= r < |After(s, es, how).readers| ==> After(s, es, how).readers[r].Out?
    ensures Run(After(s, es, how), more, how)
    ensures After(After(s, es, how), more, how).heap.Keys == {After(s, es, how).g}
  {
    hide Inv;
    InitialInv(s, how);
    RunInv(s, es, how);
    WaitersRun(s, es, how);
    OutMeansGraceOver(After(s, es, how));
    more := ReclaimsAll(After(s, es, how), how);
  }

  // ---------- what is published, and by whom it is seen ----------

  /**
   * In every run the objects published are distinct, the last of them is the current one, and the `i`th holds, while
   * it is live, 0 at first and then 1, 2, ... for the pointer, 1000, 1001, ... for the list.
   */
  lemma PublishedInOrder(s: State, es: seq<Event>, how: Reclaim, i: nat)
    requires Initial(s, how) && Run(s, es, how) && i < |After(s, es, how).hist|
    ensures var s' := After(s, es, how);
      && s'.hist[|s'.hist| - 1] == s'.g && s'.g in s'.heap
      && (forall j :: 0 <= j < i ==> s'.hist[j] != s'.hist[i])
      && (s'.hist[i] in s'.heap ==>
            s'.heap[s'.hist[i]] == if i == 0 then 0 else if how == Callback then i else 999 + i)
  {
    hide Inv;
    InitialInv(s, how);
    RunInv(s, es, how);
    Newest(After(s, es, how), how);
    HistoryNow(After(s, es, how), how);
  }

  lemma HistoryNow(s: State, how: Reclaim)
    requires Inv(s, how)
    ensures HistoryOk(s, how)
  {
  }

  lemma RunFirst(s: State, e: Event, es: seq<Event>, how: Reclaim, r: nat)
    requires Allowed(s, e, how) && Run(Apply(s, e, how), es, how)
    ensures Run(s, [e] + es, how) && After(s, [e] + es, how) == After(Apply(s, e, how), es, how)
    ensures Printed(s, [e] + es, how, r)
      == (if e == Print(r) && r < |Apply(s, e, how).readers| then [Apply(s, e, how).readers[r].last] else [])
         + Printed(Apply(s, e, how), es, how, r)
  {
    hide Apply, Allowed;
    assert ([e] + es)[1..] == es;
  }

  lemma SectionSteps(s: State, how: Reclaim, r: nat) returns (s1: State, s2: State, s3: State)
    requires r < |s.readers| && s.readers[r].Out? && s.g in s.heap
    ensures Allowed(s, Lock(r), how) && s1 == Apply(s, Lock(r), how)
    ensures Allowed(s1, Deref(r), how) && s2 == Apply(s1, Deref(r), how)
    ensures Allowed(s2, Print(r), how) && s3 == Apply(s2, Print(r), how) && Allowed(s3, Unlock(r), how)
    ensures r < |s3.readers| && s3.readers[r].last == s.heap[s.g]
    ensures var s4 := Apply(s3, Unlock(r), how); s4.readers == s.readers[r := Out(s.heap[s.g])] && s4.heap == s.heap
  {
    s1 := Apply(s, Lock(r), how);
    s2 := Apply(s1, Deref(r), how);
    s3 := Apply(s2, Print(r), how);
  }

  /** In every reachable state a reader that is out can go through a section, and prints the newest value. */
  lemma ReaderSeesNewest(s: State, how: Reclaim, r: nat) returns (es: seq<Event>)
    requires Inv(s, how) && r < |s.readers| && s.readers[r].Out?
    ensures es == [Lock(r), Deref(r), Print(r), Unlock(r)] && Run(s, es, how)
    ensures s.g in s.heap && Printed(s, es, how, r) == [s.heap[s.g]]
    ensures After(s, es, how).readers == s.readers[r := Out(s.heap[s.g])] && After(s, es, how).heap == s.heap
  {
    hide Inv, Apply, Allowed;
    Newest(s, how);
    var s1, s2, s3 := SectionSteps(s, how, r);
    RunFirst(s3, Unlock(r), [], how, r);
    assert After(Apply(s3, Unlock(r), how), [], how) == Apply(s3, Unlock(r), how);
    assert Printed(Apply(s3, Unlock(r), how), [], how, r) == [];
    hide Run, After, Printed;
    RunFirst(s2, Print(r), [Unlock(r)], how, r);
    RunFirst(s1, Deref(r), [Print(r), Unlock(r)], how, r);
    RunFirst(s, Lock(r), [Deref(r), Print(r), Unlock(r)], how, r);
    es := [Lock(r)] + [Deref(r), Print(r), Unlock(r)];
  }

  /**
   * In every reachable state a resting updater can publish the next value in an object that was never used before, and
   * retire the old one, whoever is reading.
   */
  lemma UpdaterPublishes(s: State, how: Reclaim) returns (es: seq<Event>)
    requires Inv(s, how) && s.updater.Resting?
    ensures es == [Alloc, Copy, SetValue, Publish, Retire] && Run(s, es, how)
    ensures After(s, es, how).g == s.next && s.next !in s.heap && s.next in After(s, es, how).heap
    ensures After(s, es, how).heap[s.next] == s.value && After(s, es, how).readers == s.readers
    ensures s.g in After(s, es, how).grace && After(s, es, how).grace[s.g] == Active(s.readers)
  {
    hide Inv, Apply, Allowed, Active, Printed;
    Newest(s, how);
    NextIsNew(s, how);
    var s1, s2, s3, s4 := UpdateSteps(s, how);
    RunFirst(s4, Retire, [], how, 0);
    assert After(Apply(s4, Retire, how), [], how) == Apply(s4, Retire, how);
    hide Run, After;
    RunFirst(s3, Publish, [Retire], how, 0);
    RunFirst(s2, SetValue, [Publish, Retire], how, 0);
    RunFirst(s1, Copy, [SetValue, Publish, Retire], how, 0);
    RunFirst(s, Alloc, [Copy, SetValue, Publish, Retire], how, 0);
    es := [Alloc] + [Copy, SetValue, Publish, Retire];
  }

  lemma UpdateSteps(s: State, how: Reclaim) returns (s1: State, s2: State, s3: State, s4: State)
    requires s.updater.Resting? && s.g in s.heap && s.g < s.next && s.next !in s.heap
    ensures Allowed(s, Alloc, how) && s1 == Apply(s, Alloc, how)
    ensures Allowed(s1, Copy, how) && s2 == Apply(s1, Copy, how)
    ensures Allowed(s2, SetValue, how) && s3 == Apply(s2, SetValue, how)
    ensures Allowed(s3, Publish, how) && s4 == Apply(s3, Publish, how) && Allowed(s4, Retire, how)
    ensures var s5 := Apply(s4, Retire, how);
      && s5.g == s.next && s.next in s5.heap && s5.heap[s.next] == s.value && s5.readers == s.readers
      && s.g in s5.grace && s5.grace[s.g] == Active(s.readers)
  {
    s1 := Apply(s, Alloc, how);
    s2 := Apply(s1, Copy, how);
    s3 := Apply(s2, SetValue, how);
    s4 := Apply(s3, Publish, how);
  }

  lemma NextIsNew(s: State, how: Reclaim)
    requires Inv(s, how) && s.updater.Resting?
    ensures s.next !in s.heap && s.g < s.next
  {
    assert forall id :: id in s.heap ==> id in s.hist;
  }

  // ---------- when an object may be freed ----------

  lemma GraceStep(s: State, e: Event, how: Reclaim, id: nat, r: nat)
    requires Inv(s, how) && Allowed(s, e, how) && id in s.grace && e != Free(id)
    ensures id in Apply(s, e, how).grace
    ensures r in Apply(s, e, how).grace[id] <==> r in s.grace[id] && e != Unlock(r)
  {
    hide HistoryOk, ReaderOk;
  }

  lemma {:induction false} GraceLater(s: State, es: seq<Event>, how: Reclaim, id: nat, r: nat)
    requires Inv(s, how) && Run(s, es, how) && id in s.grace && Free(id) !in es
    ensures id in After(s, es, how).grace
    ensures r in After(s, es, how).grace[id] <==> r in s.grace[id] && Unlock(r) !in es
    decreases |es|
  {
    hide Inv, Apply, Allowed;
    if es != [] {
      StepInv(s, es[0], how);
      GraceStep(s, es[0], how, id, r);
      GraceLater(Apply(s, es[0], how), es[1..], how, id, r);
      assert es == [es[0]] + es[1..];
    }
  }

  lemma {:induction false} RunSplit(s: State, a: seq<Event>, b: seq<Event>, how: Reclaim)
    requires Run(s, a + b, how)
    ensures Run(s, a, how) && Run(After(s, a, how), b, how) && After(s, a + b, how) == After(After(s, a, how), b, how)
    decreases |a|
  {
    hide Apply, Allowed;
    if a == [] {
      assert a + b == b;
    } else {
      assert (a + b)[1..] == a[1..] + b;
      RunSplit(Apply(s, a[0], how), a[1..], b, how);
    }
  }

  /** After `before` the updater retires object `id`; `after` happens then, without its being freed. */
  ghost predicate Retired(s: State, before: seq<Event>, after: seq<Event>, how: Reclaim, id: nat)
  {
    && Run(s, before, how) && After(s, before, how).updater == Published(id) && Free(id) !in after
    && Run(s, before + ([Retire] + after), how)
  }

  /**
   * The guard of reclaim, in every run: an object that has been retired and not freed may be freed exactly when every
   * reader that was in its section at that moment has left it since.
   */
  lemma FreeIffAllHaveLeft(s: State, before: seq<Event>, after: seq<Event>, how: Reclaim, id: nat)
    requires Initial(s, how) && Retired(s, before, after, how, id)
    ensures var rs := After(s, before, how).readers;
      Allowed(After(s, before + ([Retire] + after), how), Free(id), how)
      <==> forall r :: 0 <= r < |rs| && rs[r].In? ==> Unlock(r) in after
  {
    hide Inv, Run, After;
    InitialInv(s, how);
    RunSplit(s, before, [Retire] + after, how);
    RunInv(s, before, how);
    var s1 := After(s, before, how);
    RetireFirst(s1, after, how);
    var s2 := Apply(s1, Retire, how);
    StepInv(s1, Retire, how);
    GraceLater(s2, after, how, id, 0);
    forall r ensures r in After(s2, after, how).grace[id] <==> r in s2.grace[id] && Unlock(r) !in after {
      GraceLater(s2, after, how, id, r);
    }
    RunInv(s2, after, how);
    var s3 := After(s2, after, how);
    WaitsForIt(s3, how, id);
    assert s2.grace[id] == Active(s1.readers);
    if s3.grace[id] == {} {
      forall r | 0 <= r < |s1.readers| && s1.readers[r].In? ensures Unlock(r) in after {
        assert r in s2.grace[id] && r !in s3.grace[id];
      }
    }
  }

  lemma RetireFirst(s: State, after: seq<Event>, how: Reclaim)
    requires Run(s, [Retire] + after, how)
    ensures Allowed(s, Retire, how) && Run(Apply(s, Retire, how), after, how)
    ensures After(s, [Retire] + after, how) == After(Apply(s, Retire, how), after, how)
  {
    assert ([Retire] + after)[1..] == after;
  }

  lemma WaitsForIt(s: State, how: Reclaim, id: nat)
    requires Inv(s, how) && id in s.grace
    ensures how == Synchronous ==> s.updater == Waiting(id)
  {
    hide HistoryOk, ReaderOk;
  }
}
