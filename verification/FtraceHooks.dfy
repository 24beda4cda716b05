/** The ftrace hook manager: installing and removing hooks, and what hooked calls do. */
module FtraceHooks {

  const ENOENT: int := -2

  // ---------- installing and removing ----------

  /** ftrace's own state, as far as the hooks change it: filters by (ops, address), and ops registered. */
  datatype Registry = Registry(filters: set<(nat, nat)>, registered: set<nat>)

  /**
   * How the kernel's calls turn out for each hook: symbol addresses (0 when unresolved) and error codes (0 for
   * success).
   */
  datatype Kernel = Kernel(address: seq<nat>, setErr: seq<int>, regErr: seq<int>, unregErr: seq<int>,
      clearErr: seq<int>)

  predicate ForHooks(k: Kernel, n: nat)
  {
    |k.address| == |k.setErr| == |k.regErr| == |k.unregErr| == |k.clearErr| == n
  }

  /** The error installing hook `i` runs into, or 0. */
  function InstallError(k: Kernel, i: nat): int
    requires ForHooks(k, |k.address|) && i < |k.address|
  {
    if k.address[i] == 0 then ENOENT else if k.setErr[i] != 0 then k.setErr[i] else k.regErr[i]
  }

  /** What goes wrong for a hook with this address: it has none, or setting its filter or registering it fails. */
  predicate ErrorOf(address: nat, setErr: int, regErr: int, err: int)
  {
    || (address == 0 && err == -2)
    || (address != 0 && setErr != 0 && err == setErr)
    || (address != 0 && setErr == 0 && regErr != 0 && err == regErr)
  }

  /** When hooks are installed, and which error comes out when one is not, said of every hook by itself. */
  lemma FailureIs(k: Kernel)
    requires ForHooks(k, |k.address|)
    ensures var f := FirstFailure(k, 0);
      && (forall i :: 0 <= i < f ==> k.address[i] != 0 && k.setErr[i] == 0 && k.regErr[i] == 0)
      && (f < |k.address| ==> ErrorOf(k.address[f], k.setErr[f], k.regErr[f], InstallError(k, f)))
  {
    var f := FirstFailure(k, 0);
    forall i | 0 <= i < f ensures k.address[i] != 0 && k.setErr[i] == 0 && k.regErr[i] == 0 {
      assert InstallError(k, i) == 0;
    }
  }

  lemma WithAllHooks(r: Registry, k: Kernel)
    ensures forall x: nat :: x in WithHooks(r, k, |k.address|).registered <==> x in r.registered || x < |k.address|
    ensures WithHooks(r, k, |k.address|).filters
      == r.filters + set i | 0 <= i < |k.address| :: (i, k.address[i])
  {
    var n := |k.address|;
    assert FiltersOf(k, Upto(n)) == set i | 0 <= i < n :: (i, k.address[i]);
  }

  /** The first hook at or after `i` that fails to install, or the number of hooks. */
  function FirstFailure(k: Kernel, i: nat): (r: nat)
    requires ForHooks(k, |k.address|) && i <= |k.address|
    ensures i <= r <= |k.address|
    ensures r < |k.address| ==> InstallError(k, r) != 0
    ensures forall j :: i <= j < r ==> InstallError(k, j) == 0
    decreases |k.address| - i
  {
    if i == |k.address| || InstallError(k, i) != 0 then i else FirstFailure(k, i + 1)
  }

  /** None of these hooks is known to ftrace yet. */
  predicate Untouched(r: Registry, n: nat)
  {
    (forall i :: 0 <= i < n ==> i !in r.registered) && (forall f :: f in r.filters ==> f.0 >= n)
  }

  function Upto(n: nat): (s: set<nat>)
    ensures forall i :: i in s <==> 0 <= i < n
  {
    if n == 0 then {} else Upto(n - 1) + {n - 1}
  }

  function FiltersOf(k: Kernel, s: set<nat>): set<(nat, nat)>
    requires forall i :: i in s ==> i < |k.address|
  {
    set i | i in s :: (i, k.address[i])
  }

  /** The registry with the first `n` hooks in place. */
  function WithHooks(r: Registry, k: Kernel, n: nat): Registry
    requires n <= |k.address|
  {
    Registry(r.filters + FiltersOf(k, Upto(n)), r.registered + Upto(n))
  }

  /** Hooks below `n` whose `unregister_ftrace_function` fails. */
  function StuckOps(k: Kernel, n: nat): set<nat>
    requires ForHooks(k, |k.address|) && n <= |k.address|
  {
    set i | i in Upto(n) && k.unregErr[i] != 0
  }

  /** The filter of hook `i` is set when the first `n` hooks are installed and hook `n` fails. */
  predicate FilterSet(k: Kernel, n: nat, i: nat)
    requires ForHooks(k, |k.address|) && i < |k.address|
  {
    i < n || (i == n && k.address[i] != 0 && k.setErr[i] == 0)
  }

  /** Hooks whose filter is set then, and cannot be cleared, or is cleared, again. */
  function StuckFilters(k: Kernel, n: nat): set<nat>
    requires ForHooks(k, |k.address|) && n <= |k.address|
  {
    set i | i in Upto(|k.address|) && FilterSet(k, n, i) && k.clearErr[i] != 0
  }

  function LostFilters(k: Kernel, n: nat): set<nat>
    requires ForHooks(k, |k.address|) && n <= |k.address|
  {
    set i | i in Upto(|k.address|) && FilterSet(k, n, i) && k.clearErr[i] == 0
  }

  /** The registry after hook `i` has failed to install: its filter may have been set, and cleared again. */
  function Failed(r: Registry, k: Kernel, i: nat): Registry
    requires ForHooks(k, |k.address|) && i < |k.address|
  {
    if k.address[i] == 0 || k.setErr[i] != 0 then r
    else if k.clearErr[i] == 0 then r.(filters := r.filters - {(i, k.address[i])})
    else r.(filters := r.filters + {(i, k.address[i])})
  }

  /** What `fh_install_hooks` leaves behind when hook `n` is the first to fail. */
  function Unwound(r: Registry, k: Kernel, n: nat): Registry
    requires ForHooks(k, |k.address|) && n < |k.address|
  {
    Removed(Failed(WithHooks(r, k, n), k, n), k, n)
  }

  /** Hooks below `n` whose removal from the registered ops, or from the filters, goes through. */
  function Unregistered(k: Kernel, n: nat): set<nat>
    requires ForHooks(k, |k.address|) && n <= |k.address|
  {
    set i | i in Upto(n) && k.unregErr[i] == 0
  }

  function Cleared(k: Kernel, n: nat): set<nat>
    requires ForHooks(k, |k.address|) && n <= |k.address|
  {
    set i | i in Upto(n) && k.clearErr[i] == 0
  }

  /** The registry after an attempt to remove the first `n` hooks. */
  function Removed(r: Registry, k: Kernel, n: nat): Registry
    requires ForHooks(k, |k.address|) && n <= |k.address|
  {
    Registry(r.filters - FiltersOf(k, Cleared(k, n)), r.registered - Unregistered(k, n))
  }

  lemma RemoveOne(r: Registry, k: Kernel, i: nat)
    requires ForHooks(k, |k.address|) && i < |k.address|
    ensures Removed(r, k, i + 1)
         == Registry(Removed(r, k, i).filters - (if k.clearErr[i] == 0 then {(i, k.address[i])} else {}),
                     Removed(r, k, i).registered - (if k.unregErr[i] == 0 then {i} else {}))
  {
    var a, b := Removed(r, k, i), Removed(r, k, i + 1);
    assert Cleared(k, i + 1) == Cleared(k, i) + (if k.clearErr[i] == 0 then {i} else {});
    assert Unregistered(k, i + 1) == Unregistered(k, i) + (if k.unregErr[i] == 0 then {i} else {});
  }

  lemma InstallOne(r: Registry, k: Kernel, i: nat)
    requires i < |k.address|
    ensures WithHooks(r, k, i + 1)
         == Registry(WithHooks(r, k, i).filters + {(i, k.address[i])}, WithHooks(r, k, i).registered + {i})
  {
    assert FiltersOf(k, Upto(i + 1)) == FiltersOf(k, Upto(i)) + {(i, k.address[i])};
  }

  /**
   * What a failed installation leaves of any registry: everything it could remove is gone, whoever had put it there,
   * and everything it could not remove stays.
   */
  lemma UnwindLeaves(r: Registry, k: Kernel, n: nat)
    requires ForHooks(k, |k.address|) && n < |k.address|
    ensures Unwound(r, k, n)
      == Registry((r.filters - FiltersOf(k, LostFilters(k, n))) + FiltersOf(k, StuckFilters(k, n)),
                                         (r.registered - Unregistered(k, n)) + StuckOps(k, n))
  {
    var lhs, rhs := Unwound(r, k, n).filters, (r.filters - FiltersOf(k, LostFilters(k, n))) + FiltersOf(k, StuckFilters(k, n));
    forall f: (nat, nat) ensures f in lhs <==> f in rhs {
      FilterLeft(r, k, n, f);
      if f.0 < |k.address| && f.1 == k.address[f.0] {
        assert f in FiltersOf(k, LostFilters(k, n)) <==> f.0 in LostFilters(k, n);
        assert f in FiltersOf(k, StuckFilters(k, n)) <==> f.0 in StuckFilters(k, n);
      }
    }
    assert Unwound(r, k, n).registered == (r.registered - Unregistered(k, n)) + StuckOps(k, n);
  }

  /** One filter after a failed installation. */
  lemma FilterLeft(r: Registry, k: Kernel, n: nat, f: (nat, nat))
    requires ForHooks(k, |k.address|) && n < |k.address|
    ensures f in Unwound(r, k, n).filters
       <==> if f.0 < |k.address| && f.1 == k.address[f.0] && FilterSet(k, n, f.0)
            then k.clearErr[f.0] != 0 else f in r.filters
  {
    var w := WithHooks(r, k, n);
    assert f in FiltersOf(k, Upto(n)) <==> f.0 < n && f.1 == k.address[f.0];
    assert f in FiltersOf(k, Cleared(k, n)) <==> f.0 < n && f.1 == k.address[f.0] && k.clearErr[f.0] == 0;
  }

  lemma NoneYet(r: Registry, k: Kernel)
    ensures WithHooks(r, k, 0) == r
  {
  }

  lemma FailureStep(k: Kernel, i: nat)
    requires ForHooks(k, |k.address|) && i <= |k.address|
    ensures FirstFailure(k, i) == if i == |k.address| || InstallError(k, i) != 0 then i else FirstFailure(k, i + 1)
  {
  }

  /** The order of removal does not matter. */
  lemma RemoveAgain(r: Registry, k: Kernel, i: nat)
    requires ForHooks(k, |k.address|) && i < |k.address|
    ensures Removed(Registry(r.filters - (if k.clearErr[i] == 0 then {(i, k.address[i])} else {}),
                             r.registered - (if k.unregErr[i] == 0 then {i} else {})), k, i)
         == Removed(r, k, i + 1)
  {
    RemoveOne(r, k, i);
  }

  /** Removing hook `i` puts its registration, or its filter, back to what it was in `r`. */
  predicate OpsBack(r: Registry, k: Kernel, i: nat)
    requires ForHooks(k, |k.address|) && i < |k.address|
  {
    k.unregErr[i] != 0 <==> i in r.registered
  }

  predicate FilterBack(r: Registry, k: Kernel, i: nat)
    requires ForHooks(k, |k.address|) && i < |k.address|
  {
    k.clearErr[i] != 0 <==> (i, k.address[i]) in r.filters
  }

  /**
   * All or nothing, for every registry: a failed installation leaves it exactly as it was if and only if, of the hooks
   * before the one that failed, those that ftrace did not know are removed and those that it did know are not; and
   * likewise for the filter of the hook that failed, if it was set.
   */
  lemma RestoredIff(r: Registry, k: Kernel)
    requires ForHooks(k, |k.address|) && FirstFailure(k, 0) < |k.address|
    ensures var f := FirstFailure(k, 0);
      Unwound(r, k, f) == r
      <==> (forall i :: 0 <= i < f ==> OpsBack(r, k, i) && FilterBack(r, k, i))
           && (k.address[f] != 0 && k.setErr[f] == 0 ==> FilterBack(r, k, f))
  {
    var f := FirstFailure(k, 0);
    var u := Unwound(r, k, f);
    assert forall i: nat :: i in u.registered <==> if i < f then k.unregErr[i] != 0 else i in r.registered;
    forall x: (nat, nat) ensures x in u.filters
      <==> if x.0 < |k.address| && x.1 == k.address[x.0] && FilterSet(k, f, x.0)
           then k.clearErr[x.0] != 0 else x in r.filters
    {
      FilterLeft(r, k, f, x);
    }
    hide Unwound;
    if u == r {
      forall i | 0 <= i < |k.address| && FilterSet(k, f, i) ensures FilterBack(r, k, i) {
        assert (i, k.address[i]) in u.filters <==> k.clearErr[i] != 0;
      }
    } else {
      assert u.registered != r.registered || u.filters != r.filters;
      if u.registered != r.registered {
        var i: nat :| i in u.registered <==> i !in r.registered;
        assert i < f && !OpsBack(r, k, i);
      } else {
        var x: (nat, nat) :| x in u.filters <==> x !in r.filters;
        assert x.0 < |k.address| && FilterSet(k, f, x.0) && !FilterBack(r, k, x.0);
      }
    }
  }

  /**
   * Every removal made after hook `f` has failed goes through: of the hooks before it, and of its own filter if that
   * was set.
   */
  predicate RemovalsSucceed(k: Kernel, f: nat)
    requires ForHooks(k, |k.address|) && f < |k.address|
  {
    && (forall i :: 0 <= i < f ==> k.unregErr[i] == 0 && k.clearErr[i] == 0)
    && (k.address[f] != 0 && k.setErr[f] == 0 ==> k.clearErr[f] == 0)
  }

  /** For hooks that ftrace does not know yet, that is when every removal it had to make went through. */
  lemma NewHooksRestoredIff(r: Registry, k: Kernel)
    requires ForHooks(k, |k.address|) && Untouched(r, |k.address|) && FirstFailure(k, 0) < |k.address|
    ensures Unwound(r, k, FirstFailure(k, 0)) == r <==> RemovalsSucceed(k, FirstFailure(k, 0))
  {
    RestoredIff(r, k);
    forall i | 0 <= i < |k.address|
      ensures (OpsBack(r, k, i) <==> k.unregErr[i] == 0) && (FilterBack(r, k, i) <==> k.clearErr[i] == 0)
    {
      assert (i, k.address[i]) !in r.filters;
    }
  }

  /**
   * A hook that is already installed is lost, although every removal goes through: registering it again fails, and
   * the code clears the filter that it had not added.
   */
  lemma KnownHookIsLost(address: nat, busy: int)
    requires address != 0 && busy != 0
    ensures var k := Kernel([address], [0], [busy], [0], [0]); var r := Registry({(0, address)}, {0});
      && ForHooks(k, |k.address|) && FirstFailure(k, 0) == 0 && RemovalsSucceed(k, 0)
      && Unwound(r, k, 0) == Registry({}, {0}) != r
  {
    var k := Kernel([address], [0], [busy], [0], [0]);
    var r := Registry({(0, address)}, {0});
    NoneYet(r, k);
    NoneRemoved(Registry({}, {0}), k);
    assert Failed(r, k, 0) == Registry({}, {0});
    assert {(0, address)} != {};
  }

  /**
   * Installing all hooks and removing them again restores a registry exactly when all it did not know are removed, and
   * no others.
   */
  lemma InstallRemoveRoundTripIff(r: Registry, k: Kernel)
    requires ForHooks(k, |k.address|)
    ensures Removed(WithHooks(r, k, |k.address|), k, |k.address|) == r
       <==> forall i :: 0 <= i < |k.address| ==> OpsBack(r, k, i) && FilterBack(r, k, i)
  {
    var n := |k.address|;
    var u := Removed(WithHooks(r, k, n), k, n);
    assert forall i: nat :: i in u.registered <==> if i < n then k.unregErr[i] != 0 else i in r.registered;
    forall x: (nat, nat) ensures x in u.filters
      <==> if x.0 < n && x.1 == k.address[x.0] then k.clearErr[x.0] != 0 else x in r.filters {
      assert x in FiltersOf(k, Upto(n)) <==> x.0 < n && x.1 == k.address[x.0];
      assert x in FiltersOf(k, Cleared(k, n)) <==> x.0 < n && x.1 == k.address[x.0] && k.clearErr[x.0] == 0;
    }
    hide Removed, WithHooks;
    if u == r {
      forall i | 0 <= i < n ensures FilterBack(r, k, i) {
        assert (i, k.address[i]) in u.filters <==> k.clearErr[i] != 0;
      }
    } else if u.registered != r.registered {
      var i: nat :| i in u.registered <==> i !in r.registered;
      assert i < n && !OpsBack(r, k, i);
    } else {
      assert u.filters != r.filters;
      var x: (nat, nat) :| x in u.filters <==> x !in r.filters;
      assert x.0 < n && !FilterBack(r, k, x.0);
    }
  }

  class HookManager {
    var filters: set<(nat, nat)>
    var registered: set<nat>
    var address: seq<nat>       // hook->address
    var original: seq<nat>      // *hook->original

    ghost function State(): Registry
      reads this
    {
      Registry(filters, registered)
    }

    constructor (n: nat, initial: Registry)
      ensures State() == initial && |address| == |original| == n
    {
      filters, registered := initial.filters, initial.registered;
      address, original := seq(n, _ => 0), seq(n, _ => 0);
    }

    /** fh_install_hook */
    method InstallHook(i: nat, k: Kernel) returns (err: int)
      requires ForHooks(k, |address|) && i < |address| == |original|
      modifies this
      ensures err == InstallError(k, i)
      ensures err == 0 <==> k.address[i] != 0 && k.setErr[i] == 0 && k.regErr[i] == 0
      ensures k.address[i] == 0 ==> err == -2
      ensures k.address[i] != 0 && k.setErr[i] != 0 ==> err == k.setErr[i] && State() == old(State())
      ensures k.address[i] != 0 && k.setErr[i] == 0 ==> err == k.regErr[i]
      ensures address == old(address)[i := k.address[i]]
      ensures original == if k.address[i] == 0 then old(original) else old(original)[i := k.address[i]]
      ensures err == 0 ==> State() == Registry(old(filters) + {(i, k.address[i])}, old(registered) + {i})
      ensures err != 0 ==> State() == Failed(old(State()), k, i) && registered == old(registered)
    {
      address := address[i := k.address[i]];
      if address[i] == 0 { return ENOENT; }
      original := original[i := address[i]];
      err := k.setErr[i];
      if err != 0 { return; }
      filters := filters + {(i, address[i])};
      err := k.regErr[i];
      if err != 0 {
        if k.clearErr[i] == 0 { filters := filters - {(i, address[i])}; }
        return;
      }
      registered := registered + {i};
    }

    /** fh_remove_hook: failures are only logged. */
    method RemoveHook(i: nat, k: Kernel)
      requires ForHooks(k, |address|) && i < |address|
      modifies this`filters, this`registered
      ensures registered == old(registered) - (if k.unregErr[i] == 0 then {i} else {})
      ensures filters == old(filters) - (if k.clearErr[i] == 0 then {(i, address[i])} else {})
    {
      if k.unregErr[i] == 0 { registered := registered - {i}; }
      if k.clearErr[i] == 0 { filters := filters - {(i, address[i])}; }
    }

    /** fh_install_hooks */
    method InstallHooks(k: Kernel) returns (err: int)
      requires ForHooks(k, |address|) && |address| == |original|
      modifies this
      ensures |address| == old(|address|)
      ensures var f := FirstFailure(k, 0);
        if f == |address| then err == 0 && State() == WithHooks(old(State()), k, |address|)
          && address == original == k.address
        else err == InstallError(k, f) != 0 && State() == Unwound(old(State()), k, f)
      ensures err == 0 <==>
        forall i :: 0 <= i < |k.address| ==> k.address[i] != 0 && k.setErr[i] == 0 && k.regErr[i] == 0
      ensures err == 0 ==> forall x: nat :: x in registered <==> x in old(registered) || x < |k.address|
      ensures err == 0 ==> filters == old(filters) + (set i | 0 <= i < |k.address| :: (i, k.address[i]))
      ensures err != 0 ==>
        exists f :: 0 <= f < |k.address|
          && (forall i :: 0 <= i < f ==> k.address[i] != 0 && k.setErr[i] == 0 && k.regErr[i] == 0)
          && ErrorOf(k.address[f], k.setErr[f], k.regErr[f], err)
    {
      hide WithHooks, Removed, Failed, FirstFailure;
      ghost var was := State();
      var n := |address|;
      var i := 0;
      err := 0;
      FailureIs(k);
      WithAllHooks(was, k);
      NoneYet(was, k);
      while i < n
        invariant i <= n == |address| == |original| && FirstFailure(k, 0) == FirstFailure(k, i)
        invariant State() == WithHooks(was, k, i)
        invariant forall j :: 0 <= j < i ==> address[j] == original[j] == k.address[j]
        invariant err == 0
      {
        InstallOne(was, k, i);
        FailureStep(k, i);
        err := InstallHook(i, k);
        if err != 0 {
          Unwind(i, k);
          return;
        }
        i := i + 1;
      }
      FailureStep(k, n);
    }

    /** The error path of fh_install_hooks: remove the hooks below `count`, last one first. */
    method Unwind(count: nat, k: Kernel)
      requires ForHooks(k, |address|) && count <= |address| && forall j :: 0 <= j < count ==> address[j] == k.address[j]
      modifies this`filters, this`registered
      ensures State() == Removed(old(State()), k, count)
    {
      var i := count;
      while i != 0
        invariant 0 <= i <= count && Removed(State(), k, i) == Removed(old(State()), k, count)
      {
        i := i - 1;
        ghost var before := State();
        RemoveHook(i, k);
        RemoveAgain(before, k, i);
      }
    }

    /** fh_remove_hooks */
    method RemoveHooks(k: Kernel)
      requires ForHooks(k, |address|) && address == k.address
      modifies this`filters, this`registered
      ensures State() == Removed(old(State()), k, |address|)
      ensures registered == old(registered) - set i | 0 <= i < |address| && k.unregErr[i] == 0
      ensures filters == old(filters) - set i | 0 <= i < |address| && k.clearErr[i] == 0 :: (i, k.address[i])
    {
      hide Removed;
      NoneRemoved(State(), k);
      var i := 0;
      while i < |address|
        invariant i <= |address| && State() == Removed(old(State()), k, i)
      {
        RemoveOne(old(State()), k, i);
        RemoveHook(i, k);
        i := i + 1;
      }
      AllRemoved(old(State()), k);
    }
  }

  lemma AllRemoved(r: Registry, k: Kernel)
    requires ForHooks(k, |k.address|)
    ensures Removed(r, k, |k.address|).registered == r.registered - set i | 0 <= i < |k.address| && k.unregErr[i] == 0
    ensures Removed(r, k, |k.address|).filters
      == r.filters - set i | 0 <= i < |k.address| && k.clearErr[i] == 0 :: (i, k.address[i])
  {
    var n := |k.address|;
    assert Unregistered(k, n) == set i | 0 <= i < n && k.unregErr[i] == 0;
    assert FiltersOf(k, Cleared(k, n)) == set i | 0 <= i < n && k.clearErr[i] == 0 :: (i, k.address[i]);
  }

  lemma NoneRemoved(r: Registry, k: Kernel)
    requires ForHooks(k, |k.address|)
    ensures Removed(r, k, 0) == r
  {
  }
}
