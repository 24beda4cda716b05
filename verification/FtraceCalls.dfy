/** What calls do while hooks are installed: redirection in executions of any shape and depth. */
module FtraceCalls {
  import opened Wrappers
  import opened FtraceHooks

  /** Code that runs: a function of the kernel, or what fh_sys_* does of its own before and after the original. */
  datatype Frame = Original(fn: nat, arg: int) | Before(fn: nat, arg: int) | After(fn: nat, arg: int, ret: int)

  /** What code does next: it makes a call, or it returns. Either way it may have changed the state. */
  datatype Move<S> = Do(fn: nat, arg: int, st: S) | Done(ret: int, st: S)

  /** All code there is: what it does next may depend on the state and on what its calls so far returned. */
  type Code<!S> = (Frame, seq<int>, S) -> Move<S>

  /** What happened: an original body ran, or a replacement ran, with the original inside it. */
  datatype Span =
    | Ran(fn: nat, arg: int, calls: seq<Span>, ret: int)
    | Redirected(fn: nat, before: seq<Span>, inner: Span, after: seq<Span>)

  /** A registered hook has a filter on this address, so entering it runs the thunk. */
  ghost predicate Traced(r: Registry, fn: nat)
  {
    exists i :: i in r.registered && (i, fn) in r.filters
  }

  /** fh_ftrace_thunk: execution is diverted to the replacement unless the caller is in this module. */
  ghost predicate Diverts(r: Registry, fn: nat, fromModule: bool)
  {
    Traced(r, fn) && !fromModule
  }

  function Result(s: Span): int
  {
    match s
    case Ran(_, _, _, ret) => ret
    case Redirected(_, _, inner, _) => Result(inner)
  }

  /**
   * The state a call ends in if `s` is what happens during it, nothing otherwise. The replacement, fh_sys_*, calls
   * the original through its saved address: that is the same entry point, so the thunk sees it again, this time
   * with a caller inside the module.
   */
  ghost function Replay<S>(s: Span, fn: nat, arg: int, st: S, r: Registry, code: Code<S>, fromModule: bool): Option<S>
    decreases s, 0
  {
    match s
    case Ran(f, a, calls, ret) =>
      if f != fn || a != arg || Diverts(r, fn, fromModule) then None
      else
        var end := ReplayCalls(calls, Original(fn, arg), [], st, r, code);
        if end.None? || end.value.0 != ret then None else Some(end.value.1)
    case Redirected(f, before, inner, after) =>
      if f != fn || !Diverts(r, fn, fromModule) then None
      else
        var end1 := ReplayCalls(before, Before(fn, arg), [], st, r, code);
        if end1.None? then None
        else
          var end2 := Replay(inner, fn, arg, end1.value.1, r, code, true);
          if end2.None? then None
          else
            var end3 := ReplayCalls(after, After(fn, arg, Result(inner)), [], end2.value, r, code);
            if end3.None? then None else Some(end3.value.1)
  }

  /** The same for the calls some code has yet to make, those so far having returned `rs`; with what it returns. */
  ghost function ReplayCalls<S>(
      ss: seq<Span>, f: Frame, rs: seq<int>, st: S, r: Registry, code: Code<S>): Option<(int, S)>
    decreases ss, 1
  {
    match code(f, rs, st)
    case Done(ret, st1) => if ss == [] then Some((ret, st1)) else None
    case Do(fn, arg, st1) =>
      if ss == [] then None
      else
        var end := Replay(ss[0], fn, arg, st1, r, code, !f.Original?);
        if end.None? then None else ReplayCalls(ss[1..], f, rs + [Result(ss[0])], end.value, r, code)
  }

  /** A kernel without the module. */
  const NO_HOOKS := Registry({}, {})

  /** What remains visible of a span when the replacements are taken out. */
  function Erase(s: Span): Span
    decreases s, 0
  {
    match s
    case Ran(fn, arg, calls, ret) => Ran(fn, arg, EraseAll(calls), ret)
    case Redirected(_, _, inner, _) => Erase(inner)
  }

  function EraseAll(ss: seq<Span>): seq<Span>
    decreases ss, 1
  {
    if ss == [] then [] else [Erase(ss[0])] + EraseAll(ss[1..])
  }

  /** From one state a call goes one way only. */
  lemma {:induction false} OneExecution<S>(
      s: Span, s': Span, fn: nat, arg: int, st: S, r: Registry, code: Code<S>, fromModule: bool)
    requires Replay(s, fn, arg, st, r, code, fromModule).Some? && Replay(s', fn, arg, st, r, code, fromModule).Some?
    ensures s == s'
    decreases s, 0
  {
    match s
    case Ran(_, _, calls, _) => OneCalls(calls, s'.calls, Original(fn, arg), [], st, r, code);
    case Redirected(_, before, inner, after) =>
      OneCalls(before, s'.before, Before(fn, arg), [], st, r, code);
      var st1 := ReplayCalls(before, Before(fn, arg), [], st, r, code).value.1;
      OneExecution(inner, s'.inner, fn, arg, st1, r, code, true);
      var st2 := Replay(inner, fn, arg, st1, r, code, true).value;
      OneCalls(after, s'.after, After(fn, arg, Result(inner)), [], st2, r, code);
  }

  lemma {:induction false} OneCalls<S>(
      ss: seq<Span>, ss': seq<Span>, f: Frame, rs: seq<int>, st: S, r: Registry, code: Code<S>)
    requires ReplayCalls(ss, f, rs, st, r, code).Some? && ReplayCalls(ss', f, rs, st, r, code).Some?
    ensures ss == ss'
    decreases ss, 1
  {
    if ss != [] {
      var m := code(f, rs, st);
      OneExecution(ss[0], ss'[0], m.fn, m.arg, m.st, r, code, !f.Original?);
      var st2 := Replay(ss[0], m.fn, m.arg, m.st, r, code, !f.Original?).value;
      OneCalls(ss[1..], ss'[1..], f, rs + [Result(ss[0])], st2, r, code);
      assert ss == [ss[0]] + ss[1..] && ss' == [ss'[0]] + ss'[1..];
    }
  }

  // ---------- executing ----------

  /** Making a call, with a bound on the depth of the execution. */
  ghost function Exec<S>(
      fuel: nat, fn: nat, arg: int, st: S, r: Registry, code: Code<S>, fromModule: bool): Option<(Span, S)>
    decreases fuel
  {
    if fuel == 0 then None
    else if Traced(r, fn) && !fromModule then
      var b := ExecCalls(fuel - 1, Before(fn, arg), [], st, r, code);
      if b.None? then None
      else
        var inner := Exec(fuel - 1, fn, arg, b.value.2, r, code, true);
        if inner.None? then None
        else
          var a := ExecCalls(fuel - 1, After(fn, arg, Result(inner.value.0)), [], inner.value.1, r, code);
          if a.None? then None else Some((Redirected(fn, b.value.0, inner.value.0, a.value.0), a.value.2))
    else
      var c := ExecCalls(fuel - 1, Original(fn, arg), [], st, r, code);
      if c.None? then None else Some((Ran(fn, arg, c.value.0, c.value.1), c.value.2))
  }

  /** Running some code to its end: the calls it makes from here on, what it returns, and the state it leaves. */
  ghost function ExecCalls<S>(
      fuel: nat, f: Frame, rs: seq<int>, st: S, r: Registry, code: Code<S>): Option<(seq<Span>, int, S)>
    decreases fuel
  {
    if fuel == 0 then None
    else
      match code(f, rs, st)
      case Done(ret, st1) => Some(([], ret, st1))
      case Do(fn, arg, st1) =>
        var e := Exec(fuel - 1, fn, arg, st1, r, code, !f.Original?);
        if e.None? then None
        else
          var rest := ExecCalls(fuel - 1, f, rs + [Result(e.value.0)], e.value.1, r, code);
          if rest.None? then None else Some(([e.value.0] + rest.value.0, rest.value.1, rest.value.2))
  }

  /** What executing a call produces is what replaying accepts. */
  lemma {:induction false} ExecReplays<S>(
      fuel: nat, fn: nat, arg: int, st: S, r: Registry, code: Code<S>, fromModule: bool)
    requires Exec(fuel, fn, arg, st, r, code, fromModule).Some?
    ensures var (s, end) := Exec(fuel, fn, arg, st, r, code, fromModule).value;
      Replay(s, fn, arg, st, r, code, fromModule) == Some(end)
    decreases fuel
  {
    if Traced(r, fn) && !fromModule {
      var b := ExecCalls(fuel - 1, Before(fn, arg), [], st, r, code).value;
      ExecCallsReplay(fuel - 1, Before(fn, arg), [], st, r, code);
      var inner := Exec(fuel - 1, fn, arg, b.2, r, code, true).value;
      ExecReplays(fuel - 1, fn, arg, b.2, r, code, true);
      ExecCallsReplay(fuel - 1, After(fn, arg, Result(inner.0)), [], inner.1, r, code);
    } else {
      ExecCallsReplay(fuel - 1, Original(fn, arg), [], st, r, code);
    }
  }

  lemma {:induction false} ExecCallsReplay<S>(fuel: nat, f: Frame, rs: seq<int>, st: S, r: Registry, code: Code<S>)
    requires ExecCalls(fuel, f, rs, st, r, code).Some?
    ensures var (ss, ret, end) := ExecCalls(fuel, f, rs, st, r, code).value;
      ReplayCalls(ss, f, rs, st, r, code) == Some((ret, end))
    decreases fuel
  {
    var m := code(f, rs, st);
    if m.Do? {
      var e := Exec(fuel - 1, m.fn, m.arg, m.st, r, code, !f.Original?).value;
      ExecReplays(fuel - 1, m.fn, m.arg, m.st, r, code, !f.Original?);
      var rest := ExecCalls(fuel - 1, f, rs + [Result(e.0)], e.1, r, code).value;
      ExecCallsReplay(fuel - 1, f, rs + [Result(e.0)], e.1, r, code);
      assert ([e.0] + rest.0)[1..] == rest.0;
    }
  }

  function Size(s: Span): nat
    decreases s, 0
  {
    match s
    case Ran(_, _, calls, _) => 1 + SizeAll(calls)
    case Redirected(_, before, inner, after) => 1 + SizeAll(before) + Size(inner) + SizeAll(after)
  }

  function SizeAll(ss: seq<Span>): nat
    decreases ss, 1
  {
    if ss == [] then 1 else 1 + Size(ss[0]) + SizeAll(ss[1..])
  }

  /** And whatever replaying accepts is what executing the call produces, given the depth it needs. */
  lemma {:induction false} ReplayExecs<S>(
      s: Span, fuel: nat, fn: nat, arg: int, st: S, r: Registry, code: Code<S>, fromModule: bool)
    requires Replay(s, fn, arg, st, r, code, fromModule).Some? && fuel >= Size(s)
    ensures Exec(fuel, fn, arg, st, r, code, fromModule) == Some((s, Replay(s, fn, arg, st, r, code, fromModule).value))
    decreases s, 0
  {
    match s
    case Ran(_, _, calls, _) => ReplayCallsExec(calls, fuel - 1, Original(fn, arg), [], st, r, code);
    case Redirected(_, before, inner, after) =>
      ReplayCallsExec(before, fuel - 1, Before(fn, arg), [], st, r, code);
      var st1 := ReplayCalls(before, Before(fn, arg), [], st, r, code).value.1;
      ReplayExecs(inner, fuel - 1, fn, arg, st1, r, code, true);
      var st2 := Replay(inner, fn, arg, st1, r, code, true).value;
      ReplayCallsExec(after, fuel - 1, After(fn, arg, Result(inner)), [], st2, r, code);
  }

  lemma {:induction false} ReplayCallsExec<S>(
      ss: seq<Span>, fuel: nat, f: Frame, rs: seq<int>, st: S, r: Registry, code: Code<S>)
    requires ReplayCalls(ss, f, rs, st, r, code).Some? && fuel >= SizeAll(ss)
    ensures var (ret, end) := ReplayCalls(ss, f, rs, st, r, code).value;
      ExecCalls(fuel, f, rs, st, r, code) == Some((ss, ret, end))
    decreases ss, 1
  {
    if ss != [] {
      var m := code(f, rs, st);
      ReplayExecs(ss[0], fuel - 1, m.fn, m.arg, m.st, r, code, !f.Original?);
      var st1 := Replay(ss[0], m.fn, m.arg, m.st, r, code, !f.Original?).value;
      ReplayCallsExec(ss[1..], fuel - 1, f, rs + [Result(ss[0])], st1, r, code);
      assert ss == [ss[0]] + ss[1..];
    }
  }

  // ---------- the state that counts ----------

  /** The same move, up to what `vis` leaves out of the state. */
  predicate SameMove<S, V(==)>(m: Move<S>, m': Move<S>, vis: S -> V)
  {
    && vis(m.st) == vis(m'.st)
    && match m
       case Do(fn, arg, _) => m'.Do? && m'.fn == fn && m'.arg == arg
       case Done(ret, _) => m'.Done? && m'.ret == ret
  }

  /** No code depends on what `vis` leaves out of the state, or lets it show. */
  ghost predicate Respects<S(!new), V>(code: Code<S>, vis: S -> V)
  {
    forall f, rs, a, b :: vis(a) == vis(b) ==> SameMove(code(f, rs, a), code(f, rs, b), vis)
  }

  /** What replacements do on their own account, log or copy and free a name, would not show without the module. */
  ghost predicate Discreet<S(!new), V>(code: Code<S>, vis: S -> V)
  {
    forall f: Frame, ss, st :: !f.Original? && ReplayCalls(ss, f, [], st, NO_HOOKS, code).Some? ==>
      vis(ReplayCalls(ss, f, [], st, NO_HOOKS, code).value.1) == vis(st)
  }

  /**
   * Hooking preserves meaning: take the replacements out, and the originals that ran, with which arguments, in which
   * order, nested how, and with which results are what happens on a kernel without the module, and so is the
   * visible state at the end. Nothing is assumed of what the replacements do but that it would leave the visible
   * state alone if no function were hooked.
   */
  lemma {:induction false} HookingIsTransparent<S(!new), V>(
      s: Span, fn: nat, arg: int, st: S, st': S, r: Registry, code: Code<S>, vis: S -> V, fromModule: bool)
    requires Respects(code, vis) && Discreet(code, vis) && vis(st) == vis(st')
    requires Replay(s, fn, arg, st, r, code, fromModule).Some?
    ensures Replay(Erase(s), fn, arg, st', NO_HOOKS, code, fromModule).Some?
    ensures vis(Replay(Erase(s), fn, arg, st', NO_HOOKS, code, fromModule).value)
         == vis(Replay(s, fn, arg, st, r, code, fromModule).value)
    ensures Result(Erase(s)) == Result(s)
    decreases s, 0
  {
    match s
    case Ran(_, _, calls, _) =>
      CallsTransparent(calls, Original(fn, arg), [], st, st', r, code, vis);
    case Redirected(_, before, inner, after) =>
      CallsTransparent(before, Before(fn, arg), [], st, st, r, code, vis);
      var st1 := ReplayCalls(before, Before(fn, arg), [], st, r, code).value.1;
      HookingIsTransparent(inner, fn, arg, st1, st', r, code, vis, true);
      var st2 := Replay(inner, fn, arg, st1, r, code, true).value;
      CallsTransparent(after, After(fn, arg, Result(inner)), [], st2, st2, r, code, vis);
      AnyCaller(Erase(inner), fn, arg, st', code, fromModule);
  }

  /** Without the module it does not matter who calls. */
  lemma AnyCaller<S>(s: Span, fn: nat, arg: int, st: S, code: Code<S>, fromModule: bool)
    ensures Replay(s, fn, arg, st, NO_HOOKS, code, fromModule) == Replay(s, fn, arg, st, NO_HOOKS, code, true)
  {
  }

  lemma {:induction false} CallsTransparent<S(!new), V>(
      ss: seq<Span>, f: Frame, rs: seq<int>, st: S, st': S, r: Registry, code: Code<S>, vis: S -> V)
    requires Respects(code, vis) && Discreet(code, vis) && vis(st) == vis(st')
    requires ReplayCalls(ss, f, rs, st, r, code).Some?
    ensures ReplayCalls(EraseAll(ss), f, rs, st', NO_HOOKS, code).Some?
    ensures ReplayCalls(EraseAll(ss), f, rs, st', NO_HOOKS, code).value.0 == ReplayCalls(ss, f, rs, st, r, code).value.0
    ensures vis(ReplayCalls(EraseAll(ss), f, rs, st', NO_HOOKS, code).value.1)
         == vis(ReplayCalls(ss, f, rs, st, r, code).value.1)
    decreases ss, 1
  {
    var m, m' := code(f, rs, st), code(f, rs, st');
    assert SameMove(m, m', vis);
    if ss != [] {
      HookingIsTransparent(ss[0], m.fn, m.arg, m.st, m'.st, r, code, vis, !f.Original?);
      var st1 := Replay(ss[0], m.fn, m.arg, m.st, r, code, !f.Original?).value;
      var st1' := Replay(Erase(ss[0]), m.fn, m.arg, m'.st, NO_HOOKS, code, !f.Original?).value;
      CallsTransparent(ss[1..], f, rs + [Result(ss[0])], st1, st1', r, code, vis);
      assert EraseAll(ss)[0] == Erase(ss[0]) && EraseAll(ss)[1..] == EraseAll(ss[1..]);
    }
  }

  ghost predicate Ends<S>(f: Frame, st: S, r: Registry, code: Code<S>)
  {
    exists ss :: ReplayCalls(ss, f, [], st, r, code).Some?
  }

  /** What replacements do on their own account comes to an end, wherever it starts. */
  ghost predicate OwnCallsEnd<S(!new)>(r: Registry, code: Code<S>)
  {
    forall f: Frame, st :: !f.Original? ==> Ends(f, st, r, code)
  }

  /** So it leads on to a state that looks the same. */
  lemma OwnCallsPass<S(!new), V>(f: Frame, st: S, r: Registry, code: Code<S>, vis: S -> V) returns (ss: seq<Span>)
    requires Respects(code, vis) && Discreet(code, vis) && OwnCallsEnd(r, code) && !f.Original?
    ensures ReplayCalls(ss, f, [], st, r, code).Some? && vis(ReplayCalls(ss, f, [], st, r, code).value.1) == vis(st)
  {
    assert Ends(f, st, r, code);
    ss :| ReplayCalls(ss, f, [], st, r, code).Some?;
    CallsTransparent(ss, f, [], st, st, r, code, vis);
  }

  /** Replacements that do no more than change what nobody sees are such. */
  lemma LoggingIsDiscreet<S(!new), V>(r: Registry, code: Code<S>, vis: S -> V)
    requires forall f: Frame, st :: !f.Original? ==> code(f, [], st).Done? && vis(code(f, [], st).st) == vis(st)
    ensures Discreet(code, vis) && OwnCallsEnd(r, code)
  {
    forall f: Frame, st: S | !f.Original? ensures Ends(f, st, r, code) {
      assert ReplayCalls([], f, [], st, r, code).Some?;
    }
  }

  /** With all of the state visible, nothing is asked of any code. */
  lemma AllIsRespected<S(!new)>(code: Code<S>)
    ensures Respects(code, (st: S) => st)
  {
  }

  /** And conversely: a call that comes to an end without the module comes to the same end with it. */
  lemma {:induction false} HookedCallEnds<S(!new), V>(
      p: Span, fn: nat, arg: int, st: S, st': S, r: Registry, code: Code<S>, vis: S -> V, fromModule: bool)
      returns (s: Span)
    requires Respects(code, vis) && Discreet(code, vis) && OwnCallsEnd(r, code) && vis(st) == vis(st')
    requires Replay(p, fn, arg, st', NO_HOOKS, code, fromModule).Some?
    ensures Replay(s, fn, arg, st, r, code, fromModule).Some? && Erase(s) == p && Result(s) == Result(p)
    ensures vis(Replay(s, fn, arg, st, r, code, fromModule).value)
         == vis(Replay(p, fn, arg, st', NO_HOOKS, code, fromModule).value)
    decreases p, 0
  {
    if Diverts(r, fn, fromModule) {
      var before := OwnCallsPass(Before(fn, arg), st, r, code, vis);
      var st1 := ReplayCalls(before, Before(fn, arg), [], st, r, code).value.1;
      var calls := HookedCallsEnd(p.calls, Original(fn, arg), [], st1, st', r, code, vis);
      var inner := Ran(fn, arg, calls, p.ret);
      var st2 := Replay(inner, fn, arg, st1, r, code, true).value;
      var after := OwnCallsPass(After(fn, arg, p.ret), st2, r, code, vis);
      s := Redirected(fn, before, inner, after);
    } else {
      var calls := HookedCallsEnd(p.calls, Original(fn, arg), [], st, st', r, code, vis);
      s := Ran(fn, arg, calls, p.ret);
    }
  }

  lemma {:induction false} HookedCallsEnd<S(!new), V>(
      ps: seq<Span>, f: Frame, rs: seq<int>, st: S, st': S, r: Registry, code: Code<S>, vis: S -> V)
      returns (ss: seq<Span>)
    requires Respects(code, vis) && Discreet(code, vis) && OwnCallsEnd(r, code) && vis(st) == vis(st')
    requires ReplayCalls(ps, f, rs, st', NO_HOOKS, code).Some?
    ensures ReplayCalls(ss, f, rs, st, r, code).Some? && EraseAll(ss) == ps
    ensures ReplayCalls(ss, f, rs, st, r, code).value.0 == ReplayCalls(ps, f, rs, st', NO_HOOKS, code).value.0
    ensures vis(ReplayCalls(ss, f, rs, st, r, code).value.1) == vis(ReplayCalls(ps, f, rs, st', NO_HOOKS, code).value.1)
    decreases ps, 1
  {
    var m, m' := code(f, rs, st), code(f, rs, st');
    assert SameMove(m, m', vis);
    if ps == [] {
      ss := [];
    } else {
      var s := HookedCallEnds(ps[0], m.fn, m.arg, m.st, m'.st, r, code, vis, !f.Original?);
      var st1 := Replay(s, m.fn, m.arg, m.st, r, code, !f.Original?).value;
      var st1' := Replay(ps[0], m.fn, m.arg, m'.st, NO_HOOKS, code, !f.Original?).value;
      var rest := HookedCallsEnd(ps[1..], f, rs + [Result(s)], st1, st1', r, code, vis);
      ss := [s] + rest;
      assert ss[0] == s && ss[1..] == rest;
    }
  }

  // ---------- once per call ----------

  /**
   * A traced function called from outside the module runs its replacement once, and inside it its
   * original once; called from inside the module it just runs. No replacement ever runs for the
   * call a replacement makes, so the redirection does not recurse.
   */
  ghost predicate Orderly(s: Span, r: Registry, fromModule: bool)
    decreases s, 0
  {
    match s
    case Ran(fn, _, calls, _) => !Diverts(r, fn, fromModule) && AllOrderly(calls, r, false)
    case Redirected(fn, before, inner, after) =>
      && Diverts(r, fn, fromModule) && inner.Ran? && inner.fn == fn && Orderly(inner, r, true)
      && AllOrderly(before, r, true) && AllOrderly(after, r, true)
  }

  ghost predicate AllOrderly(ss: seq<Span>, r: Registry, fromModule: bool)
    decreases ss, 1
  {
    ss == [] || (Orderly(ss[0], r, fromModule) && AllOrderly(ss[1..], r, fromModule))
  }

  lemma {:induction false} RedirectionIsOrderly<S>(
      s: Span, fn: nat, arg: int, st: S, r: Registry, code: Code<S>, fromModule: bool)
    requires Replay(s, fn, arg, st, r, code, fromModule).Some?
    ensures Orderly(s, r, fromModule) && s.fn == fn
    ensures s.Redirected? <==> !fromModule && exists i :: i in r.registered && (i, fn) in r.filters
    decreases s, 0
  {
    match s
    case Ran(_, _, calls, _) => CallsAreOrderly(calls, Original(fn, arg), [], st, r, code);
    case Redirected(_, before, inner, after) =>
      CallsAreOrderly(before, Before(fn, arg), [], st, r, code);
      var st1 := ReplayCalls(before, Before(fn, arg), [], st, r, code).value.1;
      RedirectionIsOrderly(inner, fn, arg, st1, r, code, true);
      var st2 := Replay(inner, fn, arg, st1, r, code, true).value;
      CallsAreOrderly(after, After(fn, arg, Result(inner)), [], st2, r, code);
  }

  lemma {:induction false} CallsAreOrderly<S>(ss: seq<Span>, f: Frame, rs: seq<int>, st: S, r: Registry, code: Code<S>)
    requires ReplayCalls(ss, f, rs, st, r, code).Some?
    ensures AllOrderly(ss, r, !f.Original?)
    decreases ss, 1
  {
    if ss != [] {
      var m := code(f, rs, st);
      RedirectionIsOrderly(ss[0], m.fn, m.arg, m.st, r, code, !f.Original?);
      var st1 := Replay(ss[0], m.fn, m.arg, m.st, r, code, !f.Original?).value;
      CallsAreOrderly(ss[1..], f, rs + [Result(ss[0])], st1, r, code);
    }
  }

  /** Runs of the replacement of `f`, and runs of its original, in a span. */
  function Replacements(s: Span, f: nat): nat
    decreases s, 0
  {
    match s
    case Ran(_, _, calls, _) => AllReplacements(calls, f)
    case Redirected(fn, before, inner, after) =>
      (if fn == f then 1 else 0) + AllReplacements(before, f) + Replacements(inner, f) + AllReplacements(after, f)
  }

  function AllReplacements(ss: seq<Span>, f: nat): nat
    decreases ss, 1
  {
    if ss == [] then 0 else Replacements(ss[0], f) + AllReplacements(ss[1..], f)
  }

  function Originals(s: Span, f: nat): nat
    decreases s, 0
  {
    match s
    case Ran(fn, _, calls, _) => (if fn == f then 1 else 0) + AllOriginals(calls, f)
    case Redirected(_, before, inner, after) => AllOriginals(before, f) + Originals(inner, f) + AllOriginals(after, f)
  }

  function AllOriginals(ss: seq<Span>, f: nat): nat
    decreases ss, 1
  {
    if ss == [] then 0 else Originals(ss[0], f) + AllOriginals(ss[1..], f)
  }

  /** Runs of the original of `f` for calls the module makes on its own account, not to continue a redirected call. */
  function OwnCalls(s: Span, f: nat, fromModule: bool): nat
    decreases s, 0
  {
    match s
    case Ran(fn, _, calls, _) => (if fromModule && fn == f then 1 else 0) + AllOwnCalls(calls, f, false)
    case Redirected(_, before, inner, after) =>
      AllOwnCalls(before, f, true) + OwnCalls(inner, f, false) + AllOwnCalls(after, f, true)
  }

  function AllOwnCalls(ss: seq<Span>, f: nat, fromModule: bool): nat
    decreases ss, 1
  {
    if ss == [] then 0 else OwnCalls(ss[0], f, fromModule) + AllOwnCalls(ss[1..], f, fromModule)
  }

  lemma {:induction false} OrderlyCounts(s: Span, r: Registry, f: nat, fromModule: bool)
    requires Traced(r, f) && Orderly(s, r, fromModule)
    ensures Originals(s, f) == Replacements(s, f) + OwnCalls(s, f, fromModule)
    decreases s, 0
  {
    match s
    case Ran(_, _, calls, _) => AllOrderlyCounts(calls, r, f, false);
    case Redirected(_, before, inner, after) =>
      AllOrderlyCounts(inner.calls, r, f, false);
      AllOrderlyCounts(before, r, f, true);
      AllOrderlyCounts(after, r, f, true);
  }

  lemma {:induction false} AllOrderlyCounts(ss: seq<Span>, r: Registry, f: nat, fromModule: bool)
    requires Traced(r, f) && AllOrderly(ss, r, fromModule)
    ensures AllOriginals(ss, f) == AllReplacements(ss, f) + AllOwnCalls(ss, f, fromModule)
    decreases ss, 1
  {
    if ss != [] {
      OrderlyCounts(ss[0], r, f, fromModule);
      AllOrderlyCounts(ss[1..], r, f, fromModule);
    }
  }

  /**
   * Over a whole execution, the original of a traced function runs once for each run of its replacement,
   * and for the module's own calls.
   */
  lemma OncePerCall<S>(s: Span, fn: nat, arg: int, st: S, r: Registry, code: Code<S>, f: nat, fromModule: bool)
    requires Traced(r, f) && Replay(s, fn, arg, st, r, code, fromModule).Some?
    ensures Originals(s, f) == Replacements(s, f) + OwnCalls(s, f, fromModule)
  {
    RedirectionIsOrderly(s, fn, arg, st, r, code, fromModule);
    OrderlyCounts(s, r, f, fromModule);
  }

  lemma {:induction false} OrderlyUnhooked(s: Span, r: Registry, f: nat, fromModule: bool)
    requires Orderly(s, r, fromModule) && forall i :: i in r.registered ==> (i, f) !in r.filters
    ensures Replacements(s, f) == 0
    decreases s, 0
  {
    match s
    case Ran(_, _, calls, _) => AllOrderlyUnhooked(calls, r, f, false);
    case Redirected(_, before, inner, after) =>
      AllOrderlyUnhooked(before, r, f, true);
      OrderlyUnhooked(inner, r, f, true);
      AllOrderlyUnhooked(after, r, f, true);
  }

  lemma {:induction false} AllOrderlyUnhooked(ss: seq<Span>, r: Registry, f: nat, fromModule: bool)
    requires AllOrderly(ss, r, fromModule) && forall i :: i in r.registered ==> (i, f) !in r.filters
    ensures AllReplacements(ss, f) == 0
    decreases ss, 1
  {
    if ss != [] {
      OrderlyUnhooked(ss[0], r, f, fromModule);
      AllOrderlyUnhooked(ss[1..], r, f, fromModule);
    }
  }

  /** A function that no registered hook has a filter on is never replaced, in no execution of anything. */
  lemma UnhookedIsLeftAlone<S>(s: Span, fn: nat, arg: int, st: S, r: Registry, code: Code<S>, f: nat, fromModule: bool)
    requires Replay(s, fn, arg, st, r, code, fromModule).Some?
    requires forall i :: i in r.registered ==> (i, f) !in r.filters
    ensures Replacements(s, f) == 0
  {
    RedirectionIsOrderly(s, fn, arg, st, r, code, fromModule);
    OrderlyUnhooked(s, r, f, fromModule);
  }

  // ---------- with the hook manager ----------

  /**
   * Once all hooks are installed on a kernel without any, a call is redirected exactly when its address is one of
   * those resolved and the caller is outside the module; and in no execution is anything else ever replaced.
   */
  lemma ExactlyTheHooked<S>(s: Span, fn: nat, arg: int, st: S, k: Kernel, code: Code<S>, f: nat, fromModule: bool)
    requires ForHooks(k, |k.address|)
    requires Replay(s, fn, arg, st, WithHooks(NO_HOOKS, k, |k.address|), code, fromModule).Some?
    ensures s.Redirected? <==> fn in k.address && !fromModule
    ensures Replacements(s, f) > 0 ==> f in k.address
  {
    hide WithHooks, Replay;
    var r := WithHooks(NO_HOOKS, k, |k.address|);
    RedirectionIsOrderly(s, fn, arg, st, r, code, fromModule);
    InstalledTraces(NO_HOOKS, k, fn);
    InstalledTraces(NO_HOOKS, k, f);
    if f !in k.address { UnhookedIsLeftAlone(s, fn, arg, st, r, code, f, fromModule); }
  }

  /**
   * Once all hooks are installed, exactly the addresses they resolved to are traced, besides those traced before and
   * those of filters left from earlier that now have their hook registered.
   */
  lemma InstalledTraces(r: Registry, k: Kernel, fn: nat)
    requires ForHooks(k, |k.address|)
    ensures Traced(WithHooks(r, k, |k.address|), fn)
       <==> Traced(r, fn) || fn in k.address || exists i :: 0 <= i < |k.address| && (i, fn) in r.filters
  {
    var n := |k.address|;
    var w := WithHooks(r, k, n);
    if fn in k.address {
      var i :| 0 <= i < n && k.address[i] == fn;
      assert i in Upto(n) && (i, fn) in FiltersOf(k, Upto(n));
      assert i in w.registered && (i, fn) in w.filters;
    } else if Traced(r, fn) {
      var i :| i in r.registered && (i, fn) in r.filters;
      assert i in w.registered && (i, fn) in w.filters;
    } else if i :| 0 <= i < n && (i, fn) in r.filters {
      assert i in w.registered && (i, fn) in w.filters;
    }
  }
}
