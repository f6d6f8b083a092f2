/** Inlining pure functions into an expression until no call to one of them is left. */
module PerformInline {
  import opened Options

  /** Inlined bodies see their own parameters only; a function that is not inlined is called. */
  datatype Expr =
    | Const(value: int)
    | Var(name: string)
    | Op(op: string, args: seq<Expr>)
    | Call(name: string, args: seq<Expr>)
    | Let(params: seq<string>, args: seq<Expr>, body: Expr)

  /** A pure function: its arguments and its value. */
  datatype Func = Func(args: seq<string>, value: Expr)

  type Values = map<string, int>

  /** What operators and functions compute. */
  datatype Meaning = Meaning(ops: (string, seq<int>) -> int, funcs: (string, seq<int>) -> int)

  function Bind(params: seq<string>, values: seq<int>): Values {
    if params == [] || values == [] then map[] else Bind(params[1..], values[1..])[params[0] := values[0]]
  }

  function Eval(e: Expr, vars: Values, m: Meaning): int {
    match e
    case Const(n) => n
    case Var(x) => if x in vars then vars[x] else 0
    case Op(op, args) => m.ops(op, EvalAll(args, vars, m))
    case Call(f, args) => m.funcs(f, EvalAll(args, vars, m))
    case Let(params, args, body) => Eval(body, Bind(params, EvalAll(args, vars, m)), m)
  }

  function EvalAll(es: seq<Expr>, vars: Values, m: Meaning): (r: seq<int>)
    ensures |r| == |es|
  {
    if es == [] then [] else [Eval(es[0], vars, m)] + EvalAll(es[1..], vars, m)
  }

  /** The functions an expression calls. */
  function Calls(e: Expr): set<string> {
    match e
    case Const(_) => {}
    case Var(_) => {}
    case Op(_, args) => CallsIn(args)
    case Call(f, args) => {f} + CallsIn(args)
    case Let(_, args, body) => CallsIn(args) + Calls(body)
  }

  function CallsIn(es: seq<Expr>): set<string> {
    if es == [] then {} else Calls(es[0]) + CallsIn(es[1..])
  }

  /** Every call of `name` becomes the function's value, with its parameters bound to the arguments. */
  function Inlined(e: Expr, name: string, f: Func): Expr {
    match e
    case Const(_) => e
    case Var(_) => e
    case Op(op, args) => Op(op, InlinedIn(args, name, f))
    case Call(g, args) => if g == name then Let(f.args, InlinedIn(args, name, f), f.value) else Call(g, InlinedIn(args, name, f))
    case Let(params, args, body) => Let(params, InlinedIn(args, name, f), Inlined(body, name, f))
  }

  function InlinedIn(es: seq<Expr>, name: string, f: Func): (r: seq<Expr>)
    ensures |r| == |es|
  {
    if es == [] then [] else [Inlined(es[0], name, f)] + InlinedIn(es[1..], name, f)
  }

  /** Functions mean what their definitions say. */
  ghost predicate Defines(env: map<string, Func>, m: Meaning) {
    forall f <- env.Keys, values: seq<int> :: m.funcs(f, values) == Eval(env[f].value, Bind(env[f].args, values), m)
  }

  lemma {:induction false} InlineKeepsValue(e: Expr, name: string, env: map<string, Func>, vars: Values, m: Meaning)
    requires name in env && Defines(env, m)
    ensures Eval(Inlined(e, name, env[name]), vars, m) == Eval(e, vars, m)
  {
    match e
    case Const(_) =>
    case Var(_) =>
    case Op(_, args) => InlineKeepsValues(args, name, env, vars, m);
    case Call(_, args) => InlineKeepsValues(args, name, env, vars, m);
    case Let(params, args, body) =>
      InlineKeepsValues(args, name, env, vars, m);
      InlineKeepsValue(body, name, env, Bind(params, EvalAll(args, vars, m)), m);
  }

  lemma {:induction false} InlineKeepsValues(es: seq<Expr>, name: string, env: map<string, Func>, vars: Values, m: Meaning)
    requires name in env && Defines(env, m)
    ensures EvalAll(InlinedIn(es, name, env[name]), vars, m) == EvalAll(es, vars, m)
  {
    if es != [] {
      InlineKeepsValue(es[0], name, env, vars, m);
      InlineKeepsValues(es[1..], name, env, vars, m);
      assert InlinedIn(es, name, env[name])[1..] == InlinedIn(es[1..], name, env[name]);
    }
  }

  /** Inlining removes the function and brings in what it calls. */
  lemma {:induction false} InlineCalls(e: Expr, name: string, f: Func)
    requires name !in Calls(f.value)
    ensures name !in Calls(Inlined(e, name, f))
    ensures Calls(Inlined(e, name, f)) == Calls(e) - {name} + if name in Calls(e) then Calls(f.value) else {}
  {
    match e
    case Const(_) =>
    case Var(_) =>
    case Op(_, args) => InlineCallsIn(args, name, f);
    case Call(_, args) => InlineCallsIn(args, name, f);
    case Let(_, args, body) =>
      InlineCallsIn(args, name, f);
      InlineCalls(body, name, f);
  }

  lemma {:induction false} InlineCallsIn(es: seq<Expr>, name: string, f: Func)
    requires name !in Calls(f.value)
    ensures name !in CallsIn(InlinedIn(es, name, f))
    ensures CallsIn(InlinedIn(es, name, f)) == CallsIn(es) - {name} + if name in CallsIn(es) then Calls(f.value) else {}
  {
    if es != [] {
      InlineCalls(es[0], name, f);
      InlineCallsIn(es[1..], name, f);
      assert InlinedIn(es, name, f)[1..] == InlinedIn(es[1..], name, f);
    }
  }

  // ---- Termination ----

  /** The functions can be numbered so that each calls only lower ones. */
  ghost predicate Acyclic(env: map<string, Func>, number: map<string, nat>) {
    && number.Keys == env.Keys
    && (forall f <- env.Keys, g <- env.Keys :: number[f] == number[g] ==> f == g)
    && forall f <- env.Keys, g <- Calls(env[f].value) :: g in env ==> number[g] < number[f]
  }

  /** The sum of two to the power of each number in the set, below `n`. */
  function Weight(s: set<nat>, n: nat): nat { if n == 0 then 0 else Weight(s, n - 1) + (if n - 1 in s then Power(n - 1) else 0) }

  function Power(n: nat): (r: nat)
    ensures r > 0
  {
    if n == 0 then 1 else 2 * Power(n - 1)
  }

  lemma {:induction false} WeightBelow(s: set<nat>, n: nat)
    ensures Weight(s, n) < Power(n)
  {
    if n > 0 { WeightBelow(s, n - 1); }
  }

  /** Replacing a number by lower ones makes the sum smaller. */
  lemma {:induction false} WeightDrops(s: set<nat>, t: set<nat>, top: nat, n: nat)
    requires top in s && top !in t && top < n && forall i <- t :: i > top ==> i in s
    ensures Weight(t, n) < Weight(s, n)
  {
    if n - 1 == top { WeightBelow(t, top); } else { WeightDrops(s, t, top, n - 1); }
  }

  /** The numbers of the functions that are still to be inlined. */
  ghost function Pending(e: Expr, inlines: set<string>, number: map<string, nat>): set<nat> {
    set f | f in Calls(e) && f in inlines && f in number :: number[f]
  }

  ghost function Bound(s: set<string>, number: map<string, nat>): (r: nat)
    ensures forall f <- s :: f in number ==> number[f] < r
  {
    if s == {} then 0
    else
      var f :| f in s;
      var rest := Bound(s - {f}, number);
      if f in number && number[f] >= rest then number[f] + 1 else rest
  }

  /** One inlining makes the weight of what is pending smaller. */
  lemma {:induction false} PendingDrops(e: Expr, name: string, env: map<string, Func>, inlines: set<string>, number: map<string, nat>, n: nat)
    requires Acyclic(env, number) && name in Calls(e) && name in inlines && name in env
    requires forall f <- inlines :: f in number ==> number[f] < n
    ensures Weight(Pending(Inlined(e, name, env[name]), inlines, number), n) < Weight(Pending(e, inlines, number), n)
    ensures name !in Calls(env[name].value)
  {
    InlineCalls(e, name, env[name]);
    var s, t := Pending(e, inlines, number), Pending(Inlined(e, name, env[name]), inlines, number);
    forall i <- t ensures i != number[name] && (i > number[name] ==> i in s) {
      var f :| f in Calls(Inlined(e, name, env[name])) && f in inlines && f in number && number[f] == i;
    }
    assert number[name] in s;
    WeightDrops(s, t, number[name], n);
  }

  // ---- The loop ----

  /** Where a name first comes in the order; past the end if it does not. */
  function PositionIn(order: seq<string>, name: string): (r: nat)
    ensures r <= |order| && (r < |order| ==> order[r] == name)
  {
    if order == [] then 0 else if order[0] == name then 0 else 1 + PositionIn(order[1..], name)
  }

  predicate Descending(calls: seq<string>, order: seq<string>) {
    forall i, j :: 0 <= i < j < |calls| ==> PositionIn(order, calls[i]) >= PositionIn(order, calls[j])
  }

  /** The calls in descending order of realization. */
  method SortCalls(unsorted: set<string>, order: seq<string>) returns (calls: seq<string>)
    ensures forall f :: f in calls <==> f in unsorted
    ensures Descending(calls, order)
  {
    calls := [];
    var left := unsorted;
    while left != {}
      invariant left <= unsorted && forall f :: f in calls <==> f in unsorted - left
      invariant Descending(calls, order)
      invariant forall i, f :: 0 <= i < |calls| && f in left ==> PositionIn(order, calls[i]) >= PositionIn(order, f)
      decreases |left|
    {
      var last := LastRealized(left, order);
      calls := calls + [last];
      left := left - {last};
    }
  }

  method LastRealized(s: set<string>, order: seq<string>) returns (last: string)
    requires s != {}
    ensures last in s && forall f <- s :: PositionIn(order, last) >= PositionIn(order, f)
  {
    last :| last in s;
    var left := s - {last};
    while left != {}
      invariant last in s && left <= s && forall f <- s :: f in left || PositionIn(order, last) >= PositionIn(order, f)
      decreases |left|
    {
      var f :| f in left;
      if PositionIn(order, f) > PositionIn(order, last) { last := f; }
      left := left - {f};
    }
  }

  /** The order is a realization order: every function of the environment is in it, after what it calls. */
  ghost predicate Realizes(env: map<string, Func>, order: seq<string>) {
    && (forall f <- env.Keys :: PositionIn(order, f) < |order|)
    && forall f <- env.Keys, g <- Calls(env[f].value) :: g in env ==> PositionIn(order, g) < PositionIn(order, f)
  }

  /** No function is named twice. */
  predicate Distinct(s: seq<string>) { forall i, j :: 0 <= i < j < |s| ==> s[i] != s[j] }

  /** The first of the calls that is to be inlined. */
  method FirstToInline(calls: seq<string>, inlines: set<string>) returns (found: bool, k: nat)
    ensures found ==> k < |calls| && calls[k] in inlines && forall i :: 0 <= i < k ==> calls[i] !in inlines
    ensures !found ==> forall i :: 0 <= i < |calls| ==> calls[i] !in inlines
  {
    found, k := false, 0;
    while k < |calls|
      invariant k <= |calls| && forall i :: 0 <= i < k ==> calls[i] !in inlines
    {
      if calls[k] in inlines {
        return true, k;
      }
      k := k + 1;
    }
  }

  /** Each function is to be inlined and called by the one before it, the first by the expression. */
  ghost predicate Chain(e: Expr, env: map<string, Func>, inlines: set<string>, path: seq<string>) {
    && path != [] && path[0] in Calls(e) && (forall i :: 0 <= i < |path| ==> path[i] in inlines)
    && forall i :: 0 <= i < |path| - 1 ==> path[i] in env && path[i + 1] in Calls(env[path[i]].value)
  }

  /** Inlining comes to a function that is not in the environment. */
  ghost predicate ReachesUnknown(e: Expr, env: map<string, Func>, inlines: set<string>) {
    exists path :: Chain(e, env, inlines, path) && path[|path| - 1] !in env
  }

  lemma {:induction false} InlineKeepsReach(e: Expr, name: string, env: map<string, Func>, inlines: set<string>)
    requires name in Calls(e) && name in inlines && name in env && name !in Calls(env[name].value)
    ensures ReachesUnknown(Inlined(e, name, env[name]), env, inlines) <==> ReachesUnknown(e, env, inlines)
  {
    hide Inlined, Calls;
    InlineCalls(e, name, env[name]);
    var e' := Inlined(e, name, env[name]);
    if ReachesUnknown(e', env, inlines) {
      var path :| Chain(e', env, inlines, path) && path[|path| - 1] !in env;
      if path[0] !in Calls(e) { assert Chain(e, env, inlines, [name] + path); }
    }
    if ReachesUnknown(e, env, inlines) {
      var path :| Chain(e, env, inlines, path) && path[|path| - 1] !in env;
      if path[0] == name { assert Chain(e', env, inlines, path[1..]); } else { assert Chain(e', env, inlines, path); }
    }
  }

  /** The named functions inlined one after the other. */
  ghost function InlineAll(e: Expr, env: map<string, Func>, names: seq<string>): Expr
    requires forall i :: 0 <= i < |names| ==> names[i] in env
  {
    if names == [] then e
    else var k := |names| - 1; Inlined(InlineAll(e, env, names[..k]), names[k], env[names[k]])
  }

  /** Each of the names is to be inlined, is known, and is called once those before it are inlined. */
  ghost predicate Steps(e: Expr, env: map<string, Func>, inlines: set<string>, names: seq<string>) {
    && (forall i :: 0 <= i < |names| ==> names[i] in inlines && names[i] in env)
    && forall i :: 0 <= i < |names| ==> names[i] in Calls(InlineAll(e, env, names[..i]))
  }

  lemma {:induction false} OneMoreStep(e: Expr, env: map<string, Func>, inlines: set<string>, names: seq<string>, name: string)
    requires Steps(e, env, inlines, names) && name in inlines && name in env && name in Calls(InlineAll(e, env, names))
    ensures Steps(e, env, inlines, names + [name])
    ensures InlineAll(e, env, names + [name]) == Inlined(InlineAll(e, env, names), name, env[name])
  {
    hide Inlined, Calls;
    var more := names + [name];
    assert more[..|names|] == names;
    forall i | 0 <= i < |more| ensures more[i] in Calls(InlineAll(e, env, more[..i])) {
      assert more[..i] == names[..i];
      assert names[..|names|] == names;
    }
  }

  /** Whatever is still to be inlined is realized before everything inlined so far. */
  ghost predicate Below(history: seq<string>, pending: set<string>, order: seq<string>) {
    forall i, f :: 0 <= i < |history| && f in pending ==> PositionIn(order, f) < PositionIn(order, history[i])
  }

  lemma {:induction false} LastFirst(r: Expr, calls: seq<string>, k: nat, env: map<string, Func>, inlines: set<string>,
                                     order: seq<string>, history: seq<string>)
    requires (forall f :: f in calls <==> f in Calls(r)) && Descending(calls, order)
    requires k < |calls| && calls[k] in inlines && (forall i :: 0 <= i < k ==> calls[i] !in inlines)
    requires calls[k] in env && calls[k] !in Calls(env[calls[k]].value)
    ensures calls[k] in Calls(r)
    ensures Realizes(env, order) && Distinct(history) && Below(history, Calls(r) * inlines * env.Keys, order) ==>
      Distinct(history + [calls[k]])
      && Below(history + [calls[k]], Calls(Inlined(r, calls[k], env[calls[k]])) * inlines * env.Keys, order)
  {
    hide Inlined, Calls, Acyclic;
    var call := calls[k];
    assert call in calls;
    InlineCalls(r, call, env[call]);
    if Realizes(env, order) && Distinct(history) && Below(history, Calls(r) * inlines * env.Keys, order) {
      var pending := Calls(Inlined(r, call, env[call])) * inlines * env.Keys;
      forall f | f in pending ensures PositionIn(order, f) < PositionIn(order, call) {
        if f in Calls(env[call].value) {
          assert f in env.Keys;
        } else {
          assert f in calls;
          var i :| 0 <= i < |calls| && calls[i] == f;
          assert call in env.Keys && i >= k;
          if PositionIn(order, f) == PositionIn(order, call) { SamePosition(order, f, call); }
        }
      }
    }
  }

  /** Two names of the order at one position are the same. */
  lemma {:induction false} SamePosition(order: seq<string>, f: string, g: string)
    requires PositionIn(order, f) == PositionIn(order, g) < |order|
    ensures f == g
  {
  }

  /** The loop's state: what has been inlined, and what that has kept. */
  ghost predicate Done(e: Expr, env: map<string, Func>, inlines: set<string>, order: seq<string>, history: seq<string>, inlined: Expr) {
    && Steps(e, env, inlines, history) && inlined == InlineAll(e, env, history)
    && (ReachesUnknown(inlined, env, inlines) <==> ReachesUnknown(e, env, inlines))
    && (forall vars: Values, m: Meaning :: Defines(env, m) ==> Eval(inlined, vars, m) == Eval(e, vars, m))
    && (Realizes(env, order) ==> Distinct(history) && Below(history, Calls(inlined) * inlines * env.Keys, order))
  }

  lemma {:induction false} InlineOne(e: Expr, env: map<string, Func>, inlines: set<string>, order: seq<string>, history: seq<string>,
                                     inlined: Expr, calls: seq<string>, k: nat)
    requires Done(e, env, inlines, order, history, inlined)
    requires (forall f :: f in calls <==> f in Calls(inlined)) && Descending(calls, order)
    requires k < |calls| && calls[k] in inlines && (forall i :: 0 <= i < k ==> calls[i] !in inlines)
    requires calls[k] in env && calls[k] !in Calls(env[calls[k]].value)
    ensures Done(e, env, inlines, order, history + [calls[k]], Inlined(inlined, calls[k], env[calls[k]]))
  {
    hide Inlined, Calls, Steps, InlineAll, ReachesUnknown, Realizes, Distinct, Below, Descending, Eval, Defines;
    var call := calls[k];
    LastFirst(inlined, calls, k, env, inlines, order, history);
    InlineKeepsReach(inlined, call, env, inlines);
    OneMoreStep(e, env, inlines, history, call);
    forall vars: Values, m: Meaning | Defines(env, m) ensures Eval(Inlined(inlined, call, env[call]), vars, m) == Eval(e, vars, m) {
      InlineKeepsValue(inlined, call, env, vars, m);
    }
  }

  /** Inlines until nothing is left to inline, or fails exactly when that comes to an unknown function.
      The history names the functions inlined, in turn; with a realization order none comes twice. */
  method Perform(e: Expr, env: map<string, Func>, inlines: set<string>, order: seq<string>, ghost number: map<string, nat>)
    returns (r: Option<Expr>, ghost history: seq<string>)
    requires Acyclic(env, number)
    ensures r.None? <==> ReachesUnknown(e, env, inlines)
    ensures r.Some? ==> Calls(r.value) !! inlines
    ensures r.Some? ==> forall vars: Values, m: Meaning :: Defines(env, m) ==> Eval(r.value, vars, m) == Eval(e, vars, m)
    ensures Steps(e, env, inlines, history)
    ensures r.Some? ==> r.value == InlineAll(e, env, history)
    ensures r.None? ==> Calls(InlineAll(e, env, history)) * inlines - env.Keys != {}
    ensures Realizes(env, order) ==> Distinct(history)
  {
    hide Inlined, Weight, Pending, Acyclic, Descending, Eval, Defines, Realizes;
    history := [];
    if inlines == {} {
      return Some(e), history;
    }
    var inlined := e;
    ghost var n := Bound(inlines, number);
    var funcsToInline := true;
    while funcsToInline
      invariant !funcsToInline ==> Calls(inlined) !! inlines
      invariant Done(e, env, inlines, order, history, inlined)
      decreases Weight(Pending(inlined, inlines, number), n), funcsToInline
    {
      funcsToInline := false;
      var calls := SortCalls(Calls(inlined), order);
      var found, k := FirstToInline(calls, inlines);
      if found {
        var call := calls[k];
        assert call in Calls(inlined);
        if call !in env {
          assert Chain(inlined, env, inlines, [call]);
          assert call in Calls(inlined) * inlines - env.Keys;
          return None, history;
        }
        PendingDrops(inlined, call, env, inlines, number, n);
        InlineOne(e, env, inlines, order, history, inlined, calls, k);
        inlined := Inlined(inlined, call, env[call]);
        history := history + [call];
        funcsToInline := true;
      } else {
        forall f | f in Calls(inlined) ensures f !in inlines { assert f in calls; }
      }
    }
    r := Some(inlined);
  }
}
