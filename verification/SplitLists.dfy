/** Whole lists of splits, fuses and renames: the generated loops store every original point exactly once. */
module SplitLists {
  import opened ApplySplit
  import opened SplitTails

  // ---- Let statements ----

  function Bind(env: Env, n: Name, v: int): Env { m => if m == n then v else env(m) }

  /** The let statements wrap what is already there, so the last is evaluated first. */
  function Lets(rs: seq<Result>, env: Env): Env {
    if rs == [] then env
    else
      var inner := Lets(rs[1..], env);
      if rs[0].LetStmt? then Bind(inner, rs[0].name, Eval(rs[0].value, inner)) else inner
  }

  lemma {:induction false} LetsConcat(a: seq<Result>, b: seq<Result>, env: Env)
    ensures Lets(a + b, env) == Lets(a, Lets(b, env))
  {
    if a == [] {
      assert a + b == b;
    } else {
      assert (a + b)[1..] == a[1..] + b;
      LetsConcat(a[1..], b, env);
    }
  }

  predicate GuardsStores(r: Result) { r.PredicateProvides? || r.PredicateAll? || r.BlendProvides? }

  /** The store takes effect. */
  predicate Enabled(rs: seq<Result>, env: Env) {
    forall k :: 0 <= k < |rs| && GuardsStores(rs[k]) ==> Eval(rs[k].value, env) != 0
  }

  lemma {:induction false} EnabledConcat(a: seq<Result>, b: seq<Result>, env: Env)
    ensures Enabled(a + b, env) <==> Enabled(a, env) && Enabled(b, env)
  {
    var c := a + b;
    if Enabled(a, env) && Enabled(b, env) {
      forall k | 0 <= k < |c| && GuardsStores(c[k]) ensures Eval(c[k].value, env) != 0 {
        if k < |a| { assert c[k] == a[k]; } else { assert c[k] == b[k - |a|]; }
      }
    }
    if Enabled(c, env) {
      forall k | 0 <= k < |a| && GuardsStores(a[k]) ensures Eval(a[k].value, env) != 0 { assert c[k] == a[k]; }
      forall k | 0 <= k < |b| && GuardsStores(b[k]) ensures Eval(b[k].value, env) != 0 { assert c[|a| + k] == b[k]; }
    }
  }

  // ---- Names ----

  /** Every name in the expression satisfies `p`. */
  predicate Names(e: Expr, p: Name -> bool) {
    match e
    case Const(_) => true
    case Var(n) => p(n)
    case Add(a, b) => Names(a, p) && Names(b, p)
    case Sub(a, b) => Names(a, p) && Names(b, p)
    case Mul(a, b) => Names(a, p) && Names(b, p)
    case Div(a, b) => Names(a, p) && Names(b, p)
    case Mod(a, b) => Names(a, p) && Names(b, p)
    case Min(a, b) => Names(a, p) && Names(b, p)
    case Less(a, b) => Names(a, p) && Names(b, p)
    case LessEq(a, b) => Names(a, p) && Names(b, p)
    case Equal(a, b) => Names(a, p) && Names(b, p)
    case Select(c, a, b) => Names(c, p) && Names(a, p) && Names(b, p)
    case Likely(a) => Names(a, p)
    case PromiseClamped(a, lo, hi) => Names(a, p) && Names(lo, p) && Names(hi, p)
  }

  predicate ResultNames(r: Result, p: Name -> bool) {
    Names(r.value, p) && (r.Substitution? || r.SubstitutionInCalls? || r.SubstitutionInProvides? || r.LetStmt? ==> p(r.name))
  }

  predicate AllNames(rs: seq<Result>, p: Name -> bool) { forall k :: 0 <= k < |rs| ==> ResultNames(rs[k], p) }

  ghost predicate Agree(e: Env, f: Env, p: Name -> bool) { forall n :: p(n) ==> e(n) == f(n) }

  lemma {:induction false} SameValue(x: Expr, e: Env, f: Env, p: Name -> bool)
    requires Names(x, p) && Agree(e, f, p)
    ensures Eval(x, e) == Eval(x, f)
  {
    match x
    case Const(_) =>
    case Var(_) =>
    case Add(a, b) => SameValue(a, e, f, p); SameValue(b, e, f, p);
    case Sub(a, b) => SameValue(a, e, f, p); SameValue(b, e, f, p);
    case Mul(a, b) => SameValue(a, e, f, p); SameValue(b, e, f, p);
    case Div(a, b) => SameValue(a, e, f, p); SameValue(b, e, f, p);
    case Mod(a, b) => SameValue(a, e, f, p); SameValue(b, e, f, p);
    case Min(a, b) => SameValue(a, e, f, p); SameValue(b, e, f, p);
    case Less(a, b) => SameValue(a, e, f, p); SameValue(b, e, f, p);
    case LessEq(a, b) => SameValue(a, e, f, p); SameValue(b, e, f, p);
    case Equal(a, b) => SameValue(a, e, f, p); SameValue(b, e, f, p);
    case Select(c, a, b) => SameValue(c, e, f, p); SameValue(a, e, f, p); SameValue(b, e, f, p);
    case Likely(a) => SameValue(a, e, f, p);
    case PromiseClamped(a, _, _) => SameValue(a, e, f, p);
  }

  lemma {:induction false} MoreNames(x: Expr, p: Name -> bool, q: Name -> bool)
    requires Names(x, p) && forall n :: p(n) ==> q(n)
    ensures Names(x, q)
  {
    match x
    case Const(_) =>
    case Var(_) =>
    case Add(a, b) => MoreNames(a, p, q); MoreNames(b, p, q);
    case Sub(a, b) => MoreNames(a, p, q); MoreNames(b, p, q);
    case Mul(a, b) => MoreNames(a, p, q); MoreNames(b, p, q);
    case Div(a, b) => MoreNames(a, p, q); MoreNames(b, p, q);
    case Mod(a, b) => MoreNames(a, p, q); MoreNames(b, p, q);
    case Min(a, b) => MoreNames(a, p, q); MoreNames(b, p, q);
    case Less(a, b) => MoreNames(a, p, q); MoreNames(b, p, q);
    case LessEq(a, b) => MoreNames(a, p, q); MoreNames(b, p, q);
    case Equal(a, b) => MoreNames(a, p, q); MoreNames(b, p, q);
    case Select(c, a, b) => MoreNames(c, p, q); MoreNames(a, p, q); MoreNames(b, p, q);
    case Likely(a) => MoreNames(a, p, q);
    case PromiseClamped(a, lo, hi) => MoreNames(a, p, q); MoreNames(lo, p, q); MoreNames(hi, p, q);
  }

  lemma {:induction false} MoreResultNames(rs: seq<Result>, p: Name -> bool, q: Name -> bool)
    requires AllNames(rs, p) && forall n :: p(n) ==> q(n)
    ensures AllNames(rs, q)
  {
    forall k | 0 <= k < |rs| ensures ResultNames(rs[k], q) { MoreNames(rs[k].value, p, q); }
  }

  /** Results that mention only names on which two environments agree mean the same in both. */
  lemma {:induction false} SameLets(rs: seq<Result>, e: Env, f: Env, p: Name -> bool)
    requires AllNames(rs, p) && Agree(e, f, p)
    ensures Agree(Lets(rs, e), Lets(rs, f), p)
  {
    if rs != [] {
      SameLets(rs[1..], e, f, p);
      if rs[0].LetStmt? { SameValue(rs[0].value, Lets(rs[1..], e), Lets(rs[1..], f), p); }
    }
  }

  lemma {:induction false} SameEnabled(rs: seq<Result>, e: Env, f: Env, p: Name -> bool)
    requires AllNames(rs, p) && Agree(e, f, p)
    ensures Enabled(rs, e) <==> Enabled(rs, f)
  {
    forall k | 0 <= k < |rs| ensures Eval(rs[k].value, e) == Eval(rs[k].value, f) { SameValue(rs[k].value, e, f, p); }
  }

  // ---- One step ----

  /** The dimensions a step makes. */
  function New(s: Split): set<string> {
    match s
    case SplitVar(_, outer, inner, _, _) => {outer, inner}
    case FuseVars(oldVar, _, _) => {oldVar}
    case RenameVar(_, outer) => {outer}
  }

  /** The dimensions a step uses up. */
  function Gone(s: Split): set<string> {
    match s
    case SplitVar(oldVar, _, _, _, _) => {oldVar}
    case FuseVars(_, outer, inner) => {outer, inner}
    case RenameVar(oldVar, _) => {oldVar}
  }

  function DimsAfter(s: Split, dims: set<string>): set<string> { dims - Gone(s) + New(s) }

  function IsParam(): Name -> bool { (n: Name) => n.Param? }

  /** A step that splits, fuses or renames present dimensions into ones with fresh names. */
  predicate Fresh(s: Split, dims: set<string>, vars: set<string>) {
    && Gone(s) <= dims && New(s) !! vars
    && (s.SplitVar? ==> s.outer != s.inner && Names(s.factor, IsParam()))
    && (s.FuseVars? ==> s.outer != s.inner)
  }

  lemma {:induction false} Apart(s: Split, dims: set<string>, vars: set<string>)
    requires Fresh(s, dims, vars) && dims <= vars
    ensures match s
      case SplitVar(oldVar, outer, inner, factor, _) =>
        oldVar in dims && outer !in dims && inner !in dims && outer !in vars && inner !in vars && outer != inner
        && oldVar != outer && oldVar != inner && Names(factor, IsParam())
      case FuseVars(oldVar, outer, inner) =>
        outer in dims && inner in dims && outer != inner && oldVar !in dims && oldVar !in vars && oldVar != outer && oldVar != inner
      case RenameVar(oldVar, outer) => oldVar in dims && outer !in dims && outer !in vars && oldVar != outer
  {
    match s
    case SplitVar(oldVar, outer, inner, _, _) => assert oldVar in Gone(s) && outer in New(s) && inner in New(s);
    case FuseVars(oldVar, outer, inner) => assert oldVar in New(s) && outer in Gone(s) && inner in Gone(s);
    case RenameVar(oldVar, outer) => assert oldVar in Gone(s) && outer in New(s);
  }

  /** The names a step introduces. */
  predicate Touched(s: Split, n: Name) {
    !n.Param? && (n.v in New(s) || (s.SplitVar? && n == Guarded(s.oldVar)))
  }

  function Untouched(s: Split): Name -> bool { n => !Touched(s, n) }

  function BindAll(bs: seq<(Name, Expr)>, env: Env): Env {
    if bs == [] then env else BindAll(bs[1..], Bind(env, bs[0].0, Eval(bs[0].1, env)))
  }

  function EnvAfter(s: Split, env: Env): Env { BindAll(BoundsAfter(s), env) }

  type Point = map<string, int>

  predicate InLoops(q: Point, dims: set<string>, env: Env) {
    q.Keys == dims && forall d <- dims :: env(LoopMin(d)) <= q[d] <= env(LoopMax(d))
  }

  /** The environment inside the loops. */
  function Inside(q: Point, env: Env): Env { (n: Name) => if n.Dim? && n.v in q then q[n.v] else env(n) }

  function Factor(s: Split, env: Env): int
    requires s.SplitVar?
  {
    Eval(s.factor, env)
  }

  function Extent(d: string, env: Env): int { env(LoopMax(d)) - env(LoopMin(d)) + 1 }

  /** The bounds a split defines. */
  lemma {:induction false} SplitBounds(s: Split, dims: set<string>, vars: set<string>, env: Env)
    requires s.SplitVar? && Fresh(s, dims, vars) && dims <= vars && Factor(s, env) > 0
    ensures var env', f := EnvAfter(s, env), Factor(s, env);
      && Agree(env', env, Untouched(s))
      && env'(LoopMin(s.inner)) == 0 && env'(LoopMax(s.inner)) == f - 1 && env'(LoopMin(s.outer)) == 0
      && env'(LoopMax(s.outer)) == OuterExtent(env(LoopMin(s.oldVar)), env(LoopMax(s.oldVar)), f) - 1
  {
    hide OuterExtent, Fresh, Eval, Agree;
    Apart(s, dims, vars);
    var bs := BoundsAfter(s);
    var e1 := Bind(env, bs[0].0, Eval(bs[0].1, env));
    SameValue(s.factor, e1, env, IsParam());
    var e2 := Bind(e1, bs[1].0, Eval(bs[1].1, e1));
    var e3 := Bind(e2, bs[2].0, Eval(bs[2].1, e2));
    SameValue(s.factor, e3, env, IsParam());
    assert bs[1..][1..] == bs[2..] && BindAll(bs[1..], e1) == BindAll(bs[2..], e2);
    assert bs[2..] == [bs[2], bs[3]];
    TwoBinds(bs[2..], e2);
    FirstBounds(s, e1, env);
    LastBound(s, e3, env);
    AgreeWhenSame(EnvAfter(s, env), env, s);
  }

  lemma {:induction false} AgreeWhenSame(e: Env, f: Env, s: Split)
    requires forall n: Name :: (n.LoopMin? || n.LoopMax?) && n.v !in New(s) ==> e(n) == f(n)
    requires forall n: Name :: !n.LoopMin? && !n.LoopMax? ==> e(n) == f(n)
    ensures Agree(e, f, Untouched(s))
  {
  }

  lemma {:induction false} FirstBounds(s: Split, e: Env, env: Env)
    requires s.SplitVar? && Factor(s, e) == Factor(s, env)
    ensures Eval(BoundsAfter(s)[0].1, env) == 0 && Eval(BoundsAfter(s)[1].1, e) == Factor(s, env) - 1
    ensures Eval(BoundsAfter(s)[2].1, Bind(e, LoopMax(s.inner), Eval(BoundsAfter(s)[1].1, e))) == 0
  {
  }

  lemma {:induction false} LastBound(s: Split, e: Env, env: Env)
    requires s.SplitVar? && Factor(s, env) > 0 && Factor(s, e) == Factor(s, env)
    requires e(LoopMin(s.oldVar)) == env(LoopMin(s.oldVar)) && e(LoopMax(s.oldVar)) == env(LoopMax(s.oldVar))
    ensures Eval(BoundsAfter(s)[3].1, e) == OuterExtent(env(LoopMin(s.oldVar)), env(LoopMax(s.oldVar)), Factor(s, env)) - 1
  {
    var sum := Add(Sub(OldMax(s), OldMin(s)), s.factor);
    assert Eval(sum.a, e) == e(LoopMax(s.oldVar)) - e(LoopMin(s.oldVar));
    assert Eval(sum, e) == Eval(sum.a, e) + Eval(s.factor, e);
    var quotient := Div(sum, s.factor);
    assert Eval(quotient, e) == Eval(sum, e) / Eval(s.factor, e);
    assert BoundsAfter(s)[3].1 == Sub(quotient, Const(1));
  }

  lemma {:induction false} FuseBounds(s: Split, dims: set<string>, vars: set<string>, env: Env)
    requires s.FuseVars? && Fresh(s, dims, vars) && dims <= vars
    ensures var env' := EnvAfter(s, env);
      && Agree(env', env, Untouched(s)) && env'(LoopMin(s.oldVar)) == 0
      && env'(LoopMax(s.oldVar)) == Extent(s.inner, env) * Extent(s.outer, env) - 1
  {
    hide Fresh, Eval, Agree;
    Apart(s, dims, vars);
    TwoBinds(BoundsAfter(s), env);
    FusedBound(s, env);
    AgreeWhenSame(EnvAfter(s, env), env, s);
  }

  lemma {:induction false} ExtentValue(d: string, e: Env)
    ensures Eval(Add(Sub(Var(LoopMax(d)), Var(LoopMin(d))), Const(1)), e) == Extent(d, e)
  {
    assert Eval(Sub(Var(LoopMax(d)), Var(LoopMin(d))), e) == e(LoopMax(d)) - e(LoopMin(d));
  }

  lemma {:induction false} ZeroValue(e: Env)
    ensures Eval(Const(0), e) == 0
  {
  }

  lemma {:induction false} FusedBound(s: Split, env: Env)
    requires s.FuseVars? && s.oldVar != s.inner && s.oldVar != s.outer
    ensures var bs := BoundsAfter(s); var e := Bind(env, bs[0].0, Eval(bs[0].1, env));
      Eval(bs[0].1, env) == 0 && Eval(bs[1].1, e) == Extent(s.inner, env) * Extent(s.outer, env) - 1
  {
    hide Eval;
    var bs := BoundsAfter(s);
    ZeroValue(env);
    var e := Bind(env, LoopMin(s.oldVar), 0);
    ExtentValue(s.inner, e);
    ExtentValue(s.outer, e);
    ProductValue(bs[1].1.a, e, Extent(s.inner, env), Extent(s.outer, env));
  }

  lemma {:induction false} ProductValue(p: Expr, e: Env, x: int, y: int)
    requires p.Mul? && Eval(p.a, e) == x && Eval(p.b, e) == y
    ensures Eval(Sub(p, Const(1)), e) == x * y - 1
  {
    assert Eval(p, e) == Eval(p.a, e) * Eval(p.b, e);
  }

  lemma {:induction false} RenameBounds(s: Split, dims: set<string>, vars: set<string>, env: Env)
    requires s.RenameVar? && Fresh(s, dims, vars) && dims <= vars
    ensures var env' := EnvAfter(s, env);
      && Agree(env', env, Untouched(s))
      && env'(LoopMin(s.outer)) == env(LoopMin(s.oldVar)) && env'(LoopMax(s.outer)) == env(LoopMax(s.oldVar))
  {
    hide Fresh, Agree;
    Apart(s, dims, vars);
    TwoBinds(BoundsAfter(s), env);
    AgreeWhenSame(EnvAfter(s, env), env, s);
  }

  lemma {:induction false} TwoBinds(bs: seq<(Name, Expr)>, env: Env)
    requires |bs| == 2
    ensures var e := Bind(env, bs[0].0, Eval(bs[0].1, env)); BindAll(bs, env) == Bind(e, bs[1].0, Eval(bs[1].1, e))
  {
    hide Eval;
    var e := Bind(env, bs[0].0, Eval(bs[0].1, env));
    OneBind(bs[1..], e);
    assert BindAll(bs, env) == BindAll(bs[1..], e);
  }

  lemma {:induction false} OneBind(bs: seq<(Name, Expr)>, env: Env)
    requires |bs| == 1
    ensures BindAll(bs, env) == Bind(env, bs[0].0, Eval(bs[0].1, env))
  {
    hide Eval;
    var e := Bind(env, bs[0].0, Eval(bs[0].1, env));
    assert bs[1..] == [];
    assert BindAll(bs[1..], e) == e;
  }

  // ---- What a step's let statements compute ----

  /** Inside the new loops, after the step's let statements. */
  function StepEnv(s: Split, h: Handling, q: Point, env: Env): Env { Lets(Results(s, h), Inside(q, EnvAfter(s, env))) }

  /** The point of the old loops that an iteration of the new ones stands for. */
  function Image(s: Split, h: Handling, q: Point, env: Env, dims: set<string>): (p: Point)
    ensures p.Keys == dims && forall d <- dims :: p[d] == StepEnv(s, h, q, env)(Dim(d))
  {
    map d | d in dims :: StepEnv(s, h, q, env)(Dim(d))
  }

  lemma {:induction false} TwoLets(a: Result, b: Result, env: Env)
    requires a.LetStmt? && b.LetStmt?
    ensures var e := Bind(env, b.name, Eval(b.value, env)); Lets([a, b], env) == Bind(e, a.name, Eval(a.value, e))
  {
    assert [a, b][1..] == [b] && [b][1..] == [];
    assert Lets([b], env) == Bind(Lets([], env), b.name, Eval(b.value, env));
  }

  /** The guard's let statement binds only the guarded name; the masks bind nothing. */
  lemma {:induction false} TailLets(s: Split, h: Handling, env: Env)
    requires s.SplitVar?
    ensures forall n :: n != Guarded(s.oldVar) ==> Lets(TailResults(s, h), env)(n) == env(n)
    ensures |TailResults(s, h)| == 3 ==> Lets(TailResults(s, h), env)(Guarded(s.oldVar)) == env(Dim(s.oldVar))
  {
    var rs := TailResults(s, h);
    if rs != [] {
      assert Lets(rs[1..], env) == if |rs| == 1 then env else Lets(rs[1..], env);
      if |rs| == 3 {
        assert rs[1..][1..] == [rs[2]] && [rs[2]][1..] == [];
        assert Lets([rs[2]], env) == env;
        assert Eval(rs[1].value, env) == env(Dim(s.oldVar));
        assert Lets(rs[1..], env) == Bind(env, Guarded(s.oldVar), env(Dim(s.oldVar)));
      }
    }
  }

  /** The environment has the split's variables as given. */
  predicate SplitValues(s: Split, e: Env, lo: int, hi: int, f: int, o: int, i: int)
    requires s.SplitVar? && f > 0
  {
    && e(LoopMin(s.oldVar)) == lo && e(LoopMax(s.oldVar)) == hi && Eval(s.factor, e) == f
    && e(Dim(s.outer)) == o && e(Dim(s.inner)) == i && e(LoopMax(s.outer)) == OuterExtent(lo, hi, f) - 1
  }

  lemma {:induction false} BaseValue(s: Split, h: Handling, e: Env, lo: int, hi: int, f: int, o: int, i: int)
    requires s.SplitVar? && f > 0 && SplitValues(s, e, lo, hi, f, o, i)
    ensures Eval(if h.Shift? || h.ShiftBlend? then ShiftedBase(s) else PlainBase(s), e) == Start(h, lo, hi, f, o)
    ensures Eval(PlainBase(s), e) == o * f + lo
  {
    var p := PlainBase(s);
    assert Eval(p.a, e) == o * f;
    assert Eval(p, e) == o * f + lo;
    var m := ShiftedBase(s);
    assert Eval(m.a, e) == Eval(p, e);
    assert Eval(m.b.b, e) == 1 - f;
    assert Eval(m.b, e) == hi + (1 - f);
    assert Eval(m, e) == if Eval(m.a, e) < Eval(m.b, e) then Eval(m.a, e) else Eval(m.b, e);
  }

  lemma {:induction false} UnwantedValue(s: Split, e: Env, lo: int, hi: int, f: int, o: int, i: int)
    requires s.SplitVar? && f > 0 && SplitValues(s, e, lo, hi, f, o, i)
    ensures Eval(UnwantedElems(s), e) == Unwanted(lo, hi, f)
  {
    var u := UnwantedElems(s);
    assert Eval(u.a.b.a, e) == hi - lo;
    assert Eval(u.a.b, e) == hi - lo + 1;
    assert Eval(u.a, e) == 0 - (hi - lo + 1);
  }

  lemma {:induction false} MaskValue(s: Split, h: Handling, e: Env, lo: int, hi: int, f: int, o: int, i: int)
    requires s.SplitVar? && f > 0 && SplitValues(s, e, lo, hi, f, o, i)
    requires e(Dim(s.oldVar)) == Start(h, lo, hi, f, o) + i
    ensures Enabled(TailResults(s, h), e) <==> Stores(h, lo, hi, f, o, i)
  {
    hide Start, OuterExtent, Unwanted, PlainBase, ShiftedBase, UnwantedElems;
    var rs := TailResults(s, h);
    match h
    case Guard => GuardValue(rs, s, e);
    case GuardStores => GuardValue(rs, s, e);
    case GuardCalls =>
    case ShiftBlend =>
      BaseValue(s, h, e, lo, hi, f, o, i);
      UnwantedValue(s, e, lo, hi, f, o, i);
      MaskOnly(rs, e);
      var m := rs[0].value;
      assert Eval(m.cond, e) == Truth(Start(h, lo, hi, f, o) == o * f + lo);
      assert Eval(m.b, e) == Truth(Unwanted(lo, hi, f) <= i);
      assert Eval(m.a, e) == 1;
    case RoundBlend =>
      UnwantedValue(s, e, lo, hi, f, o, i);
      MaskOnly(rs, e);
      var m := rs[0].value;
      assert Eval(m.cond, e) == Truth(o < OuterExtent(lo, hi, f) - 1);
      assert Eval(m.a, e) == 1;
      assert Eval(m.b.b, e) == f - Unwanted(lo, hi, f);
      assert Eval(m.b, e) == Truth(i < f - Unwanted(lo, hi, f));
    case Unguarded =>
    case Shift =>
  }

  lemma {:induction false} GuardValue(rs: seq<Result>, s: Split, e: Env)
    requires |rs| == 3 && !GuardsStores(rs[0]) && !GuardsStores(rs[1]) && GuardsStores(rs[2])
    requires rs[2].value == Likely(LessEq(Var(Dim(s.oldVar)), OldMax(s)))
    ensures Enabled(rs, e) <==> e(Dim(s.oldVar)) <= e(LoopMax(s.oldVar))
  {
    assert Eval(rs[2].value.a, e) == Truth(e(Dim(s.oldVar)) <= e(LoopMax(s.oldVar)));
    assert Eval(rs[2].value, e) == Eval(rs[2].value.a, e);
  }

  lemma {:induction false} MaskOnly(rs: seq<Result>, e: Env)
    requires |rs| == 1 && GuardsStores(rs[0])
    ensures Enabled(rs, e) <==> Eval(rs[0].value, e) != 0
  {
  }

  /** The new loops' variables and the old bounds, inside the new loops. */
  lemma {:induction false} InsideSplit(s: Split, q: Point, env: Env, dims: set<string>, vars: set<string>)
    requires s.SplitVar? && Fresh(s, dims, vars) && dims <= vars && Factor(s, env) > 0
    requires InLoops(q, DimsAfter(s, dims), EnvAfter(s, env))
    ensures s.outer in q && s.inner in q && forall d <- dims :: d != s.oldVar ==> d in q
    ensures var a := Inside(q, EnvAfter(s, env));
      && SplitValues(s, a, env(LoopMin(s.oldVar)), env(LoopMax(s.oldVar)), Factor(s, env), q[s.outer], q[s.inner])
      && (forall d <- dims :: d != s.oldVar ==> a(Dim(d)) == q[d])
      && (forall n: Name :: !Touched(s, n) && !(n.Dim? && n.v in dims) ==> a(n) == env(n))
  {
    hide EnvAfter, OuterExtent, Fresh, Eval;
    Apart(s, dims, vars);
    SplitBounds(s, dims, vars, env);
    SameValue(s.factor, Inside(q, EnvAfter(s, env)), env, IsParam());
  }

  /** The split's let statements and masks, in any environment with the split's values. */
  lemma {:induction false} SplitResultsMean(s: Split, h: Handling, a: Env, lo: int, hi: int, f: int, o: int, i: int)
    requires s.SplitVar? && f > 0 && SplitValues(s, a, lo, hi, f, o, i) && Names(s.factor, IsParam())
    requires s.oldVar != s.outer && s.oldVar != s.inner
    ensures var e1 := Lets(Results(s, h), a);
      && e1(Dim(s.oldVar)) == Start(h, lo, hi, f, o) + i
      && (Enabled(Results(s, h), e1) <==> Stores(h, lo, hi, f, o, i))
      && (forall n: Name :: n != Dim(s.oldVar) && n != Base(s.inner) && n != Guarded(s.oldVar) ==> e1(n) == a(n))
  {
    hide TailResults, Stores, Start, OuterExtent, PlainBase, ShiftedBase, Eval, Enabled;
    BaseValue(s, h, a, lo, hi, f, o, i);
    var rs := Results(s, h);
    var tail, n := TailResults(s, h), |rs| - 2;
    var two := [rs[n], rs[n + 1]];
    assert rs == tail + two;
    TwoLets(rs[n], rs[n + 1], a);
    var e := Bind(a, Base(s.inner), Start(h, lo, hi, f, o));
    SumValue(e, Base(s.inner), Dim(s.inner));
    var e2 := Bind(e, Dim(s.oldVar), Start(h, lo, hi, f, o) + i);
    assert Lets(two, a) == e2;
    LetsConcat(tail, two, a);
    TailLets(s, h, e2);
    var e1 := Lets(tail, e2);
    SameValue(s.factor, e1, a, IsParam());
    MaskValue(s, h, e1, lo, hi, f, o, i);
    EnabledConcat(tail, two, e1);
    OnlyLets(two, e1);
  }

  /** A split's let statements give the old variable its value, and its masks say when a store takes effect. */
  lemma {:induction false} SplitStep(s: Split, h: Handling, q: Point, env: Env, dims: set<string>, vars: set<string>)
    requires s.SplitVar? && Fresh(s, dims, vars) && dims <= vars && Factor(s, env) > 0
    requires InLoops(q, DimsAfter(s, dims), EnvAfter(s, env))
    ensures s.outer in q && s.inner in q && forall d <- dims :: d != s.oldVar ==> d in q
    ensures var lo, hi, f, e1 := env(LoopMin(s.oldVar)), env(LoopMax(s.oldVar)), Factor(s, env), StepEnv(s, h, q, env);
      && e1(Dim(s.oldVar)) == Start(h, lo, hi, f, q[s.outer]) + q[s.inner]
      && (Enabled(Results(s, h), e1) <==> Stores(h, lo, hi, f, q[s.outer], q[s.inner]))
      && (forall d <- dims :: d != s.oldVar ==> e1(Dim(d)) == q[d])
      && (forall n: Name :: !Touched(s, n) && !(n.Dim? && n.v in dims) ==> e1(n) == env(n))
  {
    hide EnvAfter, SplitValues, Stores, Start, Fresh, Results, Enabled, InLoops, Inside;
    Apart(s, dims, vars);
    InsideSplit(s, q, env, dims, vars);
    SplitResultsMean(s, h, Inside(q, EnvAfter(s, env)), env(LoopMin(s.oldVar)), env(LoopMax(s.oldVar)), Factor(s, env),
                     q[s.outer], q[s.inner]);
  }

  lemma {:induction false} SumValue(e: Env, x: Name, y: Name)
    ensures Eval(Add(Var(x), Var(y)), e) == e(x) + e(y)
  {
  }

  lemma {:induction false} OnlyLets(rs: seq<Result>, e: Env)
    requires forall k :: 0 <= k < |rs| ==> !GuardsStores(rs[k])
    ensures Enabled(rs, e)
  {
  }

  function Quotient(t: int, m: int): int { if m == 0 then 0 else t / m }
  function Residue(t: int, m: int): int { if m == 0 then 0 else t % m }

  lemma {:induction false} FusedValues(s: Split, e: Env)
    requires s.FuseVars?
    ensures var m, t := Extent(s.inner, e), e(Dim(s.oldVar));
      && Eval(FusedInner(s), e) == Residue(t, m) + e(LoopMin(s.inner))
      && Eval(FusedOuter(s), e) == Quotient(t, m) + e(LoopMin(s.outer))
  {
    ExtentValue(s.inner, e);
    var i, o := FusedInner(s), FusedOuter(s);
    assert i.a.b == FuseFactor(s) && o.a.b == FuseFactor(s);
    assert Eval(i.a, e) == Residue(e(Dim(s.oldVar)), Extent(s.inner, e));
    assert Eval(o.a, e) == Quotient(e(Dim(s.oldVar)), Extent(s.inner, e));
  }

  lemma {:induction false} FuseKeepsRest(s: Split, h: Handling, q: Point, env: Env, dims: set<string>, vars: set<string>)
    requires s.FuseVars? && Fresh(s, dims, vars) && dims <= vars && q.Keys == DimsAfter(s, dims)
    ensures var e1 := StepEnv(s, h, q, env);
      && (forall d <- dims :: d != s.inner && d != s.outer ==> d in q && e1(Dim(d)) == q[d])
      && (forall n: Name :: !Touched(s, n) && !(n.Dim? && n.v in dims) ==> e1(n) == env(n))
  {
    hide EnvAfter, Fresh, Eval, FusedInner, FusedOuter, Results, Lets;
    Apart(s, dims, vars);
    FuseBounds(s, dims, vars, env);
    FuseLets(s, h, Inside(q, EnvAfter(s, env)));
  }

  lemma {:induction false} FuseSets(s: Split, h: Handling, q: Point, env: Env, dims: set<string>, vars: set<string>)
    requires s.FuseVars? && Fresh(s, dims, vars) && dims <= vars && q.Keys == DimsAfter(s, dims)
    ensures s.oldVar in q
    ensures var m, t, e1 := Extent(s.inner, env), q[s.oldVar], StepEnv(s, h, q, env);
      e1(Dim(s.inner)) == Residue(t, m) + env(LoopMin(s.inner)) && e1(Dim(s.outer)) == Quotient(t, m) + env(LoopMin(s.outer))
  {
    hide EnvAfter, Fresh, Eval, FusedInner, FusedOuter, Quotient, Residue, Results, Lets;
    Apart(s, dims, vars);
    FuseBounds(s, dims, vars, env);
    var a := Inside(q, EnvAfter(s, env));
    FuseLets(s, h, a);
    FusedValues(s, a);
    FusedValues(s, Bind(a, Dim(s.outer), Eval(FusedOuter(s), a)));
  }

  /** A fuse's let statements recover the inner and the outer variable. */
  lemma {:induction false} FuseStep(s: Split, h: Handling, q: Point, env: Env, dims: set<string>, vars: set<string>)
    requires s.FuseVars? && Fresh(s, dims, vars) && dims <= vars && InLoops(q, DimsAfter(s, dims), EnvAfter(s, env))
    ensures s.oldVar in q && forall d <- dims :: d != s.inner && d != s.outer ==> d in q
    ensures var m, t, e1 := Extent(s.inner, env), q[s.oldVar], StepEnv(s, h, q, env);
      && e1(Dim(s.inner)) == Residue(t, m) + env(LoopMin(s.inner))
      && e1(Dim(s.outer)) == Quotient(t, m) + env(LoopMin(s.outer))
      && Enabled(Results(s, h), e1)
      && (forall d <- dims :: d != s.inner && d != s.outer ==> e1(Dim(d)) == q[d])
      && (forall n: Name :: !Touched(s, n) && !(n.Dim? && n.v in dims) ==> e1(n) == env(n))
  {
    hide EnvAfter, Fresh, Eval, FusedInner, FusedOuter, Quotient, Residue, Results, Lets, StepEnv, Touched, Enabled;
    FuseKeepsRest(s, h, q, env, dims, vars);
    FuseSets(s, h, q, env, dims, vars);
    FuseGuardsNothing(s, h, StepEnv(s, h, q, env));
  }

  lemma {:induction false} FuseLets(s: Split, h: Handling, a: Env)
    requires s.FuseVars?
    ensures var e := Bind(a, Dim(s.outer), Eval(FusedOuter(s), a));
      Lets(Results(s, h), a) == Bind(e, Dim(s.inner), Eval(FusedInner(s), e))
  {
    hide FusedInner, FusedOuter, Eval;
    var rs := Results(s, h);
    assert rs == rs[..2] + [rs[2], rs[3]];
    TwoLets(rs[2], rs[3], a);
    LetsConcat(rs[..2], [rs[2], rs[3]], a);
    NoLets(rs[..2], Lets([rs[2], rs[3]], a));
  }

  lemma {:induction false} FuseGuardsNothing(s: Split, h: Handling, e: Env)
    requires s.FuseVars?
    ensures Enabled(Results(s, h), e)
  {
    OnlyLets(Results(s, h), e);
  }

  lemma {:induction false} NoLets(rs: seq<Result>, e: Env)
    requires forall k :: 0 <= k < |rs| ==> !rs[k].LetStmt?
    ensures Lets(rs, e) == e
  {
    if rs != [] { NoLets(rs[1..], e); }
  }

  lemma {:induction false} RenameStep(s: Split, h: Handling, q: Point, env: Env, dims: set<string>, vars: set<string>)
    requires s.RenameVar? && Fresh(s, dims, vars) && dims <= vars && InLoops(q, DimsAfter(s, dims), EnvAfter(s, env))
    ensures s.outer in q && forall d <- dims :: d != s.oldVar ==> d in q
    ensures var e1 := StepEnv(s, h, q, env);
      && e1(Dim(s.oldVar)) == q[s.outer] && Enabled(Results(s, h), e1)
      && (forall d <- dims :: d != s.oldVar ==> e1(Dim(d)) == q[d])
      && (forall n: Name :: !Touched(s, n) && !(n.Dim? && n.v in dims) ==> e1(n) == env(n))
  {
    hide EnvAfter, Fresh;
    Apart(s, dims, vars);
    RenameBounds(s, dims, vars, env);
    var rs := Results(s, h);
    assert rs == [rs[0]] + [rs[1]] && [rs[1]][1..] == [];
    LetsConcat([rs[0]], [rs[1]], Inside(q, EnvAfter(s, env)));
    NoLets([rs[0]], Lets([rs[1]], Inside(q, EnvAfter(s, env))));
    OnlyLets(rs, StepEnv(s, h, q, env));
  }

  predicate Substitutes(r: Result) { r.Substitution? || r.SubstitutionInCalls? || r.SubstitutionInProvides? }

  /** What is substituted for a variable, in stores or in calls, has the variable's value. */
  lemma {:induction false} SubstitutionsAgree(s: Split, h: Handling, a: Env, k: nat)
    requires k < |Results(s, h)| && Substitutes(Results(s, h)[k])
    requires s.SplitVar? ==> s.oldVar != s.outer && s.oldVar != s.inner
    requires s.FuseVars? ==> s.oldVar != s.outer && s.oldVar != s.inner && s.outer != s.inner
    requires s.RenameVar? ==> s.oldVar != s.outer
    ensures var r, e := Results(s, h)[k], Lets(Results(s, h), a); Eval(r.value, e) == e(r.name)
  {
    var rs := Results(s, h);
    match s
    case SplitVar(_, _, _, _, _) =>
      var tail, two := TailResults(s, h), rs[|TailResults(s, h)|..];
      assert rs == tail + two && rs[k] == tail[k];
      LetsConcat(tail, two, a);
      TailLets(s, h, Lets(two, a));
    case FuseVars(_, _, _) => FuseSubstitution(s, a, k);
    case RenameVar(_, _) =>
      assert rs[1..][1..] == [] && Lets(rs[1..], a) == Bind(a, rs[1].name, Eval(rs[1].value, a));
  }

  lemma {:induction false} FuseSubstitution(s: Split, a: Env, k: nat)
    requires s.FuseVars? && s.oldVar != s.outer && s.oldVar != s.inner && s.outer != s.inner && k < 2
    ensures var rs := FuseResults(s); var e := Lets(rs, a); Eval(rs[k].value, e) == e(rs[k].name)
  {
    hide Eval, FusedInner, FusedOuter, Quotient, Residue;
    var rs := FuseResults(s);
    assert rs == rs[..2] + [rs[2], rs[3]];
    TwoLets(rs[2], rs[3], a);
    LetsConcat(rs[..2], [rs[2], rs[3]], a);
    NoLets(rs[..2], Lets([rs[2], rs[3]], a));
    FusedValues(s, a);
    FusedValues(s, Bind(a, Dim(s.outer), Eval(FusedOuter(s), a)));
    FusedValues(s, Lets(rs, a));
  }

  // ---- Exactness of one step ----

  /** What makes a step exact: no tail, or one that is masked; not two negative extents. */
  predicate StepOk(s: Split, h: Handling, env: Env)
    requires s.SplitVar? ==> Factor(s, env) > 0
  {
    match s
    case SplitVar(oldVar, _, _, _, _) => NoTail(h, env(LoopMin(oldVar)), env(LoopMax(oldVar)), Factor(s, env))
    case FuseVars(_, outer, inner) => !(Extent(inner, env) < 0 && Extent(outer, env) < 0)
    case RenameVar(_, _) => true
  }

  predicate Usable(s: Split, dims: set<string>, vars: set<string>, env: Env) {
    Fresh(s, dims, vars) && dims <= vars && (s.SplitVar? ==> Factor(s, env) > 0)
  }

  /** Iteration `q` of the new loops takes effect and stands for `p`. */
  ghost predicate Hits(s: Split, h: Handling, q: Point, p: Point, env: Env, dims: set<string>) {
    && InLoops(q, DimsAfter(s, dims), EnvAfter(s, env))
    && Enabled(Results(s, h), StepEnv(s, h, q, env)) && Image(s, h, q, env, dims) == p
  }

  /** The dimensions a step leaves alone keep their values and bounds. */
  predicate Kept(s: Split, q: Point, p: Point, dims: set<string>) {
    q.Keys == DimsAfter(s, dims) && p.Keys == dims && forall d <- dims :: d !in Gone(s) ==> d in q && q[d] == p[d]
  }

  predicate KeptInBounds(s: Split, p: Point, env: Env, dims: set<string>) {
    p.Keys == dims && forall d <- dims :: d !in Gone(s) ==> env(LoopMin(d)) <= p[d] <= env(LoopMax(d))
  }

  /** A step's iterations and the old points, in numbers. */
  predicate Relates(s: Split, h: Handling, q: Point, p: Point, env: Env)
    requires s.SplitVar? ==> Factor(s, env) > 0
  {
    match s
    case SplitVar(oldVar, outer, inner, _, _) =>
      outer in q && inner in q && oldVar in p
      && Writes(h, env(LoopMin(oldVar)), env(LoopMax(oldVar)), Factor(s, env), q[outer], q[inner], p[oldVar])
    case FuseVars(oldVar, outer, inner) =>
      oldVar in q && outer in p && inner in p
      && Visits(Extent(inner, env), Extent(outer, env), q[oldVar], p[outer] - env(LoopMin(outer)), p[inner] - env(LoopMin(inner)))
    case RenameVar(oldVar, outer) =>
      outer in q && oldVar in p && q[outer] == p[oldVar] && env(LoopMin(oldVar)) <= p[oldVar] <= env(LoopMax(oldVar))
  }

  /** The dimensions a step leaves alone are within the old bounds. */
  predicate OthersInLoops(s: Split, q: Point, env: Env, dims: set<string>) {
    q.Keys == DimsAfter(s, dims) && forall d <- dims :: d !in Gone(s) ==> d in q && env(LoopMin(d)) <= q[d] <= env(LoopMax(d))
  }

  lemma {:induction false} SplitLoops(s: Split, q: Point, env: Env, dims: set<string>, vars: set<string>)
    requires s.SplitVar? && Usable(s, dims, vars, env)
    ensures InLoops(q, DimsAfter(s, dims), EnvAfter(s, env)) <==>
      && OthersInLoops(s, q, env, dims) && s.outer in q && s.inner in q
      && 0 <= q[s.outer] < OuterExtent(env(LoopMin(s.oldVar)), env(LoopMax(s.oldVar)), Factor(s, env))
      && 0 <= q[s.inner] < Factor(s, env)
  {
    hide EnvAfter, OuterExtent, Fresh, Factor;
    Apart(s, dims, vars);
    SplitBounds(s, dims, vars, env);
  }

  lemma {:induction false} FuseLoops(s: Split, q: Point, env: Env, dims: set<string>, vars: set<string>)
    requires s.FuseVars? && Usable(s, dims, vars, env)
    ensures InLoops(q, DimsAfter(s, dims), EnvAfter(s, env)) <==>
      && OthersInLoops(s, q, env, dims) && s.oldVar in q
      && 0 <= q[s.oldVar] < FusedExtent(Extent(s.inner, env), Extent(s.outer, env))
  {
    hide EnvAfter, Fresh, Extent;
    Apart(s, dims, vars);
    FuseBounds(s, dims, vars, env);
  }

  lemma {:induction false} RenameLoops(s: Split, q: Point, env: Env, dims: set<string>, vars: set<string>)
    requires s.RenameVar? && Usable(s, dims, vars, env)
    ensures InLoops(q, DimsAfter(s, dims), EnvAfter(s, env)) <==>
      && OthersInLoops(s, q, env, dims) && s.outer in q
      && env(LoopMin(s.oldVar)) <= q[s.outer] <= env(LoopMax(s.oldVar))
  {
    hide EnvAfter, Fresh;
    Apart(s, dims, vars);
    RenameBounds(s, dims, vars, env);
  }

  /** The image is `p` when the used-up dimensions have the right values. */
  lemma {:induction false} ImageIs(s: Split, h: Handling, q: Point, p: Point, env: Env, dims: set<string>)
    requires forall d <- dims :: d !in Gone(s) ==> d in q && StepEnv(s, h, q, env)(Dim(d)) == q[d]
    requires Gone(s) <= dims && q.Keys == DimsAfter(s, dims)
    ensures Image(s, h, q, env, dims) == p <==>
      Kept(s, q, p, dims) && forall d <- Gone(s) :: d in p && StepEnv(s, h, q, env)(Dim(d)) == p[d]
  {
    hide StepEnv, DimsAfter, Gone;
    var e1, im := StepEnv(s, h, q, env), Image(s, h, q, env, dims);
    if Kept(s, q, p, dims) && forall d <- Gone(s) :: d in p && e1(Dim(d)) == p[d] {
      forall d <- dims ensures im[d] == p[d] {}
      assert im == p;
    }
  }

  lemma {:induction false} SplitHits(s: Split, h: Handling, q: Point, p: Point, env: Env, dims: set<string>, vars: set<string>)
    requires s.SplitVar? && Usable(s, dims, vars, env)
    ensures Hits(s, h, q, p, env, dims) <==> Kept(s, q, p, dims) && KeptInBounds(s, p, env, dims) && Relates(s, h, q, p, env)
  {
    hide EnvAfter, StepEnv, Results, Enabled, Stores, Start, OuterExtent, Fresh, InLoops, Image, Factor, Touched;
    Apart(s, dims, vars);
    SplitLoops(s, q, env, dims, vars);
    if InLoops(q, DimsAfter(s, dims), EnvAfter(s, env)) {
      SplitStep(s, h, q, env, dims, vars);
      ImageIs(s, h, q, p, env, dims);
    }
  }

  /** What a kept point asks of a fused loop is that the iteration is one of its own. */
  lemma {:induction false} FuseKeeps(s: Split, h: Handling, q: Point, p: Point, env: Env, dims: set<string>, vars: set<string>)
    requires s.FuseVars? && Usable(s, dims, vars, env)
    requires Kept(s, q, p, dims) && KeptInBounds(s, p, env, dims) && Relates(s, h, q, p, env)
    ensures InLoops(q, DimsAfter(s, dims), EnvAfter(s, env))
  {
    hide EnvAfter, Fresh, InLoops, Extent;
    FuseLoops(s, q, env, dims, vars);
  }

  /** Inside the fused loop the iteration takes effect where its quotient and remainder say. */
  lemma {:induction false} FuseTakesEffect(s: Split, h: Handling, q: Point, p: Point, env: Env, dims: set<string>, vars: set<string>)
    requires s.FuseVars? && Usable(s, dims, vars, env) && InLoops(q, DimsAfter(s, dims), EnvAfter(s, env))
    ensures Enabled(Results(s, h), StepEnv(s, h, q, env))
    ensures Image(s, h, q, env, dims) == p <==> Kept(s, q, p, dims) && KeptInBounds(s, p, env, dims) && Relates(s, h, q, p, env)
  {
    hide EnvAfter, StepEnv, Results, Enabled, Fresh, InLoops, Image, Touched, FusedExtent;
    Apart(s, dims, vars);
    FuseLoops(s, q, env, dims, vars);
    FuseStep(s, h, q, env, dims, vars);
    ImageIs(s, h, q, p, env, dims);
  }

  lemma {:induction false} FuseHits(s: Split, h: Handling, q: Point, p: Point, env: Env, dims: set<string>, vars: set<string>)
    requires s.FuseVars? && Usable(s, dims, vars, env)
    ensures Hits(s, h, q, p, env, dims) <==> Kept(s, q, p, dims) && KeptInBounds(s, p, env, dims) && Relates(s, h, q, p, env)
  {
    hide Usable, InLoops, Enabled, Image, Kept, KeptInBounds, Relates, StepEnv, Results, EnvAfter, DimsAfter;
    if InLoops(q, DimsAfter(s, dims), EnvAfter(s, env)) {
      FuseTakesEffect(s, h, q, p, env, dims, vars);
    } else if Kept(s, q, p, dims) && KeptInBounds(s, p, env, dims) && Relates(s, h, q, p, env) {
      FuseKeeps(s, h, q, p, env, dims, vars);
    }
  }

  lemma {:induction false} RenameHits(s: Split, h: Handling, q: Point, p: Point, env: Env, dims: set<string>, vars: set<string>)
    requires s.RenameVar? && Usable(s, dims, vars, env)
    ensures Hits(s, h, q, p, env, dims) <==> Kept(s, q, p, dims) && KeptInBounds(s, p, env, dims) && Relates(s, h, q, p, env)
  {
    hide EnvAfter, StepEnv, Results, Enabled, Fresh, InLoops, Image, Touched;
    Apart(s, dims, vars);
    RenameLoops(s, q, env, dims, vars);
    if InLoops(q, DimsAfter(s, dims), EnvAfter(s, env)) {
      RenameStep(s, h, q, env, dims, vars);
      ImageIs(s, h, q, p, env, dims);
    }
  }

  lemma {:induction false} HitsIff(s: Split, h: Handling, q: Point, p: Point, env: Env, dims: set<string>, vars: set<string>)
    requires Usable(s, dims, vars, env)
    ensures Hits(s, h, q, p, env, dims) <==> Kept(s, q, p, dims) && KeptInBounds(s, p, env, dims) && Relates(s, h, q, p, env)
  {
    hide *;
    match s
    case SplitVar(_, _, _, _, _) => SplitHits(s, h, q, p, env, dims, vars);
    case FuseVars(_, _, _) => FuseHits(s, h, q, p, env, dims, vars);
    case RenameVar(_, _) => RenameHits(s, h, q, p, env, dims, vars);
  }

  /** What takes effect lies in the old loops. */
  lemma {:induction false} HitsLand(s: Split, h: Handling, q: Point, p: Point, env: Env, dims: set<string>, vars: set<string>)
    requires Usable(s, dims, vars, env) && StepOk(s, h, env) && Hits(s, h, q, p, env, dims)
    ensures InLoops(p, dims, env)
  {
    hide Hits, Writes, NoTail, Visits;
    HitsIff(s, h, q, p, env, dims, vars);
    match s
    case SplitVar(oldVar, outer, inner, _, _) =>
      OwnChunk(h, env(LoopMin(oldVar)), env(LoopMax(oldVar)), Factor(s, env), q[outer], q[inner], p[oldVar]);
    case FuseVars(oldVar, outer, inner) =>
      VisitIsInRange(Extent(inner, env), Extent(outer, env), q[oldVar], p[outer] - env(LoopMin(outer)), p[inner] - env(LoopMin(inner)));
    case RenameVar(_, _) =>
  }

  /** The iteration that hits a point. */
  function Source(s: Split, h: Handling, p: Point, env: Env, dims: set<string>): Point
    requires p.Keys == dims && Gone(s) <= dims && (s.SplitVar? ==> Factor(s, env) > 0)
  {
    map d | d in DimsAfter(s, dims) :: if d in New(s) then SourceOf(s, h, p, env, d) else p[d]
  }

  function SourceOf(s: Split, h: Handling, p: Point, env: Env, d: string): int
    requires Gone(s) <= p.Keys && (s.SplitVar? ==> Factor(s, env) > 0)
  {
    match s
    case SplitVar(oldVar, outer, _, _, _) =>
      var lo, hi, f, x := env(LoopMin(oldVar)), env(LoopMax(oldVar)), Factor(s, env), p[oldVar];
      if d == outer then (x - lo) / f else x - Start(h, lo, hi, f, (x - lo) / f)
    case FuseVars(_, outer, inner) =>
      (p[outer] - env(LoopMin(outer))) * Extent(inner, env) + (p[inner] - env(LoopMin(inner)))
    case RenameVar(oldVar, _) => p[oldVar]
  }

  /** Every old point is hit. */
  lemma {:induction false} SourceHits(s: Split, h: Handling, p: Point, env: Env, dims: set<string>, vars: set<string>)
    requires Usable(s, dims, vars, env) && StepOk(s, h, env) && InLoops(p, dims, env)
    ensures Gone(s) <= dims && Hits(s, h, Source(s, h, p, env, dims), p, env, dims)
  {
    hide Hits, Writes, NoTail, Visits, Start;
    var q := Source(s, h, p, env, dims);
    Apart(s, dims, vars);
    HitsIff(s, h, q, p, env, dims, vars);
    match s
    case SplitVar(oldVar, outer, inner, _, _) =>
      PointIsStored(h, env(LoopMin(oldVar)), env(LoopMax(oldVar)), Factor(s, env), p[oldVar]);
    case FuseVars(oldVar, outer, inner) =>
      PairIsVisited(Extent(inner, env), Extent(outer, env), p[outer] - env(LoopMin(outer)), p[inner] - env(LoopMin(inner)));
    case RenameVar(_, _) =>
  }

  /** No old point is hit twice. */
  lemma {:induction false} HitsOnce(s: Split, h: Handling, q: Point, p: Point, env: Env, dims: set<string>, vars: set<string>)
    requires Usable(s, dims, vars, env) && StepOk(s, h, env) && Hits(s, h, q, p, env, dims)
    ensures p.Keys == dims && Gone(s) <= dims && q == Source(s, h, p, env, dims)
  {
    hide Hits, Writes, NoTail, Visits, Start;
    Apart(s, dims, vars);
    HitsIff(s, h, q, p, env, dims, vars);
    match s
    case SplitVar(oldVar, outer, inner, _, _) =>
      OwnChunk(h, env(LoopMin(oldVar)), env(LoopMax(oldVar)), Factor(s, env), q[outer], q[inner], p[oldVar]);
    case FuseVars(oldVar, outer, inner) =>
      VisitIsInRange(Extent(inner, env), Extent(outer, env), q[oldVar], p[outer] - env(LoopMin(outer)), p[inner] - env(LoopMin(inner)));
    case RenameVar(_, _) =>
  }
}
