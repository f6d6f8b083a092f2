/** When the loads inside a split loop happen, and that the bound promised for them holds. */
module SplitLoads {
  import opened ApplySplit
  import opened SplitLists
  import opened SplitTails

  predicate GuardsLoads(r: Result) { r.PredicateCalls? || r.PredicateAll? }

  /** The loads take effect. */
  predicate LoadsEnabled(rs: seq<Result>, env: Env) {
    forall k :: 0 <= k < |rs| && GuardsLoads(rs[k]) ==> Eval(rs[k].value, env) != 0
  }

  /** Whether an iteration's loads take effect: a loop guarded as a whole, or in its loads, stops at the old bound. */
  predicate Loads(h: Handling, lo: int, hi: int, f: int, o: int, i: int) {
    h.Guard? || h.GuardCalls? ==> Start(h, lo, hi, f, o) + i <= hi
  }

  /** The guard of a tail holds up to the old bound. */
  lemma {:induction false} GuardMeans(s: Split, h: Handling, e: Env)
    requires s.SplitVar?
    ensures LoadsEnabled(Results(s, h), e) <==> (h.Guard? || h.GuardCalls? ==> e(Dim(s.oldVar)) <= e(LoopMax(s.oldVar)))
  {
    var rs, guard := Results(s, h), Likely(LessEq(Var(Dim(s.oldVar)), OldMax(s)));
    assert Eval(guard.a, e) == Truth(e(Dim(s.oldVar)) <= e(LoopMax(s.oldVar)));
    assert Eval(guard, e) == Eval(guard.a, e);
    if h.Guard? || h.GuardCalls? {
      assert rs[2].value == guard && GuardsLoads(rs[2]);
    }
  }

  /** With any tail strategy, inside the new loops the loads take effect exactly up to the old bound if they are
      guarded, and always if not. */
  lemma {:induction false} LoadStep(s: Split, h: Handling, q: Point, env: Env, dims: set<string>, vars: set<string>)
    requires s.SplitVar? && Fresh(s, dims, vars) && dims <= vars && Factor(s, env) > 0
    requires InLoops(q, DimsAfter(s, dims), EnvAfter(s, env))
    ensures s.outer in q && s.inner in q
    ensures LoadsEnabled(Results(s, h), StepEnv(s, h, q, env))
       <==> Loads(h, env(LoopMin(s.oldVar)), env(LoopMax(s.oldVar)), Factor(s, env), q[s.outer], q[s.inner])
  {
    hide EnvAfter, Start, Results, InLoops, StepEnv, LoadsEnabled, Enabled, Stores;
    Apart(s, dims, vars);
    SplitStep(s, h, q, env, dims, vars);
    GuardMeans(s, h, StepEnv(s, h, q, env));
  }

  /** Guarded loads are made at the iterations a guarded loop stores at, so once for each old point and nowhere else. */
  lemma {:induction false} GuardedLoadsOnce(h: Handling, lo: int, hi: int, f: int, o: int, i: int)
    requires f > 0 && (h.Guard? || h.GuardCalls?)
    ensures Loads(h, lo, hi, f, o, i) <==> Stores(Guard, lo, hi, f, o, i)
    ensures Start(h, lo, hi, f, o) == Start(Guard, lo, hi, f, o)
  {
  }

  /** The clamped variable that is promised not to pass the old bound keeps the promise exactly where the guard
      holds, and is the old variable. */
  lemma {:induction false} PromiseKeptIff(s: Split, h: Handling, a: Env)
    requires s.SplitVar? && s.oldVar != s.outer && s.oldVar != s.inner
    requires h.Guard? || h.GuardCalls? || h.GuardStores?
    ensures var e, r := Lets(Results(s, h), a), Results(s, h)[1];
      && r.LetStmt? && r.value.PromiseClamped? && r.name == Guarded(s.oldVar)
      && Eval(r.value.lo, e) <= Eval(r.value.a, e) == e(Dim(s.oldVar)) == e(r.name)
      && (Eval(r.value.a, e) <= Eval(r.value.hi, e) <==> e(Dim(s.oldVar)) <= e(LoopMax(s.oldVar)))
  {
    var rs := Results(s, h);
    assert Substitutes(rs[0]);
    SubstitutionsAgree(s, h, a, 0);
  }
}
