/** When the recorded alignments are the extents themselves, dividing steps need no tails. */
module SplitExtents {
  import opened Arithmetic
  import opened ApplySplit
  import opened SplitTails
  import opened SplitLists
  import opened SplitSequence

  function NoName(): Name -> bool { (n: Name) => false }

  predicate Closed(e: Expr) { Names(e, NoName()) }

  /** The simplifier computes what has no variables. */
  ghost predicate Folds(simplify: Expr -> Expr) { forall e :: Closed(e) ==> simplify(e).Const? }

  /** The extent of every dimension is recorded, as a number. */
  ghost predicate Measured(c: Setting) {
    c.dims <= c.vars && forall d <- c.dims :: d in c.align && Closed(c.align[d]) && Eval(c.align[d], c.env) == Extent(d, c.env) > 0
  }

  /** A split by a number that divides the extent, or a fuse. */
  ghost predicate Divides(s: Split, env: Env) {
    !s.RenameVar? && (s.SplitVar? ==> Closed(s.factor) && Factor(s, env) > 0 && Extent(s.oldVar, env) % Factor(s, env) == 0)
  }

  lemma {:induction false} ClosedEverywhere(e: Expr, x: Env, y: Env)
    requires Closed(e)
    ensures Eval(e, x) == Eval(e, y)
  {
    SameValue(e, x, y, NoName());
  }

  /** The division is proved. */
  lemma {:induction false} DivisionIsProved(s: Split, simplify: Expr -> Expr, c: Setting)
    requires s.SplitVar? && s.oldVar in c.dims && Measured(c) && Divides(s, c.env) && KeepsValues(simplify) && Folds(simplify)
    ensures ProvedExact(s, simplify, c.align)
  {
    var m := Mod(c.align[s.oldVar], s.factor);
    assert Closed(m);
    assert Eval(simplify(m), c.env) == Eval(m, c.env) == 0;
  }

  /** A renamed dimension's extent is no longer recorded, so that no split of it is proved exact. */
  lemma {:induction false} RenameForgets(s: Split, t: Split, simplify: Expr -> Expr, c: Setting)
    requires Usable(s, c.dims, c.vars, c.env) && c.align.Keys <= c.vars && s.RenameVar? && t.SplitVar? && t.oldVar == s.outer
    ensures !ProvedExact(t, simplify, After(s, simplify, c).align)
  {
    hide Fresh;
    Apart(s, c.dims, c.vars);
  }

  lemma {:induction false} StaysMeasured(s: Split, simplify: Expr -> Expr, c: Setting)
    requires Usable(s, c.dims, c.vars, c.env) && Measured(c) && Divides(s, c.env) && KeepsValues(simplify) && Folds(simplify)
    ensures Measured(After(s, simplify, c))
  {
    hide EnvAfter, Fresh, OuterExtent, KeepsValues, Folds, ProvedExact, Closed;
    Apart(s, c.dims, c.vars);
    EnvKeeps(s, c.dims, c.vars, c.env);
    var a := After(s, simplify, c);
    forall d <- a.dims ensures d in a.align && Closed(a.align[d]) && Eval(a.align[d], a.env) == Extent(d, a.env) > 0 {
      if d in New(s) {
        NewIsMeasured(s, simplify, c, d);
      } else {
        ClosedEverywhere(c.align[d], a.env, c.env);
      }
    }
  }

  lemma {:induction false} NewIsMeasured(s: Split, simplify: Expr -> Expr, c: Setting, d: string)
    requires Usable(s, c.dims, c.vars, c.env) && Measured(c) && Divides(s, c.env) && KeepsValues(simplify) && Folds(simplify)
    requires d in New(s)
    ensures var a := After(s, simplify, c); d in a.align && Closed(a.align[d]) && Eval(a.align[d], a.env) == Extent(d, a.env) > 0
  {
    hide EnvAfter, Fresh, OuterExtent, KeepsValues, Folds;
    Apart(s, c.dims, c.vars);
    NewExtents(s, c.dims, c.vars, c.env);
    var a := After(s, simplify, c);
    match s
    case SplitVar(oldVar, outer, inner, factor, _) =>
      DivisionIsProved(s, simplify, c);
      ClosedEverywhere(factor, a.env, c.env);
      ClosedEverywhere(c.align[oldVar], a.env, c.env);
      ChunksDivide(oldVar, c.env, Factor(s, c.env));
    case FuseVars(oldVar, outer, inner) =>
      ClosedEverywhere(c.align[inner], a.env, c.env);
      ClosedEverywhere(c.align[outer], a.env, c.env);
      AtLeast(Extent(inner, c.env), Extent(outer, c.env));
  }

  lemma {:induction false} ChunksDivide(d: string, env: Env, f: int)
    requires f > 0 && Extent(d, env) > 0 && Extent(d, env) % f == 0
    ensures OuterExtent(env(LoopMin(d)), env(LoopMax(d)), f) == Extent(d, env) / f > 0
  {
    var e := Extent(d, env);
    var k := OuterExtent(env(LoopMin(d)), env(LoopMax(d)), f);
    Chunks(env(LoopMin(d)), env(LoopMax(d)), f);
    Multiple(k, f);
    if k < 1 { AtLeast(1 - k, f); Distribute(1, k, f); }
  }

  // ---- Whole schedules ----

  ghost predicate AllDivide(ss: seq<Split>, simplify: Expr -> Expr, c: Setting) {
    ss == [] ||
      var init, s := ss[..|ss| - 1], ss[|ss| - 1];
      AllDivide(init, simplify, c) && Divides(s, AfterAll(init, simplify, c).env)
  }

  predicate IsGuard(r: Result) { r.PredicateCalls? || r.PredicateProvides? || r.PredicateAll? || r.BlendProvides? }

  /** However often dimensions of known extents are split by divisors and fused, no loop is guarded or masked,
      whatever the tail strategies, and the extents stay known. */
  lemma {:induction false} NoGuardsNeeded(ss: seq<Split>, simplify: Expr -> Expr, c: Setting)
    requires Schedule(ss, simplify, c) && Measured(c) && AllDivide(ss, simplify, c) && KeepsValues(simplify) && Folds(simplify)
    ensures Measured(AfterAll(ss, simplify, c))
    ensures forall r <- AllResults(ss, simplify, c) :: !IsGuard(r)
  {
    hide KeepsValues, Folds, Measured, After, Results, Handled;
    if ss != [] {
      var init, s := ss[..|ss| - 1], ss[|ss| - 1];
      var d := AfterAll(init, simplify, c);
      NoGuardsNeeded(init, simplify, c);
      StaysMeasured(s, simplify, d);
      NoGuard(s, simplify, d);
    }
  }

  lemma {:induction false} NoGuard(s: Split, simplify: Expr -> Expr, c: Setting)
    requires Usable(s, c.dims, c.vars, c.env) && Measured(c) && Divides(s, c.env) && KeepsValues(simplify) && Folds(simplify)
    ensures forall r <- Results(s, Handled(s, simplify, c.align)) :: !IsGuard(r)
  {
    hide KeepsValues, Folds, Measured, Divides, ProvedExact;
    if s.SplitVar? { DivisionIsProved(s, simplify, c); }
  }
}
