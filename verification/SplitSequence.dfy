/** A whole schedule of splits, fuses and renames, and what is known of the extents along the way. */
module SplitSequence {
  import opened Arithmetic
  import opened ApplySplit
  import opened SplitTails
  import opened SplitLists

  /** A loop nest to start from: its dimensions, the names in use, what is known of extents, and the bounds. */
  datatype Setting = Setting(dims: set<string>, vars: set<string>, align: Alignment, env: Env)

  function Handled(s: Split, simplify: Expr -> Expr, align: Alignment): Handling {
    Chosen(s, ProvedExact(s, simplify, align))
  }

  /** The nest after one step. */
  function After(s: Split, simplify: Expr -> Expr, c: Setting): Setting {
    Setting(DimsAfter(s, c.dims), c.vars + New(s), NewAlignment(s, ProvedExact(s, simplify, c.align), c.align), EnvAfter(s, c.env))
  }

  function AfterAll(ss: seq<Split>, simplify: Expr -> Expr, c: Setting): Setting {
    if ss == [] then c else After(ss[|ss| - 1], simplify, AfterAll(ss[..|ss| - 1], simplify, c))
  }

  /** The results of all the steps, in order. */
  function AllResults(ss: seq<Split>, simplify: Expr -> Expr, c: Setting): seq<Result> {
    if ss == [] then []
    else
      var init, s := ss[..|ss| - 1], ss[|ss| - 1];
      AllResults(init, simplify, c) + Results(s, Handled(s, simplify, AfterAll(init, simplify, c).align))
  }

  /** Every step splits, fuses or renames present dimensions into fresh ones, with positive factors. */
  ghost predicate Schedule(ss: seq<Split>, simplify: Expr -> Expr, c: Setting) {
    c.dims <= c.vars && (ss == [] ||
      var init, s := ss[..|ss| - 1], ss[|ss| - 1];
      var d := AfterAll(init, simplify, c);
      Schedule(init, simplify, c) && Usable(s, d.dims, d.vars, d.env))
  }

  /** Every step handles its tail exactly. */
  ghost predicate StepsOk(ss: seq<Split>, simplify: Expr -> Expr, c: Setting)
    requires Schedule(ss, simplify, c)
  {
    ss == [] ||
      var init, s := ss[..|ss| - 1], ss[|ss| - 1];
      var d := AfterAll(init, simplify, c);
      StepsOk(init, simplify, c) && StepOk(s, Handled(s, simplify, d.align), d.env)
  }

  /** The environment in which the definition is evaluated: inside all the loops and let statements. */
  function InnerEnv(ss: seq<Split>, simplify: Expr -> Expr, c: Setting, q: Point): Env {
    Lets(AllResults(ss, simplify, c), Inside(q, AfterAll(ss, simplify, c).env))
  }

  function PointIn(dims: set<string>, e: Env): (p: Point)
    ensures p.Keys == dims && forall d <- dims :: p[d] == e(Dim(d))
  {
    map d | d in dims :: e(Dim(d))
  }

  /** Iteration `q` of the final loops takes effect, and stores original point `p`. */
  ghost predicate StoresAt(ss: seq<Split>, simplify: Expr -> Expr, c: Setting, q: Point, p: Point) {
    var d := AfterAll(ss, simplify, c);
    && InLoops(q, d.dims, d.env)
    && Enabled(AllResults(ss, simplify, c), InnerEnv(ss, simplify, c, q))
    && PointIn(c.dims, InnerEnv(ss, simplify, c, q)) == p
  }

  // ---- Names stay apart ----

  function Known(vars: set<string>, dims: set<string>): Name -> bool {
    (n: Name) => n.Param? || (n.v in vars && (n.Guarded? ==> n.v !in dims))
  }

  lemma {:induction false} StepNames(s: Split, h: Handling, dims: set<string>, vars: set<string>)
    requires Fresh(s, dims, vars) && dims <= vars
    ensures AllNames(Results(s, h), Known(vars + New(s), DimsAfter(s, dims)))
  {
    Apart(s, dims, vars);
    var p := Known(vars + New(s), DimsAfter(s, dims));
    match s
    case SplitVar(_, _, _, _, _) =>
      MoreNames(s.factor, IsParam(), p);
      assert s.oldVar in vars && s.oldVar !in DimsAfter(s, dims);
      TailNames(s, h, p);
      SplitNames(s, h, p);
    case FuseVars(_, _, _) => FuseNames(s, p);
    case RenameVar(_, _) =>
  }

  lemma {:induction false} SplitNames(s: Split, h: Handling, p: Name -> bool)
    requires s.SplitVar? && AllNames(TailResults(s, h), p) && Names(PlainBase(s), p) && Names(ShiftedBase(s), p)
    requires p(Dim(s.oldVar)) && p(Dim(s.inner)) && p(Base(s.inner))
    ensures AllNames(Results(s, h), p)
  {
    hide PlainBase, ShiftedBase, TailResults;
    var two := Results(s, h)[|TailResults(s, h)|..];
    assert |two| == 2 && Names(two[0].value.a, p) && Names(two[0].value.b, p);
    assert ResultNames(two[0], p) && ResultNames(two[1], p);
    assert Results(s, h) == TailResults(s, h) + two;
    NamesConcat(TailResults(s, h), two, p);
  }

  lemma {:induction false} FuseNames(s: Split, p: Name -> bool)
    requires s.FuseVars? && p(Dim(s.oldVar)) && p(LoopMin(s.inner)) && p(LoopMax(s.inner)) && p(LoopMin(s.outer))
    requires p(Dim(s.inner)) && p(Dim(s.outer))
    ensures AllNames(FuseResults(s), p)
  {
    FactorNames(s, p);
    var i, o := FusedInner(s), FusedOuter(s);
    assert Names(i.a, p) && Names(o.a, p);
    assert Names(i, p) && Names(o, p);
  }

  lemma {:induction false} FactorNames(s: Split, p: Name -> bool)
    requires s.FuseVars? && p(LoopMin(s.inner)) && p(LoopMax(s.inner))
    ensures Names(FuseFactor(s), p)
  {
    var f := FuseFactor(s);
    assert Names(f.b, p);
    assert Names(f.a.a, p) && Names(f.a.b, p);
    assert Names(f.a, p);
  }

  lemma {:induction false} TailNames(s: Split, h: Handling, p: Name -> bool)
    requires s.SplitVar? && Names(s.factor, p)
    requires p(Dim(s.oldVar)) && p(Dim(s.inner)) && p(Dim(s.outer)) && p(LoopMin(s.oldVar)) && p(LoopMax(s.oldVar))
    requires p(LoopMax(s.outer)) && p(Guarded(s.oldVar))
    ensures AllNames(TailResults(s, h), p) && Names(PlainBase(s), p) && Names(ShiftedBase(s), p)
  {
    hide OldMin, OldMax, OldExtent, PlainBase, ShiftedBase, UnwantedElems;
    BoundNames(s, p);
    UnwantedNames(s, p);
    BaseNames(s, p);
    var rs := TailResults(s, h);
    if h.ShiftBlend? {
      var m := rs[0].value;
      assert Names(m.cond, p) && Names(m.a.a, p);
      assert Names(m.a, p) && Names(m.b, p);
    } else if h.RoundBlend? {
      var m := rs[0].value;
      assert Names(m.cond, p) && Names(m.a.a, p) && Names(m.b.b, p);
      assert Names(m.a, p) && Names(m.b, p);
    } else if |rs| == 3 {
      assert Names(rs[2].value.a, p);
    }
  }

  lemma {:induction false} BoundNames(s: Split, p: Name -> bool)
    requires s.SplitVar? && p(LoopMin(s.oldVar)) && p(LoopMax(s.oldVar))
    ensures Names(OldMin(s), p) && Names(OldMax(s), p) && Names(OldExtent(s), p)
  {
    assert Names(OldExtent(s).a, p) && Names(Const(1), p);
  }

  lemma {:induction false} UnwantedNames(s: Split, p: Name -> bool)
    requires s.SplitVar? && Names(s.factor, p) && Names(OldExtent(s), p)
    ensures Names(UnwantedElems(s), p)
  {
    hide OldExtent;
    assert Names(Const(0), p) && Names(UnwantedElems(s).a, p);
  }

  lemma {:induction false} BaseNames(s: Split, p: Name -> bool)
    requires s.SplitVar? && Names(s.factor, p) && p(Dim(s.outer)) && Names(OldMin(s), p) && Names(OldMax(s), p)
    ensures Names(PlainBase(s), p) && Names(ShiftedBase(s), p)
  {
    hide OldMin, OldMax;
    var b, t := PlainBase(s), ShiftedBase(s);
    assert Names(b.a, p) && Names(b, p);
    assert Names(t.a, p) && Names(Const(1), p) && Names(t.b.b, p);
    assert Names(t.b, p);
  }

  lemma {:induction false} ScheduleNames(ss: seq<Split>, simplify: Expr -> Expr, c: Setting)
    requires Schedule(ss, simplify, c)
    ensures var d := AfterAll(ss, simplify, c); d.dims <= d.vars && AllNames(AllResults(ss, simplify, c), Known(d.vars, d.dims))
  {
    if ss != [] {
      var init, s := ss[..|ss| - 1], ss[|ss| - 1];
      var b, d := AfterAll(init, simplify, c), AfterAll(ss, simplify, c);
      ScheduleNames(init, simplify, c);
      var h := Handled(s, simplify, b.align);
      StepNames(s, h, b.dims, b.vars);
      MoreResultNames(AllResults(init, simplify, c), Known(b.vars, b.dims), Known(d.vars, d.dims));
      NamesConcat(AllResults(init, simplify, c), Results(s, h), Known(d.vars, d.dims));
    }
  }

  lemma {:induction false} NamesConcat(a: seq<Result>, b: seq<Result>, p: Name -> bool)
    requires AllNames(a, p) && AllNames(b, p)
    ensures AllNames(a + b, p)
  {
  }

  // ---- Guards see the same values under the earlier let statements ----

  /** Names that earlier let statements leave alone. */
  function Outer(vars: set<string>, dims: set<string>): Name -> bool {
    (n: Name) => n.Param? || n.LoopMin? || n.LoopMax? || (n.Dim? && (n.v in dims || n.v !in vars))
  }

  predicate BindsNone(rs: seq<Result>, p: Name -> bool) { forall k :: 0 <= k < |rs| && rs[k].LetStmt? ==> !p(rs[k].name) }

  lemma {:induction false} LetsKeep(rs: seq<Result>, e: Env, p: Name -> bool)
    requires BindsNone(rs, p)
    ensures Agree(Lets(rs, e), e, p)
  {
    if rs != [] { LetsKeep(rs[1..], e, p); }
  }

  lemma {:induction false} ScheduleBinds(ss: seq<Split>, simplify: Expr -> Expr, c: Setting)
    requires Schedule(ss, simplify, c)
    ensures var d := AfterAll(ss, simplify, c); BindsNone(AllResults(ss, simplify, c), Outer(d.vars, d.dims))
  {
    if ss != [] {
      var init, s := ss[..|ss| - 1], ss[|ss| - 1];
      var b, d := AfterAll(init, simplify, c), AfterAll(ss, simplify, c);
      ScheduleBinds(init, simplify, c);
      StepBinds(s, Handled(s, simplify, b.align), b.dims, b.vars);
      OuterShrinks(s, b.dims, b.vars);
      BindsConcat(AllResults(init, simplify, c), Results(s, Handled(s, simplify, b.align)),
                  Outer(b.vars, b.dims), Outer(d.vars, d.dims));
    }
  }

  lemma {:induction false} BindsConcat(a: seq<Result>, b: seq<Result>, p: Name -> bool, q: Name -> bool)
    requires BindsNone(a, p) && BindsNone(b, q) && forall k :: 0 <= k < |a| && a[k].LetStmt? && q(a[k].name) ==> p(a[k].name)
    ensures BindsNone(a + b, q)
  {
  }

  lemma {:induction false} OuterShrinks(s: Split, dims: set<string>, vars: set<string>)
    requires Fresh(s, dims, vars) && dims <= vars
    ensures forall n: Name :: Outer(vars + New(s), DimsAfter(s, dims))(n) ==> Outer(vars, dims)(n)
  {
    Apart(s, dims, vars);
  }

  lemma {:induction false} StepBinds(s: Split, h: Handling, dims: set<string>, vars: set<string>)
    requires Fresh(s, dims, vars) && dims <= vars
    ensures BindsNone(Results(s, h), Outer(vars + New(s), DimsAfter(s, dims)))
  {
    Apart(s, dims, vars);
  }

  predicate GuardNames(rs: seq<Result>, p: Name -> bool) {
    forall k :: 0 <= k < |rs| && GuardsStores(rs[k]) ==> Names(rs[k].value, p)
  }

  lemma {:induction false} StepGuards(s: Split, h: Handling, dims: set<string>, vars: set<string>)
    requires Fresh(s, dims, vars) && dims <= vars
    ensures GuardNames(Results(s, h), Outer(vars, dims))
  {
    Apart(s, dims, vars);
    if s.SplitVar? {
      var rs := Results(s, h);
      forall k | 0 <= k < |rs| && GuardsStores(rs[k]) ensures Names(rs[k].value, Outer(vars, dims)) {
        assert rs[k] == TailResults(s, h)[k];
        MoreNames(s.factor, IsParam(), Outer(vars, dims));
        GuardValueNames(s, h, k, Outer(vars, dims));
      }
    }
  }

  lemma {:induction false} GuardValueNames(s: Split, h: Handling, k: nat, p: Name -> bool)
    requires s.SplitVar? && Names(s.factor, p) && k < |TailResults(s, h)| && GuardsStores(TailResults(s, h)[k])
    requires p(Dim(s.oldVar)) && p(Dim(s.inner)) && p(Dim(s.outer)) && p(LoopMin(s.oldVar)) && p(LoopMax(s.oldVar))
    requires p(LoopMax(s.outer))
    ensures Names(TailResults(s, h)[k].value, p)
  {
    hide OldMin, OldMax, OldExtent, PlainBase, ShiftedBase, UnwantedElems;
    BoundNames(s, p);
    UnwantedNames(s, p);
    BaseNames(s, p);
    var m := TailResults(s, h)[k].value;
    if h.ShiftBlend? {
      assert Names(m.cond, p) && Names(m.a.a, p);
      assert Names(m.a, p) && Names(m.b, p);
    } else if h.RoundBlend? {
      assert Names(m.cond, p) && Names(m.a.a, p) && Names(m.b.b, p);
      assert Names(m.a, p) && Names(m.b, p);
    } else {
      assert Names(m.a, p);
    }
  }

  lemma {:induction false} SameGuards(rs: seq<Result>, e: Env, f: Env, p: Name -> bool)
    requires GuardNames(rs, p) && Agree(e, f, p)
    ensures Enabled(rs, e) <==> Enabled(rs, f)
  {
    forall k | 0 <= k < |rs| && GuardsStores(rs[k]) ensures Eval(rs[k].value, e) == Eval(rs[k].value, f) {
      SameValue(rs[k].value, e, f, p);
    }
  }

  // ---- Steps compose ----

  /** After a step's let statements, everything earlier steps mention is as inside the earlier loops. */
  lemma {:induction false} StepAgrees(s: Split, h: Handling, q: Point, env: Env, dims: set<string>, vars: set<string>)
    requires Usable(s, dims, vars, env) && InLoops(q, DimsAfter(s, dims), EnvAfter(s, env))
    ensures Agree(StepEnv(s, h, q, env), Inside(Image(s, h, q, env, dims), env), Untouched(s))
  {
    hide Enabled, Fresh, Stores, Start, Quotient, Residue, Results, Extent, StepEnv, InLoops;
    match s
    case SplitVar(_, _, _, _, _) => SplitStep(s, h, q, env, dims, vars);
    case FuseVars(_, _, _) => FuseStep(s, h, q, env, dims, vars);
    case RenameVar(_, _) => RenameStep(s, h, q, env, dims, vars);
  }

  /** A final iteration stores a point through the iteration of the earlier loops it stands for. */
  lemma {:induction false} StoresThrough(ss: seq<Split>, simplify: Expr -> Expr, c: Setting, q: Point, p: Point)
    requires Schedule(ss, simplify, c) && ss != [] && StepsOk(ss, simplify, c)
    ensures var init, s := ss[..|ss| - 1], ss[|ss| - 1];
      var b := AfterAll(init, simplify, c);
      var h := Handled(s, simplify, b.align);
      var p1 := Image(s, h, q, b.env, b.dims);
      StoresAt(ss, simplify, c, q, p) <==> Hits(s, h, q, p1, b.env, b.dims) && StoresAt(init, simplify, c, p1, p)
  {
    hide Results, EnvAfter, Usable, Enabled, Lets, AllResults, AfterAll, Schedule, InLoops, Image, PointIn, DimsAfter, Handled;
    hide StepOk, StepEnv;
    var init, s := ss[..|ss| - 1], ss[|ss| - 1];
    LastStep(ss, simplify, c);
    if InLoops(q, AfterAll(ss, simplify, c).dims, AfterAll(ss, simplify, c).env) {
      StepThenRest(init, simplify, c, s, q);
      var b := AfterAll(init, simplify, c);
      var h := Handled(s, simplify, b.align);
      if Enabled(Results(s, h), StepEnv(s, h, q, b.env)) {
        HitsLand(s, h, q, Image(s, h, q, b.env, b.dims), b.env, b.dims, b.vars);
      }
    }
  }

  lemma {:induction false} LastStep(ss: seq<Split>, simplify: Expr -> Expr, c: Setting)
    requires Schedule(ss, simplify, c) && ss != []
    ensures var init, s := ss[..|ss| - 1], ss[|ss| - 1];
      var b := AfterAll(init, simplify, c);
      && Schedule(init, simplify, c) && Usable(s, b.dims, b.vars, b.env) && AfterAll(ss, simplify, c) == After(s, simplify, b)
      && AllResults(ss, simplify, c) == AllResults(init, simplify, c) + Results(s, Handled(s, simplify, b.align))
  {
    hide Results, Usable;
  }

  lemma {:induction false} UsableFacts(s: Split, dims: set<string>, vars: set<string>, env: Env)
    requires Usable(s, dims, vars, env)
    ensures Fresh(s, dims, vars) && dims <= vars
    ensures forall n: Name :: Known(vars, dims)(n) ==> Untouched(s)(n)
  {
    Apart(s, dims, vars);
  }

  /** One more step in front of the earlier ones' results. */
  lemma {:induction false} StepThenRest(init: seq<Split>, simplify: Expr -> Expr, c: Setting, s: Split, q: Point)
    requires Schedule(init, simplify, c)
    requires var b := AfterAll(init, simplify, c);
      Usable(s, b.dims, b.vars, b.env) && InLoops(q, DimsAfter(s, b.dims), EnvAfter(s, b.env))
    ensures var b := AfterAll(init, simplify, c);
      var h := Handled(s, simplify, b.align);
      var p1, rs := Image(s, h, q, b.env, b.dims), AllResults(init, simplify, c);
      var e := Lets(rs + Results(s, h), Inside(q, EnvAfter(s, b.env)));
      && (Enabled(rs + Results(s, h), e) <==>
            Enabled(Results(s, h), StepEnv(s, h, q, b.env)) && Enabled(rs, InnerEnv(init, simplify, c, p1)))
      && PointIn(c.dims, e) == PointIn(c.dims, InnerEnv(init, simplify, c, p1))
  {
    hide Results, EnvAfter, Usable, Enabled, Known, Names, Lets, Image, AllResults, AfterAll, Schedule, Outer, Touched, Inside;
    var b := AfterAll(init, simplify, c);
    var h := Handled(s, simplify, b.align);
    var p1, rs, e1 := Image(s, h, q, b.env, b.dims), AllResults(init, simplify, c), StepEnv(s, h, q, b.env);
    UsableFacts(s, b.dims, b.vars, b.env);
    LetsConcat(rs, Results(s, h), Inside(q, EnvAfter(s, b.env)));
    var e := Lets(rs, e1);
    EnabledConcat(rs, Results(s, h), e);
    // the step's own guards
    ScheduleBinds(init, simplify, c);
    LetsKeep(rs, e1, Outer(b.vars, b.dims));
    StepGuards(s, h, b.dims, b.vars);
    SameGuards(Results(s, h), e, e1, Outer(b.vars, b.dims));
    // the earlier steps
    ScheduleNames(init, simplify, c);
    MoreResultNames(rs, Known(b.vars, b.dims), Untouched(s));
    StepAgrees(s, h, q, b.env, b.dims, b.vars);
    var f := Inside(p1, b.env);
    SameLets(rs, e1, f, Untouched(s));
    SameEnabled(rs, e, Lets(rs, f), Untouched(s));
    SamePoint(init, simplify, c, s, e, Lets(rs, f));
  }

  /** The original dimensions are among the names no later step touches. */
  lemma {:induction false} SamePoint(init: seq<Split>, simplify: Expr -> Expr, c: Setting, s: Split, e: Env, f: Env)
    requires Schedule(init, simplify, c)
    requires var b := AfterAll(init, simplify, c); Usable(s, b.dims, b.vars, b.env)
    requires Agree(e, f, Untouched(s))
    ensures PointIn(c.dims, e) == PointIn(c.dims, f)
  {
    var b := AfterAll(init, simplify, c);
    VarsGrow(init, simplify, c);
    Apart(s, b.dims, b.vars);
    forall d <- c.dims ensures e(Dim(d)) == f(Dim(d)) { assert Untouched(s)(Dim(d)); }
  }

  lemma {:induction false} VarsGrow(ss: seq<Split>, simplify: Expr -> Expr, c: Setting)
    requires Schedule(ss, simplify, c)
    ensures c.dims <= c.vars <= AfterAll(ss, simplify, c).vars
  {
    if ss != [] { VarsGrow(ss[..|ss| - 1], simplify, c); }
  }

  // ---- The main theorem ----

  /** The iteration of the final loops that stores an original point. */
  ghost function SourceIn(ss: seq<Split>, simplify: Expr -> Expr, c: Setting, p: Point): (q: Point)
    requires Schedule(ss, simplify, c) && p.Keys == c.dims
    ensures q.Keys == AfterAll(ss, simplify, c).dims
  {
    if ss == [] then p
    else
      var init, s := ss[..|ss| - 1], ss[|ss| - 1];
      var b := AfterAll(init, simplify, c);
      Source(s, Handled(s, simplify, b.align), SourceIn(init, simplify, c, p), b.env, b.dims)
  }

  /** Every original point is stored. */
  lemma {:induction false} EveryPointStored(ss: seq<Split>, simplify: Expr -> Expr, c: Setting, p: Point)
    requires Schedule(ss, simplify, c) && StepsOk(ss, simplify, c) && InLoops(p, c.dims, c.env)
    ensures StoresAt(ss, simplify, c, SourceIn(ss, simplify, c, p), p)
  {
    hide InLoops, Fresh, StepOk, Hits, Source, Handled;
    PointKeys(p, c);
    if ss == [] {
      NothingDone(simplify, c, p);
    } else {
      var init, s := ss[..|ss| - 1], ss[|ss| - 1];
      var b := AfterAll(init, simplify, c);
      var p1 := SourceIn(init, simplify, c, p);
      EveryPointStored(init, simplify, c, p);
      SourceHits(s, Handled(s, simplify, b.align), p1, b.env, b.dims, b.vars);
      ImageOfSource(s, Handled(s, simplify, b.align), p1, b.env, b.dims);
      StoresThrough(ss, simplify, c, SourceIn(ss, simplify, c, p), p);
    }
  }

  lemma {:induction false} ImageOfSource(s: Split, h: Handling, p: Point, env: Env, dims: set<string>)
    requires p.Keys == dims && Gone(s) <= dims && (s.SplitVar? ==> Factor(s, env) > 0)
    requires Hits(s, h, Source(s, h, p, env, dims), p, env, dims)
    ensures Image(s, h, Source(s, h, p, env, dims), env, dims) == p
  {
  }

  lemma {:induction false} NothingDone(simplify: Expr -> Expr, c: Setting, p: Point)
    requires InLoops(p, c.dims, c.env)
    ensures StoresAt([], simplify, c, p, p)
  {
    assert PointIn(c.dims, Inside(p, c.env)) == p;
  }

  /** Nothing else is stored, and nothing twice. */
  lemma {:induction false} StoredOnce(ss: seq<Split>, simplify: Expr -> Expr, c: Setting, q: Point, p: Point)
    requires Schedule(ss, simplify, c) && StepsOk(ss, simplify, c) && StoresAt(ss, simplify, c, q, p)
    ensures InLoops(p, c.dims, c.env) && p.Keys == c.dims && q == SourceIn(ss, simplify, c, p)
  {
    hide Usable, StepOk, Hits, Source, Handled, Enabled;
    if ss == [] {
      assert PointIn(c.dims, Inside(q, c.env)) == q;
    } else {
      var init, s := ss[..|ss| - 1], ss[|ss| - 1];
      var b := AfterAll(init, simplify, c);
      var p1 := Image(s, Handled(s, simplify, b.align), q, b.env, b.dims);
      StoresThrough(ss, simplify, c, q, p);
      StoredOnce(init, simplify, c, p1, p);
      HitsOnce(s, Handled(s, simplify, b.align), q, p1, b.env, b.dims, b.vars);
    }
  }

  /** The loops store each point of the original domain exactly once, and nothing outside it. */
  ghost predicate StoresExactlyOnce(ss: seq<Split>, simplify: Expr -> Expr, c: Setting) {
    && (forall p: Point :: InLoops(p, c.dims, c.env) ==> exists q: Point :: StoresAt(ss, simplify, c, q, p))
    && (forall q: Point, q': Point, p: Point :: StoresAt(ss, simplify, c, q, p) && StoresAt(ss, simplify, c, q', p) ==> q == q')
    && (forall q: Point, p: Point :: StoresAt(ss, simplify, c, q, p) ==> InLoops(p, c.dims, c.env))
  }

  lemma {:induction false} StepsOkIsExact(ss: seq<Split>, simplify: Expr -> Expr, c: Setting)
    requires Schedule(ss, simplify, c) && StepsOk(ss, simplify, c)
    ensures StoresExactlyOnce(ss, simplify, c)
  {
    hide InLoops, StoresAt, Schedule, StepsOk;
    forall p: Point | InLoops(p, c.dims, c.env) ensures exists q: Point :: StoresAt(ss, simplify, c, q, p) {
      PointKeys(p, c);
      EveryPointStored(ss, simplify, c, p);
    }
    forall q: Point, p: Point | StoresAt(ss, simplify, c, q, p) ensures InLoops(p, c.dims, c.env) {
      StoredOnce(ss, simplify, c, q, p);
    }
    forall q: Point, q': Point, p: Point | StoresAt(ss, simplify, c, q, p) && StoresAt(ss, simplify, c, q', p) ensures q == q' {
      StoredOnce(ss, simplify, c, q, p);
      StoredOnce(ss, simplify, c, q', p);
    }
  }

  lemma {:induction false} PointKeys(p: Point, c: Setting)
    requires InLoops(p, c.dims, c.env)
    ensures p.Keys == c.dims
  {
  }

  // ---- What is known of the extents ----

  /** The recorded alignment of a dimension divides its extent. */
  ghost predicate Aligned(c: Setting) {
    && c.align.Keys <= c.vars
    && forall d <- c.align.Keys :: Names(c.align[d], IsParam()) && Eval(c.align[d], c.env) > 0
                                   && (d in c.dims ==> Extent(d, c.env) % Eval(c.align[d], c.env) == 0)
  }

  ghost predicate NonNegative(c: Setting) { forall d <- c.dims :: Extent(d, c.env) >= 0 }

  /** A divisor of the alignment divides the extent. */
  lemma {:induction false} DivisorDivides(e: int, a: int, f: int)
    requires a > 0 && f > 0 && e % a == 0 && a % f == 0
    ensures e % f == 0 && a / f > 0 && (e / f) % (a / f) == 0
  {
    var m, k := e / a, a / f;
    assert e == a * m && a == f * k;
    assert e == (k * m) * f by { Regroup(f, k, m); }
    Multiple(k * m, f);
    if k <= 0 { AtLeast(1 - k, f); Distribute(1, k, f); }
    Multiple(m, k);
    Commute(k, m);
  }

  /** What the simplifier proves is so. */
  lemma {:induction false} ProvedDivides(s: Split, simplify: Expr -> Expr, c: Setting)
    requires ProvedExact(s, simplify, c.align) && KeepsValues(simplify) && Aligned(c) && s.oldVar in c.dims && Factor(s, c.env) > 0
    ensures Eval(c.align[s.oldVar], c.env) % Factor(s, c.env) == 0 && Extent(s.oldVar, c.env) % Factor(s, c.env) == 0
  {
    var m := Mod(c.align[s.oldVar], s.factor);
    assert Eval(simplify(m), c.env) == Eval(m, c.env);
    DivisorDivides(Extent(s.oldVar, c.env), Eval(c.align[s.oldVar], c.env), Factor(s, c.env));
  }

  /** A step keeps the bounds of the dimensions it leaves alone, and the parameters. */
  lemma {:induction false} EnvKeeps(s: Split, dims: set<string>, vars: set<string>, env: Env)
    requires Usable(s, dims, vars, env)
    ensures forall d <- dims :: Extent(d, EnvAfter(s, env)) == Extent(d, env)
    ensures forall n: Name :: n.Param? ==> EnvAfter(s, env)(n) == env(n)
  {
    hide EnvAfter, Fresh;
    Apart(s, dims, vars);
    match s
    case SplitVar(_, _, _, _, _) => SplitBounds(s, dims, vars, env);
    case FuseVars(_, _, _) => FuseBounds(s, dims, vars, env);
    case RenameVar(_, _) => RenameBounds(s, dims, vars, env);
  }

  /** The extents of the new dimensions. */
  lemma {:induction false} NewExtents(s: Split, dims: set<string>, vars: set<string>, env: Env)
    requires Usable(s, dims, vars, env)
    ensures var e := EnvAfter(s, env);
      match s
      case SplitVar(oldVar, outer, inner, _, _) =>
        Extent(inner, e) == Factor(s, env)
        && Extent(outer, e) == OuterExtent(env(LoopMin(oldVar)), env(LoopMax(oldVar)), Factor(s, env))
      case FuseVars(oldVar, outer, inner) => Extent(oldVar, e) == Extent(inner, env) * Extent(outer, env)
      case RenameVar(oldVar, outer) => Extent(outer, e) == Extent(oldVar, env)
  {
    hide EnvAfter, Fresh, OuterExtent;
    match s
    case SplitVar(_, _, _, _, _) => SplitBounds(s, dims, vars, env);
    case FuseVars(_, _, _) => FuseBounds(s, dims, vars, env);
    case RenameVar(_, _) => RenameBounds(s, dims, vars, env);
  }

  /** Extents never become negative. */
  lemma {:induction false} StaysNonNegative(s: Split, simplify: Expr -> Expr, c: Setting)
    requires Usable(s, c.dims, c.vars, c.env) && NonNegative(c)
    ensures NonNegative(After(s, simplify, c))
  {
    hide EnvAfter, Fresh, OuterExtent, Extent, Factor;
    Apart(s, c.dims, c.vars);
    EnvKeeps(s, c.dims, c.vars, c.env);
    NewExtents(s, c.dims, c.vars, c.env);
    match s
    case SplitVar(oldVar, _, _, _, _) => OuterNonNegative(oldVar, c.env, Factor(s, c.env));
    case FuseVars(_, outer, inner) => Product(Extent(inner, c.env), Extent(outer, c.env));
    case RenameVar(_, _) =>
  }

  lemma {:induction false} OuterNonNegative(d: string, env: Env, f: int)
    requires f > 0 && Extent(d, env) >= 0
    ensures OuterExtent(env(LoopMin(d)), env(LoopMax(d)), f) >= 0
  {
  }

  lemma {:induction false} Product(x: int, y: int)
    requires x >= 0 && y >= 0
    ensures x * y >= 0
  {
  }

  /** Whatever is recorded of an extent divides it, after every step. */
  lemma {:induction false} StaysAligned(s: Split, simplify: Expr -> Expr, c: Setting)
    requires Usable(s, c.dims, c.vars, c.env) && Aligned(c) && KeepsValues(simplify)
    ensures Aligned(After(s, simplify, c))
  {
    hide EnvAfter, Fresh, OuterExtent, ProvedExact, KeepsValues;
    Apart(s, c.dims, c.vars);
    EnvKeeps(s, c.dims, c.vars, c.env);
    NewExtents(s, c.dims, c.vars, c.env);
    var a := After(s, simplify, c);
    forall d <- a.align.Keys
      ensures Names(a.align[d], IsParam()) && Eval(a.align[d], a.env) > 0
      ensures d in a.dims ==> Extent(d, a.env) % Eval(a.align[d], a.env) == 0
    {
      if d in New(s) {
        NewIsAligned(s, simplify, c, d);
      } else {
        SameValue(c.align[d], a.env, c.env, IsParam());
      }
    }
  }

  lemma {:induction false} NewIsAligned(s: Split, simplify: Expr -> Expr, c: Setting, d: string)
    requires Usable(s, c.dims, c.vars, c.env) && Aligned(c) && KeepsValues(simplify)
    requires d in New(s) && d in After(s, simplify, c).align
    ensures var a := After(s, simplify, c);
      Names(a.align[d], IsParam()) && Eval(a.align[d], a.env) > 0 && Extent(d, a.env) % Eval(a.align[d], a.env) == 0
  {
    hide EnvAfter, Fresh, OuterExtent, KeepsValues;
    Apart(s, c.dims, c.vars);
    EnvKeeps(s, c.dims, c.vars, c.env);
    NewExtents(s, c.dims, c.vars, c.env);
    var a := After(s, simplify, c);
    SameValue(a.align[d], a.env, c.env, IsParam());
    match s
    case SplitVar(oldVar, outer, inner, factor, _) =>
      if d == inner {
        Multiple(1, Factor(s, c.env));
      } else {
        ProvedDivides(s, simplify, c);
        WholeChunks(oldVar, c.env, Eval(c.align[oldVar], c.env), Factor(s, c.env));
      }
    case FuseVars(oldVar, outer, inner) =>
      ProductDivides(Extent(inner, c.env), Extent(outer, c.env), Eval(c.align[inner], c.env), Eval(c.align[outer], c.env));
    case RenameVar(_, _) =>
  }

  lemma {:induction false} WholeChunks(d: string, env: Env, a: int, f: int)
    requires a > 0 && f > 0 && Extent(d, env) % a == 0 && a % f == 0
    ensures a / f > 0 && OuterExtent(env(LoopMin(d)), env(LoopMax(d)), f) % (a / f) == 0
  {
    var e := Extent(d, env);
    DivisorDivides(e, a, f);
    Chunks(env(LoopMin(d)), env(LoopMax(d)), f);
    Multiple(OuterExtent(env(LoopMin(d)), env(LoopMax(d)), f), f);
  }

  lemma {:induction false} ProductDivides(x: int, y: int, a: int, b: int)
    requires a > 0 && b > 0 && x % a == 0 && y % b == 0
    ensures a * b > 0 && (x * y) % (a * b) == 0
  {
    var m, n := x / a, y / b;
    assert x == a * m && y == b * n;
    assert x * y == (m * n) * (a * b) by { FourFactors(a, m, b, n); }
    AtLeast(a, b);
    Multiple(m * n, a * b);
  }

  lemma {:induction false} FourFactors(a: int, m: int, b: int, n: int)
    ensures (a * m) * (b * n) == (m * n) * (a * b)
  {
    var p, q := a * m, b * n;
    assert p * q == (a * m) * (b * n);
    assert (a * m) * (b * n) == a * (m * (b * n)) == a * (b * (m * n)) == (a * b) * (m * n);
  }

  /** The ways to handle a tail that a schedule can rely on. */
  predicate TailIsExact(s: Split, proved: bool) {
    s.SplitVar? ==> proved || IsConstOne(s.factor) || Masked(HandlingOf(s.tail))
  }

  ghost predicate TailsExact(ss: seq<Split>, simplify: Expr -> Expr, c: Setting) {
    ss == [] ||
      var init, s := ss[..|ss| - 1], ss[|ss| - 1];
      TailsExact(init, simplify, c) && TailIsExact(s, ProvedExact(s, simplify, AfterAll(init, simplify, c).align))
  }

  lemma {:induction false} TailStepOk(s: Split, simplify: Expr -> Expr, c: Setting)
    requires Usable(s, c.dims, c.vars, c.env) && Aligned(c) && NonNegative(c) && KeepsValues(simplify)
    requires TailIsExact(s, ProvedExact(s, simplify, c.align))
    ensures StepOk(s, Handled(s, simplify, c.align), c.env)
  {
    hide Fresh, KeepsValues;
    Apart(s, c.dims, c.vars);
    if s.SplitVar? {
      if ProvedExact(s, simplify, c.align) {
        ProvedDivides(s, simplify, c);
      } else if IsConstOne(s.factor) {
        assert Factor(s, c.env) == 1;
      }
    }
  }

  /** A schedule's splits, fuses and renames are exact when each tail is masked, the factor is one, or the
      factor is proved to divide the extent; and what is recorded of extents is right throughout. */
  lemma {:induction false} ScheduleIsExact(ss: seq<Split>, simplify: Expr -> Expr, c: Setting)
    requires Schedule(ss, simplify, c) && KeepsValues(simplify) && Aligned(c) && NonNegative(c)
    requires TailsExact(ss, simplify, c)
    ensures StoresExactlyOnce(ss, simplify, c)
    ensures Aligned(AfterAll(ss, simplify, c)) && NonNegative(AfterAll(ss, simplify, c))
  {
    TailsAreOk(ss, simplify, c);
    StepsOkIsExact(ss, simplify, c);
  }

  lemma {:induction false} TailsAreOk(ss: seq<Split>, simplify: Expr -> Expr, c: Setting)
    requires Schedule(ss, simplify, c) && KeepsValues(simplify) && Aligned(c) && NonNegative(c)
    requires TailsExact(ss, simplify, c)
    ensures StepsOk(ss, simplify, c) && Aligned(AfterAll(ss, simplify, c)) && NonNegative(AfterAll(ss, simplify, c))
  {
    hide Usable, StepOk, Aligned, NonNegative, KeepsValues, After, TailIsExact;
    if ss != [] {
      var init, s := ss[..|ss| - 1], ss[|ss| - 1];
      var b := AfterAll(init, simplify, c);
      TailsAreOk(init, simplify, c);
      TailStepOk(s, simplify, b);
      StaysAligned(s, simplify, b);
      StaysNonNegative(s, simplify, b);
    }
  }
}
