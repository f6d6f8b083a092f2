/** Splitting, fusing and renaming loop dimensions: the expressions a schedule step adds, and what they mean. */
module ApplySplit {

  /** The names a loop nest uses; every name but a parameter belongs to a dimension. */
  datatype Name = Dim(v: string) | LoopMin(v: string) | LoopMax(v: string) | Base(v: string) | Guarded(v: string)
                | Param(v: string)

  datatype Expr =
    | Const(value: int)
    | Var(name: Name)
    | Add(a: Expr, b: Expr)
    | Sub(a: Expr, b: Expr)
    | Mul(a: Expr, b: Expr)
    | Div(a: Expr, b: Expr)
    | Mod(a: Expr, b: Expr)
    | Min(a: Expr, b: Expr)
    | Less(a: Expr, b: Expr)
    | LessEq(a: Expr, b: Expr)
    | Equal(a: Expr, b: Expr)
    | Select(cond: Expr, a: Expr, b: Expr)
    | Likely(a: Expr)
    | PromiseClamped(a: Expr, lo: Expr, hi: Expr)

  type Env = Name -> int

  function Truth(b: bool): int { if b then 1 else 0 }

  /** Integer division rounds down for a positive divisor, and dividing by zero gives zero.  Hints that an
      expression is likely, or within some bounds, do not change its value. */
  function Eval(e: Expr, env: Env): int {
    match e
    case Const(n) => n
    case Var(n) => env(n)
    case Add(a, b) => Eval(a, env) + Eval(b, env)
    case Sub(a, b) => Eval(a, env) - Eval(b, env)
    case Mul(a, b) => Eval(a, env) * Eval(b, env)
    case Div(a, b) => if Eval(b, env) == 0 then 0 else Eval(a, env) / Eval(b, env)
    case Mod(a, b) => if Eval(b, env) == 0 then 0 else Eval(a, env) % Eval(b, env)
    case Min(a, b) => if Eval(a, env) < Eval(b, env) then Eval(a, env) else Eval(b, env)
    case Less(a, b) => Truth(Eval(a, env) < Eval(b, env))
    case LessEq(a, b) => Truth(Eval(a, env) <= Eval(b, env))
    case Equal(a, b) => Truth(Eval(a, env) == Eval(b, env))
    case Select(c, a, b) => if Eval(c, env) != 0 then Eval(a, env) else Eval(b, env)
    case Likely(a) => Eval(a, env)
    case PromiseClamped(a, _, _) => Eval(a, env)
  }

  datatype TailStrategy =
    | RoundUp
    | GuardWithIf
    | Predicate
    | PredicateLoads
    | PredicateStores
    | ShiftInwards
    | ShiftInwardsAndBlend
    | RoundUpAndBlend

  /** One step of a schedule.  A fuse makes `oldVar` out of `outer` and `inner`. */
  datatype Split =
    | SplitVar(oldVar: string, outer: string, inner: string, factor: Expr, tail: TailStrategy)
    | FuseVars(oldVar: string, outer: string, inner: string)
    | RenameVar(oldVar: string, outer: string)

  datatype Result =
    | Substitution(name: Name, value: Expr)
    | SubstitutionInCalls(name: Name, value: Expr)
    | SubstitutionInProvides(name: Name, value: Expr)
    | LetStmt(name: Name, value: Expr)
    | PredicateCalls(value: Expr)
    | PredicateProvides(value: Expr)
    | PredicateAll(value: Expr)
    | BlendProvides(value: Expr)

  // ---- What apply_split adds ----

  /** How the tail of a split ends up being handled. */
  datatype Handling = Unguarded | Guard | GuardCalls | GuardStores | Shift | ShiftBlend | RoundBlend

  function HandlingOf(tail: TailStrategy): Handling {
    match tail
    case RoundUp => Unguarded
    case GuardWithIf => Guard
    case Predicate => Guard
    case PredicateLoads => GuardCalls
    case PredicateStores => GuardStores
    case ShiftInwards => Shift
    case ShiftInwardsAndBlend => ShiftBlend
    case RoundUpAndBlend => RoundBlend
  }

  function OldMin(s: Split): Expr { Var(LoopMin(s.oldVar)) }
  function OldMax(s: Split): Expr { Var(LoopMax(s.oldVar)) }
  function OldExtent(s: Split): Expr { Add(Sub(OldMax(s), OldMin(s)), Const(1)) }

  function PlainBase(s: Split): Expr
    requires s.SplitVar?
  {
    Add(Mul(Var(Dim(s.outer)), s.factor), OldMin(s))
  }

  function ShiftedBase(s: Split): Expr
    requires s.SplitVar?
  {
    Min(Likely(PlainBase(s)), Add(OldMax(s), Sub(Const(1), s.factor)))
  }

  function UnwantedElems(s: Split): Expr
    requires s.SplitVar?
  {
    Mod(Sub(Const(0), OldExtent(s)), s.factor)
  }

  /** The masks and guards in front of the definitions of the old variable and its base. */
  function TailResults(s: Split, h: Handling): seq<Result>
    requires s.SplitVar?
  {
    var guard := Likely(LessEq(Var(Dim(s.oldVar)), OldMax(s)));
    var guarded := LetStmt(Guarded(s.oldVar), PromiseClamped(Var(Dim(s.oldVar)), Var(Dim(s.oldVar)), OldMax(s)));
    match h
    case Unguarded => []
    case Guard => [Substitution(Dim(s.oldVar), Var(Guarded(s.oldVar))), guarded, PredicateAll(guard)]
    case GuardCalls => [SubstitutionInCalls(Dim(s.oldVar), Var(Guarded(s.oldVar))), guarded, PredicateCalls(guard)]
    case GuardStores => [SubstitutionInProvides(Dim(s.oldVar), Var(Guarded(s.oldVar))), guarded, PredicateProvides(guard)]
    case Shift => []
    case ShiftBlend =>
      [BlendProvides(Select(Equal(ShiftedBase(s), PlainBase(s)), Likely(Const(1)),
                            LessEq(UnwantedElems(s), Var(Dim(s.inner)))))]
    case RoundBlend =>
      [BlendProvides(Select(Less(Var(Dim(s.outer)), Var(LoopMax(s.outer))), Likely(Const(1)),
                            Less(Var(Dim(s.inner)), Sub(s.factor, UnwantedElems(s)))))]
  }

  function SplitResults(s: Split, h: Handling): seq<Result>
    requires s.SplitVar?
  {
    TailResults(s, h)
    + [LetStmt(Dim(s.oldVar), Add(Var(Base(s.inner)), Var(Dim(s.inner)))),
       LetStmt(Base(s.inner), if h.Shift? || h.ShiftBlend? then ShiftedBase(s) else PlainBase(s))]
  }

  function FuseFactor(s: Split): Expr
    requires s.FuseVars?
  {
    Add(Sub(Var(LoopMax(s.inner)), Var(LoopMin(s.inner))), Const(1))
  }

  function FusedInner(s: Split): Expr
    requires s.FuseVars?
  {
    Add(Mod(Var(Dim(s.oldVar)), FuseFactor(s)), Var(LoopMin(s.inner)))
  }

  function FusedOuter(s: Split): Expr
    requires s.FuseVars?
  {
    Add(Div(Var(Dim(s.oldVar)), FuseFactor(s)), Var(LoopMin(s.outer)))
  }

  function FuseResults(s: Split): seq<Result>
    requires s.FuseVars?
  {
    [Substitution(Dim(s.inner), FusedInner(s)), Substitution(Dim(s.outer), FusedOuter(s)),
     LetStmt(Dim(s.inner), FusedInner(s)), LetStmt(Dim(s.outer), FusedOuter(s))]
  }

  function RenameResults(s: Split): seq<Result>
    requires s.RenameVar?
  {
    [Substitution(Dim(s.oldVar), Var(Dim(s.outer))), LetStmt(Dim(s.oldVar), Var(Dim(s.outer)))]
  }

  function Results(s: Split, h: Handling): seq<Result> {
    match s
    case SplitVar(_, _, _, _, _) => SplitResults(s, h)
    case FuseVars(_, _, _) => FuseResults(s)
    case RenameVar(_, _) => RenameResults(s)
  }

  /** The known divisors of the dimensions' extents. */
  type Alignment = map<string, Expr>

  predicate IsConstOne(e: Expr) { e == Const(1) }
  predicate IsConstZero(e: Expr) { e == Const(0) }
  predicate IsNegativeConst(e: Expr) { e.Const? && e.value < 0 }

  /** The simplifier keeps values; nothing else is needed of it. */
  ghost predicate KeepsValues(simplify: Expr -> Expr) { forall e, env :: Eval(simplify(e), env) == Eval(e, env) }

  /** The factor is proved to divide the old extent. */
  predicate ProvedExact(s: Split, simplify: Expr -> Expr, align: Alignment) {
    s.SplitVar? && s.oldVar in align && IsConstZero(simplify(Mod(align[s.oldVar], s.factor)))
  }

  /** What was chosen for a split: nothing to do when the factor is known to divide, or is one. */
  function Chosen(s: Split, proved: bool): Handling {
    if !s.SplitVar? || proved || IsConstOne(s.factor) then Unguarded else HandlingOf(s.tail)
  }

  function NewAlignment(s: Split, proved: bool, align: Alignment): Alignment
    requires proved ==> s.SplitVar? && s.oldVar in align
  {
    match s
    case SplitVar(oldVar, outer, inner, factor, _) =>
      var a := align[inner := factor];
      if proved then a[outer := Div(align[oldVar], factor)] else a
    case FuseVars(oldVar, outer, inner) =>
      if inner in align && outer in align then align[oldVar := Mul(align[inner], align[outer])] else align
    case RenameVar(_, _) => align
  }

  /** A constant factor that is not positive is refused, unless it was already taken to divide the extent. */
  predicate Accepts(s: Split, simplify: Expr -> Expr, align: Alignment) {
    !s.SplitVar? || ProvedExact(s, simplify, align) || !(IsNegativeConst(s.factor) || IsConstZero(s.factor))
  }

  /** Applies one step: the results in order, and what is then known of the extents. */
  method ApplySplitStep(s: Split, simplify: Expr -> Expr, align: Alignment)
    returns (ok: bool, result: seq<Result>, align': Alignment)
    requires s.SplitVar? ==> s.inner != s.oldVar
    ensures ok <==> Accepts(s, simplify, align)
    ensures ok ==> result == Results(s, Chosen(s, ProvedExact(s, simplify, align)))
    ensures ok ==> align' == NewAlignment(s, ProvedExact(s, simplify, align), align)
  {
    ok, result, align' := true, [], align;
    match s {
      case SplitVar(oldVar, outer, inner, factor, tail) =>
        align' := align'[inner := factor];
        var base := PlainBase(s);
        if oldVar in align' && IsConstZero(simplify(Mod(align'[oldVar], factor))) {
          align' := align'[outer := Div(align'[oldVar], factor)];
        } else if IsNegativeConst(factor) || IsConstZero(factor) {
          return false, [], align';
        } else if IsConstOne(factor) {
        } else if tail in {GuardWithIf, Predicate, PredicateLoads, PredicateStores} {
          result := TailResults(s, HandlingOf(tail));
        } else if tail == ShiftInwards {
          base := ShiftedBase(s);
        } else if tail == ShiftInwardsAndBlend {
          base := ShiftedBase(s);
          result := result + TailResults(s, ShiftBlend);
        } else if tail == RoundUpAndBlend {
          result := result + TailResults(s, RoundBlend);
        }
        result := result + [LetStmt(Dim(oldVar), Add(Var(Base(inner)), Var(Dim(inner)))), LetStmt(Base(inner), base)];
      case FuseVars(oldVar, outer, inner) =>
        result := FuseResults(s);
        if inner in align' && outer in align' {
          align' := align'[oldVar := Mul(align'[inner], align'[outer])];
        }
      case RenameVar(_, _) =>
        result := RenameResults(s);
    }
  }

  /** The bounds of the new dimensions, from those of the old. */
  function BoundsAfter(s: Split): seq<(Name, Expr)> {
    match s
    case SplitVar(_, outer, inner, factor, _) =>
      [(LoopMin(inner), Const(0)), (LoopMax(inner), Sub(factor, Const(1))),
       (LoopMin(outer), Const(0)),
       (LoopMax(outer), Sub(Div(Add(Sub(OldMax(s), OldMin(s)), factor), factor), Const(1)))]
    case FuseVars(oldVar, outer, inner) =>
      var extent := Mul(Add(Sub(Var(LoopMax(inner)), Var(LoopMin(inner))), Const(1)),
                        Add(Sub(Var(LoopMax(outer)), Var(LoopMin(outer))), Const(1)));
      [(LoopMin(oldVar), Const(0)), (LoopMax(oldVar), Sub(extent, Const(1)))]
    case RenameVar(_, outer) =>
      [(LoopMin(outer), OldMin(s)), (LoopMax(outer), OldMax(s))]
  }

  /** The inner loop a split makes runs at least once. */
  predicate InnerRuns(s: Split, env: Env)
    requires s.SplitVar?
  {
    Eval(BoundsAfter(s)[0].1, env) <= Eval(BoundsAfter(s)[1].1, env)
  }

  /** An accepted constant factor gives an inner loop that never runs exactly when it is not positive, and
      then the alignment of the old dimension let it through. */
  lemma {:induction false} InnerIsEmptyIff(s: Split, simplify: Expr -> Expr, align: Alignment, env: Env)
    requires s.SplitVar? && s.factor.Const? && Accepts(s, simplify, align)
    ensures !InnerRuns(s, env) <==> s.factor.value <= 0
    ensures !InnerRuns(s, env) ==> ProvedExact(s, simplify, align)
  {
    assert BoundsAfter(s)[0].1 == Const(0) && BoundsAfter(s)[1].1 == Sub(s.factor, Const(1));
    assert Eval(Sub(s.factor, Const(1)), env) == s.factor.value - 1;
  }

  /** A dimension already split by eight can be split by zero or by minus four. */
  lemma {:induction false} NotPositiveIsAccepted(x: string, outer: string, inner: string, factor: Expr, tail: TailStrategy,
                                                 simplify: Expr -> Expr, env: Env)
    requires factor == Const(0) || factor == Const(-4)
    requires KeepsValues(simplify) && simplify(Mod(Const(8), factor)).Const?
    ensures var s := SplitVar(x, outer, inner, factor, tail);
      Accepts(s, simplify, map[x := Const(8)]) && !InnerRuns(s, env)
  {
    var s := SplitVar(x, outer, inner, factor, tail);
    assert Eval(simplify(Mod(Const(8), factor)), env) == Eval(Mod(Const(8), factor), env) == 0;
    InnerIsEmptyIff(s, simplify, map[x := Const(8)], env);
  }
}
