/** Broadening acquires: trailing work, allocations and lets move inside the acquire before them. */
module ExpandAcquire {
  import opened AsyncIR

  /** What a task observably does: work, waits, signals, and the tasks it forks. */
  datatype Action =
    | Did(leaf: Leaf, env: Env)
    | Waited(sema: Semaphore, count: nat)
    | Signalled(sema: Semaphore, count: nat)
    | Forked(tasks: seq<seq<Action>>)

  function Actions(s: Stmt, env: Env): seq<Action>
    decreases s, 1, 0
  {
    match s
    case NoOp => []
    case Do(leaf) => [Did(leaf, env)]
    case Release(sema, n) => [Signalled(sema, n)]
    case LetStmt(x, value, body) => Actions(body, env[x := Eval(value, env)])
    case Scoped(_, body) => Actions(body, env)
    case For(x, min, max, body) => ActionsLoop(x, Eval(min, env), Eval(max, env), body, env)
    case Block(first, rest) => Actions(first, env) + Actions(rest, env)
    case Fork(_, _) => [Forked(Tasks(s, env))]
    case IfThenElse(c, thenCase, elseCase) => if Eval(c, env) != 0 then Actions(thenCase, env) else Actions(elseCase, env)
    case Atomic(_, body) => Actions(body, env)
    case ProducerConsumer(_, _, body) => Actions(body, env)
    case Acquire(sema, n, body) => [Waited(sema, Amount(n, env))] + Actions(body, env)
  }

  function ActionsLoop(x: string, lo: int, hi: int, body: Stmt, env: Env): seq<Action>
    decreases body, 2, if hi < lo then 0 else hi - lo + 1
  {
    if hi < lo then [] else Actions(body, env[x := lo]) + ActionsLoop(x, lo + 1, hi, body, env)
  }

  /** The tasks of a nest of forks. */
  function Tasks(s: Stmt, env: Env): seq<seq<Action>>
    decreases s, 0, 0
  {
    match s
    case Fork(first, rest) => Branch(first, env) + Branch(rest, env)
    case _ => []
  }

  function Branch(s: Stmt, env: Env): seq<seq<Action>>
    decreases s, 2, 0
  {
    if s.Fork? then Tasks(s, env) else [Actions(s, env)]
  }

  /** Fork::make: a fork whose first task is a fork is re-nested to the right. */
  function ForkMake(first: Stmt, rest: Stmt): Stmt {
    if first.Fork? then Fork(first.first, ForkMake(first.rest, rest)) else Fork(first, rest)
  }

  function Size(s: Stmt): nat {
    match s
    case LetStmt(_, _, body) => 1 + Size(body)
    case Scoped(_, body) => 1 + Size(body)
    case For(_, _, _, body) => 1 + Size(body)
    case Block(first, rest) => 1 + Size(first) + Size(rest)
    case Fork(first, rest) => 1 + Size(first) + Size(rest)
    case IfThenElse(_, thenCase, elseCase) => 1 + Size(thenCase) + Size(elseCase)
    case Atomic(_, body) => 1 + Size(body)
    case ProducerConsumer(_, _, body) => 1 + Size(body)
    case Acquire(_, _, body) => 1 + Size(body)
    case _ => 1
  }

  lemma {:induction false} MakeSizes(first: Stmt, rest: Stmt)
    ensures Size(BlockMake(first, rest)) == 1 + Size(first) + Size(rest)
    ensures Size(ForkMake(first, rest)) == 1 + Size(first) + Size(rest)
  {
    if first.Block? || first.Fork? { MakeSizes(first.rest, rest); }
  }

  /** `rest` after `s`, inside every acquire that starts `s`. */
  function Append(s: Stmt, rest: Stmt): (r: Stmt)
    ensures Size(r) == 1 + Size(s) + Size(rest)
  {
    MakeSizes(s, rest);
    if s.Acquire? then Acquire(s.sema, s.count, Append(s.body, rest)) else BlockMake(s, rest)
  }

  predicate ExprUses(e: Expr, x: string) {
    match e
    case IntImm(_) => false
    case Variable(y) => x == y
    case Add(a, b) => ExprUses(a, x) || ExprUses(b, x)
    case Sub(a, b) => ExprUses(a, x) || ExprUses(b, x)
    case Mul(a, b) => ExprUses(a, x) || ExprUses(b, x)
    case Mod(a, b) => ExprUses(a, x) || ExprUses(b, x)
    case Less(a, b) => ExprUses(a, x) || ExprUses(b, x)
  }

  /** Lets of values and of semaphores. */
  predicate IsLet(s: Stmt) { s.LetStmt? || (s.Scoped? && s.scoping.MakeSemaphore?) }

  function WithBody(let: Stmt, body: Stmt): Stmt
    requires IsLet(let)
  {
    if let.LetStmt? then LetStmt(let.name, let.value, body) else Scoped(let.scoping, body)
  }

  /** The acquire's semaphore or count uses the name the let binds. */
  predicate UsesLet(sema: Semaphore, count: Expr, let: Stmt)
    requires IsLet(let)
  {
    if let.LetStmt? then ExprUses(count, let.name) else let.scoping.sema == sema
  }

  /** Pulls an acquire that starts `s` out of the let around it, if it may. */
  function PullOut(let: Stmt, s: Stmt): (r: Stmt)
    requires IsLet(let)
    ensures Size(r) == 1 + Size(s)
  {
    if s.Acquire? && !UsesLet(s.sema, s.count, let) then Acquire(s.sema, s.count, WithBody(let, s.body))
    else WithBody(let, s)
  }

  /** The rewritten statement.  Allocations, produce and consume nodes are rewritten again once the
      acquire is out; that ends because rewriting keeps the size. */
  function Expand(s: Stmt): (r: Stmt)
    ensures Size(r) == Size(s)
    decreases Size(s)
  {
    match s
    case Block(first, rest) => Append(Expand(first), Expand(rest))
    case Scoped(scoping, body) =>
      var b := Expand(body);
      if scoping.MakeSemaphore? then PullOut(s, b)
      else if b.Acquire? && !scoping.Allocate? then Acquire(b.sema, b.count, Expand(Scoped(scoping, b.body)))
      else Scoped(scoping, b)
    case LetStmt(_, _, body) => PullOut(s, Expand(body))
    case ProducerConsumer(x, isProducer, body) =>
      var b := Expand(body);
      if b.Acquire? then Acquire(b.sema, b.count, Expand(ProducerConsumer(x, isProducer, b.body)))
      else ProducerConsumer(x, isProducer, b)
    case For(x, min, max, body) => For(x, min, max, Expand(body))
    case Fork(first, rest) => MakeSizes(Expand(first), Expand(rest)); ForkMake(Expand(first), Expand(rest))
    case IfThenElse(c, thenCase, elseCase) => IfThenElse(c, Expand(thenCase), Expand(elseCase))
    case Atomic(x, body) => Atomic(x, Expand(body))
    case Acquire(sema, n, body) => Acquire(sema, n, Expand(body))
    case _ => s
  }

  /** One step of the rewriting. */
  lemma {:induction false} ExpandStep(s: Stmt)
    ensures match s
      case Block(first, rest) => Expand(s) == Append(Expand(first), Expand(rest))
      case Scoped(scoping, body) =>
        var b := Expand(body);
        if scoping.MakeSemaphore? then Expand(s) == PullOut(s, b)
        else if b.Acquire? && !scoping.Allocate? then
          Size(b.body) < Size(body) && Expand(s) == Acquire(b.sema, b.count, Expand(Scoped(scoping, b.body)))
        else Expand(s) == Scoped(scoping, b)
      case LetStmt(_, _, body) => Expand(s) == PullOut(s, Expand(body))
      case ProducerConsumer(x, isProducer, body) =>
        var b := Expand(body);
        if b.Acquire? then Size(b.body) < Size(body) && Expand(s) == Acquire(b.sema, b.count, Expand(ProducerConsumer(x, isProducer, b.body)))
        else Expand(s) == ProducerConsumer(x, isProducer, b)
      case For(x, min, max, body) => Expand(s) == For(x, min, max, Expand(body))
      case Fork(first, rest) => Expand(s) == ForkMake(Expand(first), Expand(rest))
      case IfThenElse(c, thenCase, elseCase) => Expand(s) == IfThenElse(c, Expand(thenCase), Expand(elseCase))
      case Atomic(x, body) => Expand(s) == Atomic(x, Expand(body))
      case Acquire(sema, n, body) => Expand(s) == Acquire(sema, n, Expand(body))
      case _ => Expand(s) == s
  {
  }

  // ---- Behaviour is unchanged ----

  lemma {:induction false} BlockMakeActions(first: Stmt, rest: Stmt, env: Env)
    ensures Actions(BlockMake(first, rest), env) == Actions(first, env) + Actions(rest, env)
  {
    if first.Block? {
      BlockMakeActions(first.rest, rest, env);
      assert Actions(first.first, env) + (Actions(first.rest, env) + Actions(rest, env))
          == (Actions(first.first, env) + Actions(first.rest, env)) + Actions(rest, env);
    }
  }

  lemma {:induction false} ForkMakeTasks(first: Stmt, rest: Stmt, env: Env)
    ensures Tasks(ForkMake(first, rest), env) == Branch(first, env) + Branch(rest, env)
    ensures ForkMake(first, rest).Fork?
  {
    if first.Fork? {
      ForkMakeTasks(first.rest, rest, env);
      var inner := ForkMake(first.rest, rest);
      assert Branch(inner, env) == Tasks(inner, env);
      assert Tasks(first, env) == Branch(first.first, env) + Branch(first.rest, env);
      assert Branch(first.first, env) + (Branch(first.rest, env) + Branch(rest, env))
          == (Branch(first.first, env) + Branch(first.rest, env)) + Branch(rest, env);
    }
  }

  lemma {:induction false} AppendActions(s: Stmt, rest: Stmt, env: Env)
    ensures Actions(Append(s, rest), env) == Actions(s, env) + Actions(rest, env)
  {
    if s.Acquire? {
      AppendActions(s.body, rest, env);
      var w := [Waited(s.sema, Amount(s.count, env))];
      assert w + (Actions(s.body, env) + Actions(rest, env)) == (w + Actions(s.body, env)) + Actions(rest, env);
    } else {
      BlockMakeActions(s, rest, env);
    }
  }

  /** An expression that does not use a name is worth the same wherever the name is bound. */
  lemma {:induction false} EvalUnused(e: Expr, x: string, v: int, env: Env)
    requires !ExprUses(e, x)
    ensures Eval(e, env[x := v]) == Eval(e, env)
  {
    match e
    case IntImm(_) =>
    case Variable(_) =>
    case Add(a, b) => EvalUnused(a, x, v, env); EvalUnused(b, x, v, env);
    case Sub(a, b) => EvalUnused(a, x, v, env); EvalUnused(b, x, v, env);
    case Mul(a, b) => EvalUnused(a, x, v, env); EvalUnused(b, x, v, env);
    case Mod(a, b) => EvalUnused(a, x, v, env); EvalUnused(b, x, v, env);
    case Less(a, b) => EvalUnused(a, x, v, env); EvalUnused(b, x, v, env);
  }

  lemma {:induction false} PullOutActions(let: Stmt, s: Stmt, env: Env)
    requires IsLet(let)
    ensures Actions(PullOut(let, s), env) == Actions(WithBody(let, s), env)
  {
    if s.Acquire? && !UsesLet(s.sema, s.count, let) && let.LetStmt? {
      EvalUnused(s.count, let.name, Eval(let.value, env), env);
    }
  }

  /** Every task performs the same work, waits, signals and forks in the same order as before. */
  lemma {:induction false} ExpandKeepsActions(s: Stmt, env: Env)
    ensures Actions(Expand(s), env) == Actions(s, env)
    ensures Expand(s).Fork? <==> s.Fork?
    ensures s.Fork? ==> Tasks(Expand(s), env) == Tasks(s, env)
    decreases Size(s), 1, 0
  {
    hide UsesLet, Eval, Amount, Expand;
    ExpandStep(s);
    match s
    case Block(first, rest) =>
      ExpandKeepsActions(first, env);
      ExpandKeepsActions(rest, env);
      AppendActions(Expand(first), Expand(rest), env);
    case Scoped(scoping, body) =>
      var b := Expand(body);
      ExpandKeepsActions(body, env);
      if scoping.MakeSemaphore? {
        PullOutActions(s, b, env);
      } else if b.Acquire? && !scoping.Allocate? {
        ExpandKeepsActions(Scoped(scoping, b.body), env);
      }
    case LetStmt(x, value, body) =>
      ExpandKeepsActions(body, env[x := Eval(value, env)]);
      PullOutActions(s, Expand(body), env);
    case ProducerConsumer(x, isProducer, body) =>
      var b := Expand(body);
      ExpandKeepsActions(body, env);
      if b.Acquire? {
        ExpandKeepsActions(ProducerConsumer(x, isProducer, b.body), env);
      }
    case For(x, min, max, body) => ExpandKeepsLoop(x, Eval(min, env), Eval(max, env), body, env);
    case Fork(first, rest) =>
      ExpandKeepsActions(first, env);
      ExpandKeepsActions(rest, env);
      assert Branch(Expand(first), env) == Branch(first, env) && Branch(Expand(rest), env) == Branch(rest, env);
      ForkMakeTasks(Expand(first), Expand(rest), env);
    case IfThenElse(c, thenCase, elseCase) => ExpandKeepsActions(thenCase, env); ExpandKeepsActions(elseCase, env);
    case Atomic(_, body) => ExpandKeepsActions(body, env);
    case Acquire(_, _, body) => ExpandKeepsActions(body, env);
    case _ =>
  }

  lemma {:induction false} ExpandKeepsLoop(x: string, lo: int, hi: int, body: Stmt, env: Env)
    ensures ActionsLoop(x, lo, hi, Expand(body), env) == ActionsLoop(x, lo, hi, body, env)
    decreases Size(body), 2, if hi < lo then 0 else hi - lo + 1
  {
    if lo <= hi {
      ExpandKeepsActions(body, env[x := lo]);
      ExpandKeepsLoop(x, lo + 1, hi, body, env);
    }
  }

  // ---- No acquire leaves the scope of a let it uses ----

  datatype Name = Var(x: string) | Sema(sema: Semaphore)

  function ExprNames(e: Expr): set<Name> {
    match e
    case IntImm(_) => {}
    case Variable(x) => {Var(x)}
    case Add(a, b) => ExprNames(a) + ExprNames(b)
    case Sub(a, b) => ExprNames(a) + ExprNames(b)
    case Mul(a, b) => ExprNames(a) + ExprNames(b)
    case Mod(a, b) => ExprNames(a) + ExprNames(b)
    case Less(a, b) => ExprNames(a) + ExprNames(b)
  }

  function Bound(let: Stmt): Name
    requires IsLet(let)
  {
    if let.LetStmt? then Var(let.name) else Sema(let.scoping.sema)
  }

  /** The names used by acquires of `s` outside any let of that name. */
  function FreeInAcquires(s: Stmt): set<Name> {
    match s
    case LetStmt(x, _, body) => FreeInAcquires(body) - {Var(x)}
    case Scoped(scoping, body) => if scoping.MakeSemaphore? then FreeInAcquires(body) - {Sema(scoping.sema)} else FreeInAcquires(body)
    case For(_, _, _, body) => FreeInAcquires(body)
    case Block(first, rest) => FreeInAcquires(first) + FreeInAcquires(rest)
    case Fork(first, rest) => FreeInAcquires(first) + FreeInAcquires(rest)
    case IfThenElse(_, thenCase, elseCase) => FreeInAcquires(thenCase) + FreeInAcquires(elseCase)
    case Atomic(_, body) => FreeInAcquires(body)
    case ProducerConsumer(_, _, body) => FreeInAcquires(body)
    case Acquire(sema, count, body) => {Sema(sema)} + ExprNames(count) + FreeInAcquires(body)
    case _ => {}
  }

  lemma {:induction false} BlockMakeKeepsNames(first: Stmt, rest: Stmt)
    ensures FreeInAcquires(BlockMake(first, rest)) == FreeInAcquires(first) + FreeInAcquires(rest)
  {
    if first.Block? { BlockMakeKeepsNames(first.rest, rest); }
  }

  lemma {:induction false} ForkMakeKeepsNames(first: Stmt, rest: Stmt)
    ensures FreeInAcquires(ForkMake(first, rest)) == FreeInAcquires(first) + FreeInAcquires(rest)
  {
    if first.Fork? { ForkMakeKeepsNames(first.rest, rest); }
  }

  lemma {:induction false} MakesKeepNames(first: Stmt, rest: Stmt)
    ensures FreeInAcquires(BlockMake(first, rest)) == FreeInAcquires(first) + FreeInAcquires(rest)
    ensures FreeInAcquires(ForkMake(first, rest)) == FreeInAcquires(first) + FreeInAcquires(rest)
  {
    hide FreeInAcquires, BlockMake, ForkMake;
    BlockMakeKeepsNames(first, rest);
    ForkMakeKeepsNames(first, rest);
  }

  lemma {:induction false} AppendKeepsNames(s: Stmt, rest: Stmt)
    ensures FreeInAcquires(Append(s, rest)) == FreeInAcquires(s) + FreeInAcquires(rest)
  {
    if s.Acquire? { AppendKeepsNames(s.body, rest); } else { MakesKeepNames(s, rest); }
  }

  lemma {:induction false} UsesIsName(e: Expr, x: string)
    ensures ExprUses(e, x) <==> Var(x) in ExprNames(e)
    ensures forall sema :: Sema(sema) !in ExprNames(e)
  {
    match e
    case IntImm(_) =>
    case Variable(_) =>
    case Add(a, b) => UsesIsName(a, x); UsesIsName(b, x);
    case Sub(a, b) => UsesIsName(a, x); UsesIsName(b, x);
    case Mul(a, b) => UsesIsName(a, x); UsesIsName(b, x);
    case Mod(a, b) => UsesIsName(a, x); UsesIsName(b, x);
    case Less(a, b) => UsesIsName(a, x); UsesIsName(b, x);
  }

  lemma {:induction false} PullOutKeepsNames(let: Stmt, s: Stmt)
    requires IsLet(let)
    ensures FreeInAcquires(PullOut(let, s)) == FreeInAcquires(s) - {Bound(let)}
  {
    if s.Acquire? { UsesIsName(s.count, if let.LetStmt? then let.name else ""); }
  }

  /** The acquires of the rewritten statement use exactly the same names from outside: none has left
      the let that binds its semaphore or a variable of its count. */
  lemma {:induction false} AcquiresStayInScope(s: Stmt)
    ensures FreeInAcquires(Expand(s)) == FreeInAcquires(s)
    decreases Size(s)
  {
    hide Append, PullOut, ForkMake, UsesLet, ExprNames, Expand;
    ExpandStep(s);
    match s
    case Block(first, rest) =>
      AcquiresStayInScope(first);
      AcquiresStayInScope(rest);
      AppendKeepsNames(Expand(first), Expand(rest));
    case Scoped(scoping, body) =>
      var b := Expand(body);
      AcquiresStayInScope(body);
      if scoping.MakeSemaphore? {
        PullOutKeepsNames(s, b);
      } else if b.Acquire? && !scoping.Allocate? {
        AcquiresStayInScope(Scoped(scoping, b.body));
      }
    case LetStmt(_, _, body) => AcquiresStayInScope(body); PullOutKeepsNames(s, Expand(body));
    case ProducerConsumer(x, isProducer, body) =>
      var b := Expand(body);
      AcquiresStayInScope(body);
      if b.Acquire? { AcquiresStayInScope(ProducerConsumer(x, isProducer, b.body)); }
    case For(_, _, _, body) => AcquiresStayInScope(body);
    case Fork(first, rest) => AcquiresStayInScope(first); AcquiresStayInScope(rest); MakesKeepNames(Expand(first), Expand(rest));
    case IfThenElse(_, thenCase, elseCase) => AcquiresStayInScope(thenCase); AcquiresStayInScope(elseCase);
    case Atomic(_, body) => AcquiresStayInScope(body);
    case Acquire(_, _, body) => AcquiresStayInScope(body);
    case _ =>
  }

  // ---- The visitors, which walk whole chains of blocks and lets at once ----

  function AppendAll(stmts: seq<Stmt>, result: Stmt): Stmt {
    if stmts == [] then result
    else AppendAll(stmts[..|stmts| - 1], Append(stmts[|stmts| - 1], result))
  }

  lemma {:induction false} AppendAllFirst(stmts: seq<Stmt>, s: Stmt, result: Stmt)
    ensures AppendAll(stmts + [s], result) == AppendAll(stmts, Append(s, result))
  {
    assert (stmts + [s])[..|stmts|] == stmts;
  }

  function Wrap(semaphores: seq<(Semaphore, Expr)>, s: Stmt): Stmt {
    if semaphores == [] then s else Acquire(semaphores[0].0, semaphores[0].1, Wrap(semaphores[1..], s))
  }

  lemma {:induction false} WrapLast(semaphores: seq<(Semaphore, Expr)>, a: (Semaphore, Expr), s: Stmt)
    ensures Wrap(semaphores + [a], s) == Wrap(semaphores, Acquire(a.0, a.1, s))
  {
    if semaphores != [] {
      WrapLast(semaphores[1..], a, s);
      assert (semaphores + [a])[1..] == semaphores[1..] + [a];
    } else {
      assert semaphores + [a] == [a] && [a][1..] == [];
    }
  }

  lemma {:induction false} WrapAppend(semaphores: seq<(Semaphore, Expr)>, s: Stmt, rest: Stmt)
    requires !s.Acquire?
    ensures Append(Wrap(semaphores, s), rest) == Wrap(semaphores, BlockMake(s, rest))
  {
    if semaphores != [] { WrapAppend(semaphores[1..], s, rest); }
  }

  /** Prepends one rewritten statement, keeping its acquires outermost. */
  method Prepend(stmt: Stmt, rest: Stmt) returns (result: Stmt)
    ensures result == Append(stmt, rest)
  {
    var s := stmt;
    var semaphores: seq<(Semaphore, Expr)> := [];
    while s.Acquire?
      invariant stmt == Wrap(semaphores, s)
      decreases s
    {
      WrapLast(semaphores, (s.sema, s.count), s.body);
      semaphores := semaphores + [(s.sema, s.count)];
      s := s.body;
    }
    WrapAppend(semaphores, s, rest);
    result := BlockMake(s, rest);
    while semaphores != []
      invariant Append(stmt, rest) == Wrap(semaphores, result)
    {
      var last := semaphores[|semaphores| - 1];
      WrapLast(semaphores[..|semaphores| - 1], last, result);
      assert semaphores[..|semaphores| - 1] + [last] == semaphores;
      result := Acquire(last.0, last.1, result);
      semaphores := semaphores[..|semaphores| - 1];
    }
  }

  method VisitBlock(block: Stmt) returns (result: Stmt)
    requires block.Block?
    ensures result == Expand(block)
    decreases Size(block), 0
  {
    var stmts: seq<Stmt> := [];
    result := block;
    while result.Block?
      invariant Expand(block) == AppendAll(stmts, Expand(result))
      invariant Size(result) <= Size(block) && (result == block || Size(result) < Size(block))
      invariant result == block ==> stmts == []
      decreases result
    {
      var first := Mutate(result.first);
      AppendAllFirst(stmts, first, Expand(result.rest));
      stmts := stmts + [first];
      result := result.rest;
    }
    result := Mutate(result);
    while stmts != []
      invariant Expand(block) == AppendAll(stmts, result)
    {
      result := Prepend(stmts[|stmts| - 1], result);
      stmts := stmts[..|stmts| - 1];
    }
  }

  function PullAll(frames: seq<Stmt>, s: Stmt): Stmt
    requires forall i :: 0 <= i < |frames| ==> IsLet(frames[i])
  {
    if frames == [] then s else PullAll(frames[..|frames| - 1], PullOut(frames[|frames| - 1], s))
  }

  lemma {:induction false} ExpandLet(s: Stmt)
    requires IsLet(s)
    ensures Expand(s) == PullOut(s, Expand(s.body)) && Size(s.body) < Size(s)
  {
  }

  method VisitLets(let: Stmt) returns (s: Stmt)
    requires IsLet(let)
    ensures s == Expand(let)
    decreases Size(let), 0
  {
    hide Expand, UsesLet;
    var frames: seq<Stmt> := [];
    var body := let;
    while IsLet(body)
      invariant forall i :: 0 <= i < |frames| ==> IsLet(frames[i])
      invariant Expand(let) == PullAll(frames, Expand(body))
      invariant Size(body) <= Size(let) && (body == let || Size(body) < Size(let))
      decreases body
    {
      assert (frames + [body])[..|frames|] == frames;
      ExpandLet(body);
      frames := frames + [body];
      body := body.body;
    }
    s := Mutate(body);
    if s.Acquire? {
      var a := s;
      body := a.body;
      while frames != [] && !UsesLet(a.sema, a.count, frames[|frames| - 1])
        invariant forall i :: 0 <= i < |frames| ==> IsLet(frames[i])
        invariant Expand(let) == PullAll(frames, Acquire(a.sema, a.count, body))
        decreases |frames|
      {
        body := WithBody(frames[|frames| - 1], body);
        frames := frames[..|frames| - 1];
      }
      s := Acquire(a.sema, a.count, body);
    }
    while frames != []
      invariant forall i :: 0 <= i < |frames| ==> IsLet(frames[i])
      invariant frames != [] && s.Acquire? ==> UsesLet(s.sema, s.count, frames[|frames| - 1])
      invariant Expand(let) == PullAll(frames, s)
    {
      s := WithBody(frames[|frames| - 1], s);
      frames := frames[..|frames| - 1];
    }
  }

  method Mutate(s: Stmt) returns (r: Stmt)
    ensures r == Expand(s)
    decreases Size(s), 1
  {
    match s
    case Block(_, _) => r := VisitBlock(s);
    case LetStmt(_, _, _) => r := VisitLets(s);
    case Scoped(scoping, body) =>
      if scoping.MakeSemaphore? {
        r := VisitLets(s);
      } else {
        var b := Mutate(body);
        if b.Acquire? && !scoping.Allocate? {
          var inner := Mutate(Scoped(scoping, b.body));
          r := Acquire(b.sema, b.count, inner);
        } else {
          r := Scoped(scoping, b);
        }
      }
    case ProducerConsumer(x, isProducer, body) =>
      var b := Mutate(body);
      if b.Acquire? {
        var inner := Mutate(ProducerConsumer(x, isProducer, b.body));
        r := Acquire(b.sema, b.count, inner);
      } else {
        r := ProducerConsumer(x, isProducer, b);
      }
    case For(x, min, max, body) =>
      var b := Mutate(body);
      r := For(x, min, max, b);
    case Fork(first, rest) =>
      var b1 := Mutate(first);
      var b2 := Mutate(rest);
      r := ForkMake(b1, b2);
    case IfThenElse(c, thenCase, elseCase) =>
      var b1 := Mutate(thenCase);
      var b2 := Mutate(elseCase);
      r := IfThenElse(c, b1, b2);
    case Atomic(x, body) =>
      var b := Mutate(body);
      r := Atomic(x, b);
    case Acquire(sema, n, body) =>
      var b := Mutate(body);
      r := Acquire(sema, n, b);
    case _ => r := s;
  }
}
