/** The statements the asynchronous-producer passes rewrite, and the trace each one leaves. */
module AsyncIR {

  type Env = map<string, int>

  /** Loop bounds, let values, conditions and coordinates: expressions that read no storage. */
  datatype Expr =
    | IntImm(value: int)
    | Variable(name: string)
    | Add(a: Expr, b: Expr)
    | Sub(a: Expr, b: Expr)
    | Mul(a: Expr, b: Expr)
    | Mod(a: Expr, b: Expr)
    | Less(a: Expr, b: Expr)

  /** What a statement computes: parts that read no storage, reads of a Func at coordinates that may
      themselves read, and anything put together from other values. */
  datatype Value =
    | Pure(expr: Expr)
    | Call(name: string, args: seq<Value>)
    | Combine(tag: string, parts: seq<Value>)

  /** `f.folding_semaphore.x`, `f.semaphore_i` and any other semaphore. */
  datatype Semaphore =
    | FoldingSemaphore(func: string, suffix: string)
    | ConsumeSemaphore(func: string, index: nat)
    | OtherSemaphore(name: string)

  /** Stores to `f.folding_semaphore.x.head`, to `f.ring_buffer.x` and to anything else. */
  datatype Stored =
    | FoldingHead(func: string, suffix: string)
    | RingCounter(func: string, suffix: string)
    | OtherBuffer(name: string)

  /** Statements without statements inside.  A pure Evaluate is a no-op and is `NoOp` below. */
  datatype Leaf =
    | Evaluate(value: Value)
    | Provide(name: string, args: seq<Value>, values: seq<Value>, guard: Value)
    | Store(buffer: Stored)
    | AssertStmt(tag: string)
    | Prefetch(name: string)

  /** What brings a name into scope around a body without computing anything. */
  datatype Scoping =
    | Realize(name: string, extents: seq<Expr>)
    | HoistedStorage(name: string)
    | Allocate(buffer: Stored)
    | MakeSemaphore(sema: Semaphore, initial: nat)  // LetStmt of halide_make_semaphore

  datatype Stmt =
    | NoOp
    | Do(leaf: Leaf)
    | Release(sema: Semaphore, amount: nat)  // Evaluate of halide_semaphore_release
    | LetStmt(name: string, value: Expr, body: Stmt)
    | Scoped(scoping: Scoping, body: Stmt)
    | For(name: string, min: Expr, max: Expr, body: Stmt)
    | Block(first: Stmt, rest: Stmt)
    | Fork(first: Stmt, rest: Stmt)
    | IfThenElse(condition: Expr, thenCase: Stmt, elseCase: Stmt)
    | Atomic(name: string, body: Stmt)
    | ProducerConsumer(name: string, isProducer: bool, body: Stmt)
    | Acquire(sema: Semaphore, count: Expr, body: Stmt)

  /** Halide's integer division and modulus are Euclidean, and a modulus by zero is zero. */
  function Eval(e: Expr, env: Env): int {
    match e
    case IntImm(v) => v
    case Variable(x) => if x in env then env[x] else 0
    case Add(a, b) => Eval(a, env) + Eval(b, env)
    case Sub(a, b) => Eval(a, env) - Eval(b, env)
    case Mul(a, b) => Eval(a, env) * Eval(b, env)
    case Mod(a, b) => var d := Eval(b, env); if d == 0 then 0 else Eval(a, env) % d
    case Less(a, b) => if Eval(a, env) < Eval(b, env) then 1 else 0
  }

  /** What a task does, in order, seen from one Func `f`.  `inside` marks what happens within a
      produce node of `f`; a consume node of `f` is named by its position in traversal order. */
  datatype Event =
    | Work(leaf: Leaf, env: Env, inside: bool)
    | Acquired(sema: Semaphore, count: nat, inside: bool)
    | Released(sema: Semaphore, count: nat, inside: bool)
    | ProduceBegin
    | ProduceEnd
    | ConsumeBegin(node: nat)
    | ConsumeEnd(node: nat)

  /** The number of consume nodes of `f` in `s`, which is also the number of semaphores made. */
  function ConsumeNodes(s: Stmt, f: string): nat {
    match s
    case LetStmt(_, _, body) => ConsumeNodes(body, f)
    case Scoped(_, body) => ConsumeNodes(body, f)
    case For(_, _, _, body) => ConsumeNodes(body, f)
    case Block(first, rest) => ConsumeNodes(first, f) + ConsumeNodes(rest, f)
    case Fork(first, rest) => ConsumeNodes(first, f) + ConsumeNodes(rest, f)
    case IfThenElse(_, thenCase, elseCase) => ConsumeNodes(thenCase, f) + ConsumeNodes(elseCase, f)
    case Atomic(_, body) => ConsumeNodes(body, f)
    case Acquire(_, _, body) => ConsumeNodes(body, f)
    case ProducerConsumer(name, isProducer, body) =>
      (if name == f && !isProducer then 1 else 0) + ConsumeNodes(body, f)
    case _ => 0
  }

  /** The number of produce nodes of `f` in `s`. */
  function ProduceNodes(s: Stmt, f: string): nat {
    match s
    case LetStmt(_, _, body) => ProduceNodes(body, f)
    case Scoped(_, body) => ProduceNodes(body, f)
    case For(_, _, _, body) => ProduceNodes(body, f)
    case Block(first, rest) => ProduceNodes(first, f) + ProduceNodes(rest, f)
    case Fork(first, rest) => ProduceNodes(first, f) + ProduceNodes(rest, f)
    case IfThenElse(_, thenCase, elseCase) => ProduceNodes(thenCase, f) + ProduceNodes(elseCase, f)
    case Atomic(_, body) => ProduceNodes(body, f)
    case Acquire(_, _, body) => ProduceNodes(body, f)
    case ProducerConsumer(name, isProducer, body) =>
      (if name == f && isProducer then 1 else 0) + ProduceNodes(body, f)
    case _ => 0
  }

  /** How much an acquire takes. */
  function Amount(count: Expr, env: Env): nat { if Eval(count, env) < 0 then 0 else Eval(count, env) }

  /** The serial trace of `s`; `k` consume nodes of `f` precede it.  A `Fork` is not serial, so
      it leaves no trace here: its two tasks are traced separately. */
  function Run(s: Stmt, f: string, env: Env, k: nat, inside: bool): seq<Event>
    decreases s, 0
  {
    match s
    case NoOp => []
    case Do(leaf) => [Work(leaf, env, inside)]
    case Fork(_, _) => []
    case Release(sema, n) => [Released(sema, n, inside)]
    case LetStmt(x, value, body) => Run(body, f, env[x := Eval(value, env)], k, inside)
    case Scoped(_, body) => Run(body, f, env, k, inside)
    case For(x, min, max, body) => RunLoop(x, Eval(min, env), Eval(max, env), body, f, env, k, inside)
    case Block(first, rest) =>
      Run(first, f, env, k, inside) + Run(rest, f, env, k + ConsumeNodes(first, f), inside)
    case IfThenElse(c, thenCase, elseCase) =>
      if Eval(c, env) != 0 then Run(thenCase, f, env, k, inside)
      else Run(elseCase, f, env, k + ConsumeNodes(thenCase, f), inside)
    case Atomic(_, body) => Run(body, f, env, k, inside)
    case Acquire(sema, n, body) => [Acquired(sema, Amount(n, env), inside)] + Run(body, f, env, k, inside)
    case ProducerConsumer(name, isProducer, body) =>
      if name != f then Run(body, f, env, k, inside)
      else if isProducer then [ProduceBegin] + Run(body, f, env, k, true) + [ProduceEnd]
      else [ConsumeBegin(k)] + Run(body, f, env, k + 1, inside) + [ConsumeEnd(k)]
  }

  /** The iterations `lo..hi` of a loop over `x`. */
  function RunLoop(x: string, lo: int, hi: int, body: Stmt, f: string, env: Env, k: nat, inside: bool): seq<Event>
    decreases body, if hi < lo then 0 else hi - lo + 1
  {
    if hi < lo then [] else Run(body, f, env[x := lo], k, inside) + RunLoop(x, lo + 1, hi, body, f, env, k, inside)
  }

  /** Block::make: a block whose first part is itself a block is re-nested to the right. */
  function BlockMake(first: Stmt, rest: Stmt): Stmt {
    if first.Block? then Block(first.first, BlockMake(first.rest, rest)) else Block(first, rest)
  }

  /** A block whose no-ops are folded away. */
  function MakeBlock(first: Stmt, rest: Stmt): Stmt {
    if first.NoOp? then rest else if rest.NoOp? then first else BlockMake(first, rest)
  }

  lemma {:induction false} BlockMakeNodes(first: Stmt, rest: Stmt, f: string)
    ensures ConsumeNodes(BlockMake(first, rest), f) == ConsumeNodes(first, f) + ConsumeNodes(rest, f)
    ensures ProduceNodes(BlockMake(first, rest), f) == ProduceNodes(first, f) + ProduceNodes(rest, f)
  {
    if first.Block? { BlockMakeNodes(first.rest, rest, f); }
  }

  lemma {:induction false} BlockMakeRun(first: Stmt, rest: Stmt, f: string, env: Env, k: nat, inside: bool)
    ensures Run(BlockMake(first, rest), f, env, k, inside)
         == Run(first, f, env, k, inside) + Run(rest, f, env, k + ConsumeNodes(first, f), inside)
  {
    if first.Block? {
      BlockMakeRun(first.rest, rest, f, env, k + ConsumeNodes(first.first, f), inside);
      assert Run(first.first, f, env, k, inside)
           + (Run(first.rest, f, env, k + ConsumeNodes(first.first, f), inside)
              + Run(rest, f, env, k + ConsumeNodes(first, f), inside))
          == Run(first, f, env, k, inside) + Run(rest, f, env, k + ConsumeNodes(first, f), inside);
    }
  }

  /** Re-nesting changes neither the trace nor the nodes. */
  lemma {:induction false} BlockMakeSame(first: Stmt, rest: Stmt, f: string, env: Env, k: nat, inside: bool)
    ensures Run(BlockMake(first, rest), f, env, k, inside) == Run(Block(first, rest), f, env, k, inside)
    ensures ConsumeNodes(BlockMake(first, rest), f) == ConsumeNodes(Block(first, rest), f)
    ensures ProduceNodes(BlockMake(first, rest), f) == ProduceNodes(Block(first, rest), f)
  {
    hide BlockMake;
    BlockMakeNodes(first, rest, f);
    BlockMakeRun(first, rest, f, env, k, inside);
  }
}
