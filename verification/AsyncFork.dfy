/** Forking a serial body into a producer task and a consumer task. */
module AsyncFork {
  import opened AsyncIR
  import opened Flatten
  import opened ForkInput
  import opened HalfPlaces
  import opened WorkSites

  datatype ForkError = DuplicateProduceNode | BadProducerNesting

  datatype Result<T> = Success(value: T) | Failure(error: ForkError) {
    predicate IsFailure() { Failure? }
    function PropagateFailure<U>(): Result<U> requires Failure? { Failure(error) }
    function Extract(): T requires Success? { value }
  }

  // ---- The two halves of a serial trace ----

  /** One release of every semaphore, the last semaphore first. */
  function Releases(semas: seq<Semaphore>): seq<Event> {
    if semas == [] then [] else [Released(semas[|semas| - 1], 1, true)] + Releases(semas[..|semas| - 1])
  }

  /** What the producer task does for one serial event. */
  function ProducerShare(e: Event, f: string, semas: seq<Semaphore>): seq<Event> {
    match e
    case Work(leaf, _, inside) => if inside || (leaf.Store? && IsProducerCounter(leaf.buffer, f)) then [e] else []
    case Acquired(_, _, _) => [e]
    case Released(_, _, inside) => if inside then [e] else []
    case ProduceBegin => [e]
    case ProduceEnd => Releases(semas) + [e]
    case ConsumeBegin(_) => []
    case ConsumeEnd(_) => []
  }

  /** What the consumer task does for one serial event: node `i` waits on the i-th semaphore from the back. */
  function ConsumerShare(e: Event, f: string, semas: seq<Semaphore>): seq<Event> {
    match e
    case Work(leaf, _, inside) => if inside || (leaf.Store? && IsFoldingHead(leaf.buffer, f)) then [] else [e]
    case Acquired(_, _, _) => []
    case Released(_, _, inside) => if inside then [] else [e]
    case ProduceBegin => []
    case ProduceEnd => []
    case ConsumeBegin(i) => if i < |semas| then [Acquired(semas[|semas| - 1 - i], 1, false), e] else [e]
    case ConsumeEnd(_) => [e]
  }

  function ProducerShares(f: string, semas: seq<Semaphore>): Event -> seq<Event> { e => ProducerShare(e, f, semas) }

  function ConsumerShares(f: string, semas: seq<Semaphore>): Event -> seq<Event> { e => ConsumerShare(e, f, semas) }

  function ProducerTrace(t: seq<Event>, f: string, semas: seq<Semaphore>): seq<Event> {
    Flat(t, ProducerShares(f, semas))
  }

  function ConsumerTrace(t: seq<Event>, f: string, semas: seq<Semaphore>): seq<Event> {
    Flat(t, ConsumerShares(f, semas))
  }

  /** Events of a plain statement: no markers, no acquires, and every event carries `inside`. */
  predicate PlainEvent(e: Event, f: string, inside: bool) {
    match e
    case Work(leaf, _, i) => i == inside && (leaf.Store? ==> !IsProducerCounter(leaf.buffer, f))
    case Released(_, _, i) => i == inside
    case _ => false
  }

  predicate PlainTrace(t: seq<Event>, f: string, inside: bool) {
    forall i :: 0 <= i < |t| ==> PlainEvent(t[i], f, inside)
  }

  lemma {:induction false} PlainRun(s: Stmt, f: string, env: Env, k: nat, inside: bool)
    requires Plain(s, f)
    ensures PlainTrace(Run(s, f, env, k, inside), f, inside)
    ensures ConsumeNodes(s, f) == 0 && ProduceNodes(s, f) == 0
    decreases s, 0
  {
    match s
    case LetStmt(x, value, body) => PlainRun(body, f, env[x := Eval(value, env)], k, inside);
    case Scoped(_, body) => PlainRun(body, f, env, k, inside);
    case For(x, min, max, body) =>
      PlainRun(body, f, env, k, inside);
      PlainRunLoop(x, Eval(min, env), Eval(max, env), body, f, env, k, inside);
    case Block(first, rest) =>
      PlainRun(first, f, env, k, inside);
      PlainRun(rest, f, env, k + ConsumeNodes(first, f), inside);
    case IfThenElse(c, thenCase, elseCase) =>
      PlainRun(thenCase, f, env, k, inside);
      PlainRun(elseCase, f, env, k + ConsumeNodes(thenCase, f), inside);
    case Atomic(_, body) => PlainRun(body, f, env, k, inside);
    case ProducerConsumer(_, _, body) => PlainRun(body, f, env, k, inside);
    case _ =>
  }

  lemma {:induction false} PlainRunLoop(x: string, lo: int, hi: int, body: Stmt, f: string, env: Env, k: nat, inside: bool)
    requires Plain(body, f)
    ensures PlainTrace(RunLoop(x, lo, hi, body, f, env, k, inside), f, inside)
    decreases body, if hi < lo then 0 else hi - lo + 1
  {
    if lo <= hi {
      PlainRun(body, f, env[x := lo], k, inside);
      PlainRunLoop(x, lo + 1, hi, body, f, env, k, inside);
    }
  }

  /** Plain work inside a produce node goes to the producer, plain work outside to the consumer. */
  lemma {:induction false} PlainShares(t: seq<Event>, f: string, semas: seq<Semaphore>, inside: bool)
    requires PlainTrace(t, f, inside)
    ensures ProducerTrace(t, f, semas) == if inside then t else []
    ensures ConsumerTrace(t, f, semas) == if inside then [] else t
  {
    assert forall i :: 0 <= i < |t| ==> PlainEvent(t[i], f, inside);
    FlatUniform(t, ProducerShares(f, semas), inside);
    FlatUniform(t, ConsumerShares(f, semas), !inside);
  }

  // ---- Rebuilding statements, folding no-ops away ----

  lemma {:induction false} RunMakeBlock(first: Stmt, rest: Stmt, f: string, env: Env, k: nat, inside: bool)
    ensures Run(MakeBlock(first, rest), f, env, k, inside)
         == Run(first, f, env, k, inside) + Run(rest, f, env, k + ConsumeNodes(first, f), inside)
  {
    BlockMakeSame(first, rest, f, env, k, inside);
  }

  // ---- The producer half ----

  /** `r` does the producer's share of `s`, wherever it runs. */
  ghost predicate DoesProducerShare(r: Stmt, s: Stmt, f: string, semas: seq<Semaphore>) {
    forall env, k: nat, k': nat :: Run(r, f, env, k', false) == ProducerTrace(Run(s, f, env, k, false), f, semas)
  }

  lemma {:induction false} ProducerLoop(x: string, lo: int, hi: int, r: Stmt, s: Stmt, f: string, semas: seq<Semaphore>,
                     env: Env, k: nat, k': nat)
    requires DoesProducerShare(r, s, f, semas)
    ensures RunLoop(x, lo, hi, r, f, env, k', false) == ProducerTrace(RunLoop(x, lo, hi, s, f, env, k, false), f, semas)
    decreases hi - lo
  {
    if lo <= hi {
      ProducerLoop(x, lo + 1, hi, r, s, f, semas, env, k, k');
      FlatConcat(Run(s, f, env[x := lo], k, false), RunLoop(x, lo + 1, hi, s, f, env, k, false), ProducerShares(f, semas));
    }
  }

  lemma {:induction false} ProducerFor(x: string, min: Expr, max: Expr, r: Stmt, s: Stmt, f: string, semas: seq<Semaphore>)
    requires DoesProducerShare(r, s, f, semas)
    ensures DoesProducerShare(For(x, min, max, r), For(x, min, max, s), f, semas)
    ensures r.NoOp? ==> DoesProducerShare(r, For(x, min, max, s), f, semas)
  {
    forall env, k: nat, k': nat
      ensures Run(For(x, min, max, r), f, env, k', false) == ProducerTrace(Run(For(x, min, max, s), f, env, k, false), f, semas)
    {
      ProducerLoop(x, Eval(min, env), Eval(max, env), r, s, f, semas, env, k, k');
    }
    if r.NoOp? {
      forall env, k: nat, k': nat
        ensures Run(r, f, env, k', false) == ProducerTrace(Run(For(x, min, max, s), f, env, k, false), f, semas)
      {
        ProducerLoop(x, Eval(min, env), Eval(max, env), r, s, f, semas, env, k, k');
        NoOpLoop(x, Eval(min, env), Eval(max, env), f, env, k');
      }
    }
  }

  lemma {:induction false} NoOpLoop(x: string, lo: int, hi: int, f: string, env: Env, k: nat)
    ensures RunLoop(x, lo, hi, NoOp, f, env, k, false) == []
    decreases hi - lo
  {
    if lo <= hi { NoOpLoop(x, lo + 1, hi, f, env, k); }
  }

  lemma {:induction false} ProducerBlockAt(r1: Stmt, r2: Stmt, s1: Stmt, s2: Stmt, f: string, semas: seq<Semaphore>, env: Env, k: nat, k': nat)
    requires DoesProducerShare(r1, s1, f, semas) && DoesProducerShare(r2, s2, f, semas)
    ensures Run(MakeBlock(r1, r2), f, env, k', false) == ProducerTrace(Run(Block(s1, s2), f, env, k, false), f, semas)
  {
    FlatConcat(Run(s1, f, env, k, false), Run(s2, f, env, k + ConsumeNodes(s1, f), false), ProducerShares(f, semas));
    RunMakeBlock(r1, r2, f, env, k', false);
  }

  lemma {:induction false} ProducerBlock(r1: Stmt, r2: Stmt, s1: Stmt, s2: Stmt, f: string, semas: seq<Semaphore>)
    requires DoesProducerShare(r1, s1, f, semas) && DoesProducerShare(r2, s2, f, semas)
    ensures DoesProducerShare(MakeBlock(r1, r2), Block(s1, s2), f, semas)
  {
    forall env, k: nat, k': nat { ProducerBlockAt(r1, r2, s1, s2, f, semas, env, k, k'); }
  }

  /** Names of the other Funcs whose produce nodes the producer half loses. */
  function DroppedProducers(s: Stmt, f: string): set<string> {
    match s
    case LetStmt(_, _, body) => DroppedProducers(body, f)
    case Scoped(_, body) => DroppedProducers(body, f)
    case For(_, _, _, body) => DroppedProducers(body, f)
    case Block(first, rest) => DroppedProducers(first, f) + DroppedProducers(rest, f)
    case IfThenElse(_, thenCase, elseCase) => DroppedProducers(thenCase, f) + DroppedProducers(elseCase, f)
    case Acquire(_, _, body) => DroppedProducers(body, f)
    case ProducerConsumer(name, isProducer, body) =>
      if name == f && isProducer then {}
      else (if isProducer then {name} else {}) + DroppedProducers(body, f)
    case _ => {}
  }

  /** Names of all Funcs with a consume node in `s`. */
  function ConsumedFuncs(s: Stmt): set<string> {
    match s
    case LetStmt(_, _, body) => ConsumedFuncs(body)
    case Scoped(_, body) => ConsumedFuncs(body)
    case For(_, _, _, body) => ConsumedFuncs(body)
    case Block(first, rest) => ConsumedFuncs(first) + ConsumedFuncs(rest)
    case Fork(first, rest) => ConsumedFuncs(first) + ConsumedFuncs(rest)
    case IfThenElse(_, thenCase, elseCase) => ConsumedFuncs(thenCase) + ConsumedFuncs(elseCase)
    case Atomic(_, body) => ConsumedFuncs(body)
    case Acquire(_, _, body) => ConsumedFuncs(body)
    case ProducerConsumer(name, isProducer, body) => (if isProducer then {} else {name}) + ConsumedFuncs(body)
    case _ => {}
  }

  /** The producer of `f` consumes nothing whose producer went to the other half, neither inside its
      own node nor in a consume node around it.  `found` says a produce node of `f` came earlier. */
  predicate WellNested(s: Stmt, f: string, dropped: set<string>, found: bool) {
    match s
    case LetStmt(_, _, body) => WellNested(body, f, dropped, found)
    case Scoped(_, body) => WellNested(body, f, dropped, found)
    case For(_, _, _, body) => WellNested(body, f, dropped, found)
    case Block(first, rest) =>
      WellNested(first, f, dropped, found)
      && WellNested(rest, f, dropped + DroppedProducers(first, f), found || ProduceNodes(first, f) > 0)
    case IfThenElse(_, thenCase, elseCase) =>
      WellNested(thenCase, f, dropped, found)
      && WellNested(elseCase, f, dropped + DroppedProducers(thenCase, f), found || ProduceNodes(thenCase, f) > 0)
    case Acquire(_, _, body) => WellNested(body, f, dropped, found)
    case ProducerConsumer(name, isProducer, body) =>
      if name == f && isProducer then ConsumedFuncs(body) !! dropped
      else if isProducer then WellNested(body, f, dropped + {name}, found)
      else WellNested(body, f, dropped, found)
           && !(name in dropped + DroppedProducers(body, f) && !found && ProduceNodes(body, f) > 0)
    case _ => true
  }

  lemma {:induction false} PlainIsForkable(s: Stmt, f: string)
    ensures Plain(s, f) ==> Forkable(s, f)
  {
    match s
    case LetStmt(_, _, body) => PlainIsForkable(body, f);
    case Scoped(_, body) => PlainIsForkable(body, f);
    case For(_, _, _, body) => PlainIsForkable(body, f);
    case Block(first, rest) => PlainIsForkable(first, f); PlainIsForkable(rest, f);
    case IfThenElse(_, thenCase, elseCase) => PlainIsForkable(thenCase, f); PlainIsForkable(elseCase, f);
    case ProducerConsumer(_, _, body) => PlainIsForkable(body, f);
    case _ =>
  }

  /** A statement without nodes of `f` is traced the same whatever precedes it. */
  lemma {:induction false} PlainRunAnyK(s: Stmt, f: string, env: Env, k: nat, k': nat, inside: bool)
    requires Plain(s, f)
    ensures Run(s, f, env, k, inside) == Run(s, f, env, k', inside)
    decreases s, 0
  {
    match s
    case LetStmt(x, value, body) => PlainRunAnyK(body, f, env[x := Eval(value, env)], k, k', inside);
    case Scoped(_, body) => PlainRunAnyK(body, f, env, k, k', inside);
    case For(x, min, max, body) => PlainRunLoopAnyK(x, Eval(min, env), Eval(max, env), body, f, env, k, k', inside);
    case Block(first, rest) =>
      PlainRunAnyK(first, f, env, k, k', inside);
      PlainRunAnyK(rest, f, env, k + ConsumeNodes(first, f), k' + ConsumeNodes(first, f), inside);
    case IfThenElse(c, thenCase, elseCase) =>
      PlainRunAnyK(thenCase, f, env, k, k', inside);
      PlainRunAnyK(elseCase, f, env, k + ConsumeNodes(thenCase, f), k' + ConsumeNodes(thenCase, f), inside);
    case Atomic(_, body) => PlainRunAnyK(body, f, env, k, k', inside);
    case ProducerConsumer(_, _, body) => PlainRunAnyK(body, f, env, k, k', inside);
    case _ =>
  }

  lemma {:induction false} PlainRunLoopAnyK(x: string, lo: int, hi: int, body: Stmt, f: string, env: Env, k: nat, k': nat, inside: bool)
    requires Plain(body, f)
    ensures RunLoop(x, lo, hi, body, f, env, k, inside) == RunLoop(x, lo, hi, body, f, env, k', inside)
    decreases body, if hi < lo then 0 else hi - lo + 1
  {
    if lo <= hi {
      PlainRunAnyK(body, f, env[x := lo], k, k', inside);
      PlainRunLoopAnyK(x, lo + 1, hi, body, f, env, k, k', inside);
    }
  }

  /** The producer does nothing for a consume node of `f` with a plain body. */
  lemma {:induction false} OwnConsumeNodeTrace(body: Stmt, f: string, semas: seq<Semaphore>)
    requires Plain(body, f)
    ensures DoesProducerShare(NoOp, ProducerConsumer(f, false, body), f, semas)
    ensures ProduceNodes(body, f) == 0
  {
    PlainRun(body, f, map[], 0, false);
    forall env, k: nat, k': nat
      ensures Run(NoOp, f, env, k', false) == ProducerTrace(Run(ProducerConsumer(f, false, body), f, env, k, false), f, semas)
    {
      PlainRun(body, f, env, k + 1, false);
      PlainShares(Run(body, f, env, k + 1, false), f, semas, false);
      FlatSandwich(ConsumeBegin(k), Run(body, f, env, k + 1, false), ConsumeEnd(k), ProducerShares(f, semas));
    }
  }

  lemma {:induction false} ProducerLeaf(s: Stmt, f: string, semas: seq<Semaphore>)
    requires s.Do? || s.NoOp? || s.Release?
    ensures DoesProducerShare(if s.Do? && s.leaf.Store? && IsProducerCounter(s.leaf.buffer, f) then s else NoOp, s, f, semas)
  {
    if s.Do? { forall env { FlatOne(Work(s.leaf, env, false), ProducerShares(f, semas)); } }
    if s.Release? { FlatOne(Released(s.sema, s.amount, false), ProducerShares(f, semas)); }
  }

  lemma {:induction false} ProducerScoped(scoping: Scoping, r: Stmt, s: Stmt, f: string, semas: seq<Semaphore>)
    requires DoesProducerShare(r, s, f, semas)
    ensures DoesProducerShare(r, Scoped(scoping, s), f, semas) && DoesProducerShare(Scoped(scoping, r), Scoped(scoping, s), f, semas)
  {
  }

  lemma {:induction false} ProducerLet(x: string, value: Expr, r: Stmt, s: Stmt, f: string, semas: seq<Semaphore>)
    requires DoesProducerShare(r, s, f, semas)
    ensures DoesProducerShare(if r.NoOp? then r else LetStmt(x, value, r), LetStmt(x, value, s), f, semas)
  {
    forall env, k: nat, k': nat
      ensures Run(LetStmt(x, value, r), f, env, k', false) == ProducerTrace(Run(LetStmt(x, value, s), f, env, k, false), f, semas)
      ensures r.NoOp? ==> Run(r, f, env, k', false) == Run(LetStmt(x, value, r), f, env, k', false)
    {
      assert Run(r, f, env[x := Eval(value, env)], k', false)
          == ProducerTrace(Run(s, f, env[x := Eval(value, env)], k, false), f, semas);
    }
  }

  lemma {:induction false} ProducerAcquire(sema: Semaphore, n: Expr, r: Stmt, s: Stmt, f: string, semas: seq<Semaphore>)
    requires DoesProducerShare(r, s, f, semas)
    ensures DoesProducerShare(Acquire(sema, n, r), Acquire(sema, n, s), f, semas)
  {
    forall env, k: nat, k': nat
      ensures Run(Acquire(sema, n, r), f, env, k', false) == ProducerTrace(Run(Acquire(sema, n, s), f, env, k, false), f, semas)
    {
      FlatConcat([Acquired(sema, Amount(n, env), false)], Run(s, f, env, k, false), ProducerShares(f, semas));
      FlatOne(Acquired(sema, Amount(n, env), false), ProducerShares(f, semas));
    }
  }

  /** A node that is not the produce node of `f`. */
  lemma {:induction false} ProducerNode(name: string, isProducer: bool, r: Stmt, s: Stmt, f: string, semas: seq<Semaphore>)
    requires DoesProducerShare(r, s, f, semas) && (name == f ==> !isProducer && Plain(s, f) && r.NoOp?)
    ensures name != f ==> DoesProducerShare(ProducerConsumer(name, isProducer, r), ProducerConsumer(name, isProducer, s), f, semas)
    ensures name != f || r.NoOp? ==> DoesProducerShare(r, ProducerConsumer(name, isProducer, s), f, semas)
  {
    if name == f { OwnConsumeNodeTrace(s, f, semas); }
  }

  lemma {:induction false} ProducerIf(c: Expr, r1: Stmt, r2: Stmt, s1: Stmt, s2: Stmt, f: string, semas: seq<Semaphore>)
    requires DoesProducerShare(r1, s1, f, semas) && DoesProducerShare(r2, s2, f, semas)
    ensures DoesProducerShare(IfThenElse(c, r1, r2), IfThenElse(c, s1, s2), f, semas)
    ensures r1.NoOp? && r2.NoOp? ==> DoesProducerShare(r1, IfThenElse(c, s1, s2), f, semas)
  {
    forall env, k: nat, k': nat
      ensures Run(IfThenElse(c, r1, r2), f, env, k', false) == ProducerTrace(Run(IfThenElse(c, s1, s2), f, env, k, false), f, semas)
    {
      assert Run(r1, f, env, k', false) == ProducerTrace(Run(s1, f, env, k, false), f, semas);
      assert Run(r2, f, env, k' + ConsumeNodes(r1, f), false)
          == ProducerTrace(Run(s2, f, env, k + ConsumeNodes(s1, f), false), f, semas);
    }
  }

  lemma {:induction false} ProducerAtomic(name: string, body: Stmt, f: string, semas: seq<Semaphore>)
    requires Plain(body, f)
    ensures DoesProducerShare(NoOp, Atomic(name, body), f, semas) && ProduceNodes(body, f) == 0
  {
    PlainRun(body, f, map[], 0, false);
    forall env, k: nat ensures ProducerTrace(Run(body, f, env, k, false), f, semas) == [] {
      PlainRun(body, f, env, k, false);
      PlainShares(Run(body, f, env, k, false), f, semas, false);
    }
  }

  /** `r` runs `s` inside a produce node and then does `done`. */
  ghost predicate Appends(r: Stmt, s: Stmt, f: string, done: seq<Event>) {
    && ConsumeNodes(r, f) == 0 && ProduceNodes(r, f) == 0
    && forall env, k: nat, k': nat :: Run(r, f, env, k', true) == Run(s, f, env, k, true) + done
  }

  lemma {:induction false} AppendsNothing(s: Stmt, f: string)
    requires Plain(s, f)
    ensures Appends(s, s, f, [])
  {
    hide Run, Plain;
    PlainRun(s, f, map[], 0, true);
    forall env, k: nat, k': nat ensures Run(s, f, env, k', true) == Run(s, f, env, k, true) + [] {
      PlainRunAnyK(s, f, env, k, k', true);
    }
  }

  lemma {:induction false} AppendRelease(r: Stmt, s: Stmt, f: string, done: seq<Event>, sema: Semaphore)
    requires Appends(r, s, f, done)
    ensures Appends(BlockMake(r, Release(sema, 1)), s, f, done + [Released(sema, 1, true)])
  {
    var b := BlockMake(r, Release(sema, 1));
    BlockMakeSame(r, Release(sema, 1), f, map[], 0, true);
    forall env, k: nat, k': nat
      ensures Run(b, f, env, k', true) == Run(s, f, env, k, true) + (done + [Released(sema, 1, true)])
    {
      BlockMakeSame(r, Release(sema, 1), f, env, k', true);
      assert Run(r, f, env, k', true) == Run(s, f, env, k, true) + done;
    }
  }

  /** The produce node with its releases does the producer's share of the plain node. */
  lemma {:induction false} OwnProduceNode(body: Stmt, b: Stmt, f: string, semas: seq<Semaphore>)
    requires Plain(body, f) && Appends(b, body, f, Releases(semas))
    ensures DoesProducerShare(ProducerConsumer(f, true, b), ProducerConsumer(f, true, body), f, semas)
  {
    hide ProducerShare, Releases, PlainTrace;
    forall env, k: nat, k': nat
      ensures Run(ProducerConsumer(f, true, b), f, env, k', false)
           == ProducerTrace(Run(ProducerConsumer(f, true, body), f, env, k, false), f, semas)
    {
      OwnProduceNodeRun(body, b, f, semas, env, k, k');
    }
  }

  lemma {:induction false} OwnProduceNodeRun(body: Stmt, b: Stmt, f: string, semas: seq<Semaphore>, env: Env, k: nat, k': nat)
    requires Plain(body, f) && Appends(b, body, f, Releases(semas))
    ensures Run(ProducerConsumer(f, true, b), f, env, k', false)
         == ProducerTrace(Run(ProducerConsumer(f, true, body), f, env, k, false), f, semas)
  {
    hide ProducerShares, Releases, PlainTrace, Flat, Plain;
    var t := Run(body, f, env, k, true);
    PlainRun(body, f, env, k, true);
    PlainShares(t, f, semas, true);
    MarkerShares(f, semas);
    FlatSandwich(ProduceBegin, t, ProduceEnd, ProducerShares(f, semas));
    assert Run(b, f, env, k', true) == t + Releases(semas);
  }

  lemma {:induction false} MarkerShares(f: string, semas: seq<Semaphore>)
    ensures ProducerShares(f, semas)(ProduceBegin) == [ProduceBegin]
    ensures ProducerShares(f, semas)(ProduceEnd) == Releases(semas) + [ProduceEnd]
  {
    hide Releases;
  }

  class GenerateProducerBody {
    const func: string
    ghost const semas: seq<Semaphore>
    var sema: seq<Semaphore>
    var producersDropped: set<string>
    var foundProducer: bool
    var innerRealizes: set<string>

    constructor (f: string, s: seq<Semaphore>)
      ensures func == f && semas == s && sema == s && producersDropped == {} && !foundProducer && innerRealizes == {}
    {
      func, semas, sema, producersDropped, foundProducer, innerRealizes := f, s, s, {}, false, {};
    }

    /** Appends one release per semaphore still held, from the back. */
    method AppendReleases(body: Stmt) returns (r: Stmt)
      requires Plain(body, func) && forall x <- sema :: x in semas
      modifies this`sema
      ensures sema == []
      ensures Appends(r, body, func, Releases(old(sema)))
      ensures Unsignalled(Sites(r), semas) == Unsignalled(Sites(body), semas)
    {
      hide Appends, Plain, Run, Unsignalled, Sites;
      r := body;
      ghost var done: seq<Event> := [];
      AppendsNothing(body, func);
      while sema != []
        invariant Appends(r, body, func, done)
        invariant done + Releases(sema) == Releases(old(sema))
        invariant (forall x <- sema :: x in semas) && Unsignalled(Sites(r), semas) == Unsignalled(Sites(body), semas)
      {
        var release := Release(sema[|sema| - 1], 1);
        AppendRelease(r, body, func, done, release.sema);
        ReleaseUnsignalled(r, release.sema, semas);
        var e := Released(release.sema, 1, true);
        assert (done + [e]) + Releases(sema[..|sema| - 1]) == done + ([e] + Releases(sema[..|sema| - 1]));
        r := BlockMake(r, release);
        done := done + [e];
        sema := sema[..|sema| - 1];
      }
      assert done + Releases([]) == done;
    }

    /** What rewriting `s` from a given state must leave behind: it succeeds exactly when `f` has at
        most one produce node left to find and consumes nothing that went to the other half, and
        then the result does the producer's share of `s`, each part of it inside what it was inside. */
    ghost predicate Rewritten(s: Stmt, r: Result<Stmt>, held: seq<Semaphore>, dropped: set<string>, found: bool, realized: set<string>)
      reads this
    {
      && (sema == semas || sema == [])
      && (r.Success? <==>
          && ProduceNodes(s, func) <= (if held == [] then 0 else 1)
          && WellNested(s, func, dropped, found))
      && (r.Success? ==>
          && DoesProducerShare(r.value, s, func, semas)
          && ProducerPlaces(r.value, s, func, semas, realized)
          && innerRealizes == realized + Realized(s, func, semas)
          && (r.value.NoOp? ==> ProduceNodes(s, func) == 0)
          && (Plain(s, func) ==> r.value.NoOp?)
          && sema == (if ProduceNodes(s, func) > 0 then [] else held)
          && producersDropped == dropped + DroppedProducers(s, func)
          && foundProducer == (found || ProduceNodes(s, func) > 0))
    }

    /** The produce node of `f` itself: kept, checked for stranded consume nodes, followed by releases. */
    method VisitOwnProduceNode(body: Stmt) returns (r: Result<Stmt>)
      requires Plain(body, func)
      requires sema == semas || sema == []
      modifies this
      ensures Rewritten(ProducerConsumer(func, true, body), r, old(sema), old(producersDropped), old(foundProducer), old(innerRealizes))
    {
      PlainRun(body, func, map[], 0, true);
      foundProducer := true;
      if sema == [] {
        return Failure(DuplicateProduceNode);
      }
      if !(ConsumedFuncs(body) !! producersDropped) {
        return Failure(BadProducerNesting);
      }
      var b := AppendReleases(body);
      r := Success(ProducerConsumer(func, true, b));
      OwnProduceNode(body, b, func, semas);
      OwnNodePlaces(body, b, func, semas, innerRealizes);
    }

    /** A produce node of another Func loses its marker; a consume node keeps it around what is left. */
    method VisitOtherNode(name: string, isProducer: bool, body: Stmt) returns (r: Result<Stmt>)
      requires name != func || !isProducer
      requires if name == func then Plain(body, func) else Forkable(body, func)
      requires sema == semas || sema == []
      modifies this
      ensures Rewritten(ProducerConsumer(name, isProducer, body), r, old(sema), old(producersDropped), old(foundProducer), old(innerRealizes))
      decreases body, 2
    {
      hide Run, DoesProducerShare, ProducerPlaces, Realized;
      if isProducer {
        producersDropped := producersDropped + {name};
      }
      var foundBefore := foundProducer;
      PlainIsForkable(body, func);
      ghost var dropped := old(producersDropped) + (if isProducer then {name} else {});
      assert producersDropped == dropped;
      var b :- Mutate(body);
      assert Plain(ProducerConsumer(name, isProducer, body), func) ==> b.NoOp?;
      if !isProducer && name in producersDropped && foundProducer && !foundBefore {
        return Failure(BadProducerNesting);
      }
      r := Success(if b.NoOp? || isProducer then b else ProducerConsumer(name, isProducer, b));
      if name == func {
        OwnConsumeNodeTrace(body, func, semas);
      }
      ProducerNode(name, isProducer, b, body, func, semas);
      OtherNodePlaces(name, isProducer, body, b, old(innerRealizes));
      assert dropped + DroppedProducers(body, func)
          == old(producersDropped) + DroppedProducers(ProducerConsumer(name, isProducer, body), func);
    }

    lemma {:induction false} OtherNodePlaces(name: string, isProducer: bool, body: Stmt, b: Stmt, realized: set<string>)
      requires (name != func || !isProducer) && (name == func ==> Plain(body, func) && b.NoOp?)
      requires ProducerPlaces(b, body, func, semas, realized)
      ensures ProducerPlaces(if b.NoOp? || isProducer then b else ProducerConsumer(name, isProducer, b),
                             ProducerConsumer(name, isProducer, body), func, semas, realized)
      ensures Realized(ProducerConsumer(name, isProducer, body), func, semas) == Realized(body, func, semas)
    {
      hide ProducerPlaces;
      if name == func {
        PlainPlaces(ProducerConsumer(name, isProducer, body), func, semas, realized);
      } else {
        ProducerNodePlaces(name, isProducer, body, b, func, semas, realized);
      }
    }

    method VisitBlock(first: Stmt, rest: Stmt) returns (r: Result<Stmt>)
      requires Forkable(first, func) && Forkable(rest, func)
      requires sema == semas || sema == []
      modifies this
      ensures Rewritten(Block(first, rest), r, old(sema), old(producersDropped), old(foundProducer), old(innerRealizes))
      decreases Block(first, rest), 0
    {
      hide Run, DoesProducerShare, ProducerPlaces;
      assert Plain(Block(first, rest), func) <==> Plain(first, func) && Plain(rest, func);
      var b1 :- Mutate(first);
      var b2 :- Mutate(rest);
      assert producersDropped == old(producersDropped) + DroppedProducers(Block(first, rest), func);
      ProducerBlock(b1, b2, first, rest, func, semas);
      ProducerBlockPlaces(first, rest, b1, b2, func, semas, old(innerRealizes));
      r := Success(MakeBlock(b1, b2));
    }

    method VisitIf(c: Expr, thenCase: Stmt, elseCase: Stmt) returns (r: Result<Stmt>)
      requires Forkable(thenCase, func) && Forkable(elseCase, func)
      requires sema == semas || sema == []
      modifies this
      ensures Rewritten(IfThenElse(c, thenCase, elseCase), r, old(sema), old(producersDropped), old(foundProducer), old(innerRealizes))
      decreases IfThenElse(c, thenCase, elseCase), 0
    {
      hide Run, DoesProducerShare, ProducerPlaces;
      assert Plain(IfThenElse(c, thenCase, elseCase), func) <==> Plain(thenCase, func) && Plain(elseCase, func);
      var b1 :- Mutate(thenCase);
      var b2 :- Mutate(elseCase);
      assert producersDropped == old(producersDropped) + DroppedProducers(IfThenElse(c, thenCase, elseCase), func);
      ProducerIf(c, b1, b2, thenCase, elseCase, func, semas);
      ProducerIfPlaces(c, thenCase, elseCase, b1, b2, func, semas, old(innerRealizes));
      r := Success(if b1.NoOp? && b2.NoOp? then b1 else IfThenElse(c, b1, b2));
    }

    lemma {:induction false} LeftIsNoOp(b: Stmt, s: Stmt, realized: set<string>)
      requires ProducerPlaces(b, s, func, semas, realized)
      ensures b.NoOp? <==> !KeepsAny(s, func, semas)
    {
    }

    method Mutate(s: Stmt) returns (r: Result<Stmt>)
      requires Forkable(s, func)
      requires sema == semas || sema == []
      modifies this
      ensures Rewritten(s, r, old(sema), old(producersDropped), old(foundProducer), old(innerRealizes))
      decreases s, 1
    {
      hide Run, DoesProducerShare, ProducerPlaces, KeepsAny;
      assert producersDropped + {} == producersDropped && innerRealizes + {} == innerRealizes;
      match s
      case LetStmt(x, value, body) =>
        var b :- Mutate(body);
        ProducerLet(x, value, b, body, func, semas);
        ProducerFramed(s, b, func, semas, old(innerRealizes));
        r := Success(if b.NoOp? then b else LetStmt(x, value, b));
      case Scoped(scoping, body) =>
        assert Plain(s, func) == Plain(body, func) && DroppedProducers(s, func) == DroppedProducers(body, func);
        var b :- Mutate(body);
        ProducerScoped(scoping, b, body, func, semas);
        ProducerFramed(s, b, func, semas, old(innerRealizes));
        LeftIsNoOp(b, body, old(innerRealizes));
        if b.NoOp? || (scoping.HoistedStorage? && scoping.name !in innerRealizes) {
          return Success(b);
        }
        if scoping.Realize? { innerRealizes := innerRealizes + {scoping.name}; }
        r := Success(Scoped(scoping, b));
      case For(x, min, max, body) =>
        var b :- Mutate(body);
        ProducerFor(x, min, max, b, body, func, semas);
        ProducerFramed(s, b, func, semas, old(innerRealizes));
        r := Success(if b.NoOp? then b else For(x, min, max, b));
      case Block(first, rest) =>
        r := VisitBlock(first, rest);
      case IfThenElse(c, thenCase, elseCase) =>
        r := VisitIf(c, thenCase, elseCase);
      case Acquire(x, n, body) =>
        var b :- Mutate(body);
        ProducerAcquire(x, n, b, body, func, semas);
        ProducerFramed(s, b, func, semas, old(innerRealizes));
        r := Success(if b.NoOp? then b else Acquire(x, n, b));
      case Atomic(x, body) =>
        ProducerAtomic(x, body, func, semas);
        PlainPlaces(s, func, semas, innerRealizes);
        r := Success(NoOp);
      case Do(leaf) =>
        ProducerLeaf(s, func, semas);
        if leaf.Store? && IsProducerCounter(leaf.buffer, func) {
          CounterPlaces(s, func, semas, innerRealizes);
        } else {
          PlainPlaces(s, func, semas, innerRealizes);
        }
        r := Success(if leaf.Store? && IsProducerCounter(leaf.buffer, func) then s else NoOp);
      case ProducerConsumer(x, isProducer, body) =>
        if x == func && isProducer {
          r := VisitOwnProduceNode(body);
        } else {
          r := VisitOtherNode(x, isProducer, body);
        }
      case Release(_, _) =>
        ProducerLeaf(s, func, semas);
        PlainPlaces(s, func, semas, innerRealizes);
        r := Success(NoOp);
      case NoOp =>
        ProducerLeaf(s, func, semas);
        PlainPlaces(s, func, semas, innerRealizes);
        r := Success(NoOp);
    }
  }

  // ---- The consumer half ----

  /** `r` does the consumer's share of `s` when `k` consume nodes come before it. */
  ghost predicate DoesConsumerShare(r: Stmt, s: Stmt, f: string, semas: seq<Semaphore>, k: nat) {
    && ConsumeNodes(r, f) == ConsumeNodes(s, f)
    && forall env :: Run(r, f, env, k, false) == ConsumerTrace(Run(s, f, env, k, false), f, semas)
  }

  lemma {:induction false} ConsumerLoop(x: string, lo: int, hi: int, r: Stmt, s: Stmt, f: string, semas: seq<Semaphore>,
                                        k: nat, env: Env)
    requires DoesConsumerShare(r, s, f, semas, k)
    ensures RunLoop(x, lo, hi, r, f, env, k, false) == ConsumerTrace(RunLoop(x, lo, hi, s, f, env, k, false), f, semas)
    decreases hi - lo
  {
    if lo <= hi {
      ConsumerLoop(x, lo + 1, hi, r, s, f, semas, k, env);
      FlatConcat(Run(s, f, env[x := lo], k, false), RunLoop(x, lo + 1, hi, s, f, env, k, false), ConsumerShares(f, semas));
    }
  }

  lemma {:induction false} ConsumerFor(x: string, min: Expr, max: Expr, r: Stmt, s: Stmt, f: string, semas: seq<Semaphore>, k: nat)
    requires DoesConsumerShare(r, s, f, semas, k)
    ensures DoesConsumerShare(if r.NoOp? then r else For(x, min, max, r), For(x, min, max, s), f, semas, k)
  {
    forall env
      ensures Run(For(x, min, max, r), f, env, k, false) == ConsumerTrace(Run(For(x, min, max, s), f, env, k, false), f, semas)
      ensures r.NoOp? ==> Run(For(x, min, max, r), f, env, k, false) == []
    {
      ConsumerLoop(x, Eval(min, env), Eval(max, env), r, s, f, semas, k, env);
      if r.NoOp? { NoOpLoop(x, Eval(min, env), Eval(max, env), f, env, k); }
    }
  }

  lemma {:induction false} ConsumerLet(x: string, value: Expr, r: Stmt, s: Stmt, f: string, semas: seq<Semaphore>, k: nat)
    requires DoesConsumerShare(r, s, f, semas, k)
    ensures DoesConsumerShare(if r.NoOp? then r else LetStmt(x, value, r), LetStmt(x, value, s), f, semas, k)
  {
    forall env
      ensures Run(LetStmt(x, value, r), f, env, k, false) == ConsumerTrace(Run(LetStmt(x, value, s), f, env, k, false), f, semas)
      ensures r.NoOp? ==> Run(r, f, env, k, false) == Run(LetStmt(x, value, r), f, env, k, false)
    {
      assert Run(r, f, env[x := Eval(value, env)], k, false)
          == ConsumerTrace(Run(s, f, env[x := Eval(value, env)], k, false), f, semas);
    }
  }

  lemma {:induction false} ConsumerBlockAt(r1: Stmt, r2: Stmt, s1: Stmt, s2: Stmt, f: string, semas: seq<Semaphore>, k: nat, env: Env)
    requires DoesConsumerShare(r1, s1, f, semas, k)
    requires DoesConsumerShare(r2, s2, f, semas, k + ConsumeNodes(s1, f))
    ensures Run(MakeBlock(r1, r2), f, env, k, false) == ConsumerTrace(Run(Block(s1, s2), f, env, k, false), f, semas)
  {
    hide Run, MakeBlock;
    FlatConcat(Run(s1, f, env, k, false), Run(s2, f, env, k + ConsumeNodes(s1, f), false), ConsumerShares(f, semas));
    RunMakeBlock(r1, r2, f, env, k, false);
    RunOfBlock(s1, s2, f, env, k);
  }

  lemma {:induction false} RunOfBlock(first: Stmt, rest: Stmt, f: string, env: Env, k: nat)
    ensures Run(Block(first, rest), f, env, k, false) == Run(first, f, env, k, false) + Run(rest, f, env, k + ConsumeNodes(first, f), false)
  {
  }

  lemma {:induction false} ConsumerBlock(r1: Stmt, r2: Stmt, s1: Stmt, s2: Stmt, f: string, semas: seq<Semaphore>, k: nat)
    requires DoesConsumerShare(r1, s1, f, semas, k)
    requires DoesConsumerShare(r2, s2, f, semas, k + ConsumeNodes(s1, f))
    ensures DoesConsumerShare(MakeBlock(r1, r2), Block(s1, s2), f, semas, k)
  {
    BlockMakeSame(r1, r2, f, map[], k, false);
    forall env { ConsumerBlockAt(r1, r2, s1, s2, f, semas, k, env); }
  }

  lemma {:induction false} ConsumerIfAt(c: Expr, r1: Stmt, r2: Stmt, s1: Stmt, s2: Stmt, f: string, semas: seq<Semaphore>, k: nat, env: Env)
    requires DoesConsumerShare(r1, s1, f, semas, k)
    requires DoesConsumerShare(r2, s2, f, semas, k + ConsumeNodes(s1, f))
    ensures Run(IfThenElse(c, r1, r2), f, env, k, false) == ConsumerTrace(Run(IfThenElse(c, s1, s2), f, env, k, false), f, semas)
  {
    if Eval(c, env) != 0 {
      assert Run(r1, f, env, k, false) == ConsumerTrace(Run(s1, f, env, k, false), f, semas);
    } else {
      var k2 := k + ConsumeNodes(s1, f);
      assert Run(r2, f, env, k2, false) == ConsumerTrace(Run(s2, f, env, k2, false), f, semas);
    }
  }

  lemma {:induction false} ConsumerIf(c: Expr, r1: Stmt, r2: Stmt, s1: Stmt, s2: Stmt, f: string, semas: seq<Semaphore>, k: nat)
    requires DoesConsumerShare(r1, s1, f, semas, k)
    requires DoesConsumerShare(r2, s2, f, semas, k + ConsumeNodes(s1, f))
    ensures DoesConsumerShare(if r1.NoOp? && r2.NoOp? then r1 else IfThenElse(c, r1, r2), IfThenElse(c, s1, s2), f, semas, k)
  {
    var both := IfThenElse(c, r1, r2);
    forall env
      ensures Run(both, f, env, k, false) == ConsumerTrace(Run(IfThenElse(c, s1, s2), f, env, k, false), f, semas)
      ensures r1.NoOp? && r2.NoOp? ==> Run(both, f, env, k, false) == Run(r1, f, env, k, false)
    {
      ConsumerIfAt(c, r1, r2, s1, s2, f, semas, k, env);
    }
  }

  lemma {:induction false} ConsumerOtherNode(name: string, isProducer: bool, r: Stmt, s: Stmt, f: string, semas: seq<Semaphore>, k: nat)
    requires DoesConsumerShare(r, s, f, semas, k) && name != f
    ensures DoesConsumerShare(ProducerConsumer(name, isProducer, r), ProducerConsumer(name, isProducer, s), f, semas, k)
  {
    forall env
      ensures Run(ProducerConsumer(name, isProducer, r), f, env, k, false) == Run(r, f, env, k, false)
           == ConsumerTrace(Run(ProducerConsumer(name, isProducer, s), f, env, k, false), f, semas)
    {
    }
  }

  lemma {:induction false} ConsumerAtomic(name: string, r: Stmt, s: Stmt, f: string, semas: seq<Semaphore>, k: nat)
    requires DoesConsumerShare(r, s, f, semas, k)
    ensures DoesConsumerShare(if r.NoOp? then r else Atomic(name, r), Atomic(name, s), f, semas, k)
  {
    forall env
      ensures Run(Atomic(name, r), f, env, k, false) == Run(r, f, env, k, false)
           == ConsumerTrace(Run(Atomic(name, s), f, env, k, false), f, semas)
    {
    }
  }

  lemma {:induction false} ConsumerScoped(scoping: Scoping, r: Stmt, s: Stmt, f: string, semas: seq<Semaphore>, k: nat)
    requires DoesConsumerShare(r, s, f, semas, k)
    ensures DoesConsumerShare(r, Scoped(scoping, s), f, semas, k)
    ensures DoesConsumerShare(Scoped(scoping, r), Scoped(scoping, s), f, semas, k)
  {
    forall env
      ensures Run(Scoped(scoping, r), f, env, k, false) == Run(r, f, env, k, false)
           == ConsumerTrace(Run(Scoped(scoping, s), f, env, k, false), f, semas)
    {
    }
  }

  lemma {:induction false} ConsumerLeaf(s: Stmt, f: string, semas: seq<Semaphore>, k: nat)
    requires s.Do? || s.NoOp? || s.Release?
    ensures DoesConsumerShare(if s.Do? && s.leaf.Store? && IsFoldingHead(s.leaf.buffer, f) then NoOp else s, s, f, semas, k)
  {
    if s.Do? { forall env { FlatOne(Work(s.leaf, env, false), ConsumerShares(f, semas)); } }
    if s.Release? { FlatOne(Released(s.sema, s.amount, false), ConsumerShares(f, semas)); }
  }

  lemma {:induction false} ConsumerAcquire(sema: Semaphore, n: Expr, r: Stmt, s: Stmt, f: string, semas: seq<Semaphore>, k: nat)
    requires DoesConsumerShare(r, s, f, semas, k)
    ensures DoesConsumerShare(r, Acquire(sema, n, s), f, semas, k)
  {
    forall env
      ensures Run(r, f, env, k, false) == ConsumerTrace(Run(Acquire(sema, n, s), f, env, k, false), f, semas)
    {
      FlatConcat([Acquired(sema, Amount(n, env), false)], Run(s, f, env, k, false), ConsumerShares(f, semas));
      FlatOne(Acquired(sema, Amount(n, env), false), ConsumerShares(f, semas));
    }
  }

  /** The consumer does nothing for a produce node of `f`. */
  lemma {:induction false} OwnProduceNodeShare(body: Stmt, f: string, semas: seq<Semaphore>, k: nat)
    requires Plain(body, f)
    ensures DoesConsumerShare(NoOp, ProducerConsumer(f, true, body), f, semas, k)
  {
    PlainRun(body, f, map[], k, true);
    forall env
      ensures Run(NoOp, f, env, k, false) == ConsumerTrace(Run(ProducerConsumer(f, true, body), f, env, k, false), f, semas)
    {
      PlainRun(body, f, env, k, true);
      PlainShares(Run(body, f, env, k, true), f, semas, true);
      FlatSandwich(ProduceBegin, Run(body, f, env, k, true), ProduceEnd, ConsumerShares(f, semas));
    }
  }

  /** A consume node of `f` is kept whole, behind an acquire of its own semaphore. */
  lemma {:induction false} OwnConsumeNodeShare(body: Stmt, f: string, semas: seq<Semaphore>, k: nat)
    requires Plain(body, f) && k < |semas|
    ensures DoesConsumerShare(Acquire(semas[|semas| - 1 - k], IntImm(1), ProducerConsumer(f, false, body)),
                              ProducerConsumer(f, false, body), f, semas, k)
  {
    var sema := semas[|semas| - 1 - k];
    PlainRun(body, f, map[], k + 1, false);
    forall env
      ensures Run(Acquire(sema, IntImm(1), ProducerConsumer(f, false, body)), f, env, k, false)
           == ConsumerTrace(Run(ProducerConsumer(f, false, body), f, env, k, false), f, semas)
    {
      OwnConsumeNodeRun(body, f, semas, k, env);
    }
  }

  lemma {:induction false} ConsumeShares(f: string, semas: seq<Semaphore>, k: nat)
    requires k < |semas|
    ensures ConsumerShares(f, semas)(ConsumeBegin(k)) == [Acquired(semas[|semas| - 1 - k], 1, false), ConsumeBegin(k)]
    ensures ConsumerShares(f, semas)(ConsumeEnd(k)) == [ConsumeEnd(k)]
  {
  }

  lemma {:induction false} OwnConsumeNodeRun(body: Stmt, f: string, semas: seq<Semaphore>, k: nat, env: Env)
    requires Plain(body, f) && k < |semas|
    ensures Run(Acquire(semas[|semas| - 1 - k], IntImm(1), ProducerConsumer(f, false, body)), f, env, k, false)
         == ConsumerTrace(Run(ProducerConsumer(f, false, body), f, env, k, false), f, semas)
  {
    hide ConsumerShares, PlainTrace, Flat, Plain;
    var sema, t := semas[|semas| - 1 - k], Run(body, f, env, k + 1, false);
    PlainRun(body, f, env, k + 1, false);
    PlainShares(t, f, semas, false);
    ConsumeShares(f, semas, k);
    FlatSandwich(ConsumeBegin(k), t, ConsumeEnd(k), ConsumerShares(f, semas));
    assert [Acquired(sema, 1, false), ConsumeBegin(k)] + t + [ConsumeEnd(k)]
        == [Acquired(sema, 1, false)] + ([ConsumeBegin(k)] + t + [ConsumeEnd(k)]);
  }

  class GenerateConsumerBody {
    const func: string
    ghost const semas: seq<Semaphore>
    var sema: seq<Semaphore>

    constructor (f: string, s: seq<Semaphore>)
      ensures func == f && semas == s && sema == s
    {
      func, semas, sema := f, s, s;
    }

    method VisitProducerConsumer(name: string, isProducer: bool, body: Stmt) returns (r: Stmt)
      requires if name == func then Plain(body, func) else Forkable(body, func)
      requires sema <= semas && ConsumeNodes(ProducerConsumer(name, isProducer, body), func) <= |sema|
      modifies this
      ensures sema == old(sema)[..|old(sema)| - ConsumeNodes(ProducerConsumer(name, isProducer, body), func)]
      ensures DoesConsumerShare(r, ProducerConsumer(name, isProducer, body), func, semas, |semas| - |old(sema)|)
      ensures ConsumerPlaces(r, ProducerConsumer(name, isProducer, body), func, semas)
      decreases body, 1
    {
      hide Run, DoesConsumerShare, ConsumerPlaces, Plain, Forkable;
      ghost var k := |semas| - |sema|;
      if name == func { PlainRun(body, func, map[], 0, false); }
      if name == func && isProducer {
        OwnProduceNodeShare(body, func, semas, k);
        OwnProducePlaces(body, func, semas);
        r := NoOp;
      } else if name == func {
        OwnConsumeNodeShare(body, func, semas, k);
        OwnConsumePlaces(sema[|sema| - 1], body, func, semas);
        r := Acquire(sema[|sema| - 1], IntImm(1), ProducerConsumer(name, isProducer, body));
        sema := sema[..|sema| - 1];
      } else {
        var b := Mutate(body);
        ConsumerOtherNode(name, isProducer, b, body, func, semas, k);
        ConsumerNodePlaces(name, isProducer, body, b, func, semas);
        r := ProducerConsumer(name, isProducer, b);
      }
    }

    method Mutate(s: Stmt) returns (r: Stmt)
      requires Forkable(s, func)
      requires sema <= semas && ConsumeNodes(s, func) <= |sema|
      modifies this
      ensures sema == old(sema)[..|old(sema)| - ConsumeNodes(s, func)]
      ensures DoesConsumerShare(r, s, func, semas, |semas| - |old(sema)|)
      ensures ConsumerPlaces(r, s, func, semas)
      decreases s, 0
    {
      hide Run, DoesConsumerShare, Plain, BlockMake, ConsumerPlaces;
      ghost var k := |semas| - |sema|;
      match s
      case LetStmt(x, value, body) =>
        var b := Mutate(body);
        ConsumerLet(x, value, b, body, func, semas, k);
        ConsumerFramed(s, b, func, semas);
        r := if b.NoOp? then b else LetStmt(x, value, b);
      case Scoped(scoping, body) =>
        var b := Mutate(body);
        ConsumerScoped(scoping, b, body, func, semas, k);
        ConsumerFramed(s, b, func, semas);
        r := if b.NoOp? || (scoping.Allocate? && IsFoldingHead(scoping.buffer, func)) then b else Scoped(scoping, b);
      case For(x, min, max, body) =>
        var b := Mutate(body);
        ConsumerFor(x, min, max, b, body, func, semas, k);
        ConsumerFramed(s, b, func, semas);
        r := if b.NoOp? then b else For(x, min, max, b);
      case Block(first, rest) =>
        var b1 := Mutate(first);
        var b2 := Mutate(rest);
        ConsumerBlock(b1, b2, first, rest, func, semas, k);
        ConsumerBlockPlaces(first, rest, b1, b2, func, semas);
        r := MakeBlock(b1, b2);
      case IfThenElse(c, thenCase, elseCase) =>
        var b1 := Mutate(thenCase);
        var b2 := Mutate(elseCase);
        ConsumerIf(c, b1, b2, thenCase, elseCase, func, semas, k);
        ConsumerIfPlaces(c, thenCase, elseCase, b1, b2, func, semas);
        r := if b1.NoOp? && b2.NoOp? then b1 else IfThenElse(c, b1, b2);
      case Atomic(x, body) =>
        PlainIsForkable(body, func);
        var b := Mutate(body);
        ConsumerAtomic(x, b, body, func, semas, k);
        ConsumerAtomicPlaces(x, body, b, func, semas);
        r := if b.NoOp? then b else Atomic(x, b);
      case Acquire(x, n, body) =>
        var b := Mutate(body);
        ConsumerAcquire(x, n, b, body, func, semas, k);
        ConsumerFramed(s, b, func, semas);
        r := b;
      case ProducerConsumer(x, isProducer, body) =>
        r := VisitProducerConsumer(x, isProducer, body);
      case Do(leaf) =>
        ConsumerLeaf(s, func, semas, k);
        ConsumerLeafPlaces(s, func, semas);
        r := if leaf.Store? && IsFoldingHead(leaf.buffer, func) then NoOp else s;
      case Release(_, _) =>
        ConsumerLeaf(s, func, semas, k);
        ConsumerLeafPlaces(s, func, semas);
        r := s;
      case NoOp =>
        ConsumerLeaf(s, func, semas, k);
        ConsumerLeafPlaces(s, func, semas);
        r := s;
    }
  }
}
