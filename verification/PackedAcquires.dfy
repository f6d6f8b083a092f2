/** When work that comes after an acquire ends up inside it. */
module PackedAcquires {
  import opened AsyncIR
  import opened ExpandAcquire
  import opened BroadAcquires

  /** Work that comes after an acquire in a block lies inside it. */
  predicate Packed(s: Stmt) {
    match s
    case Block(first, rest) => !first.Acquire? && Packed(first) && Packed(rest)
    case Scoped(_, body) => Packed(body)
    case ProducerConsumer(_, _, body) => Packed(body)
    case LetStmt(_, _, body) => Packed(body)
    case For(_, _, _, body) => Packed(body)
    case Fork(first, rest) => Packed(first) && Packed(rest)
    case IfThenElse(_, thenCase, elseCase) => Packed(thenCase) && Packed(elseCase)
    case Atomic(_, body) => Packed(body)
    case Acquire(_, _, body) => Packed(body)
    case _ => true
  }

  /** Once its leading acquires are taken off, the statement is a block that ends with an acquire to come. */
  predicate EndsWaiting(s: Stmt) {
    match s
    case Block(_, rest) => Reach(rest) != [] || EndsWaiting(rest)
    case Acquire(_, _, body) => EndsWaiting(body)
    case _ => false
  }

  /** Nothing comes after a statement that ends so. */
  predicate NoneTrails(s: Stmt) {
    match s
    case Block(first, rest) => !EndsWaiting(first) && NoneTrails(first) && NoneTrails(rest)
    case Scoped(_, body) => NoneTrails(body)
    case ProducerConsumer(_, _, body) => NoneTrails(body)
    case LetStmt(_, _, body) => NoneTrails(body)
    case For(_, _, _, body) => NoneTrails(body)
    case Fork(first, rest) => NoneTrails(first) && NoneTrails(rest)
    case IfThenElse(_, thenCase, elseCase) => NoneTrails(thenCase) && NoneTrails(elseCase)
    case Atomic(_, body) => NoneTrails(body)
    case Acquire(_, _, body) => NoneTrails(body)
    case _ => true
  }

  lemma {:induction false} BlockMakeTrails(first: Stmt, rest: Stmt)
    requires NoneTrails(first) && NoneTrails(rest) && !EndsWaiting(first)
    ensures NoneTrails(BlockMake(first, rest))
    ensures EndsWaiting(BlockMake(first, rest)) <==> Reach(rest) != [] || EndsWaiting(rest)
  {
    if first.Block? {
      BlockMakeTrails(first.rest, rest);
      MakesReach(first.rest, rest, 0);
    }
  }

  lemma {:induction false} AppendTrails(s: Stmt, rest: Stmt)
    requires NoneTrails(s) && NoneTrails(rest) && !EndsWaiting(s)
    ensures NoneTrails(Append(s, rest))
    ensures EndsWaiting(Append(s, rest)) <==> Reach(rest) != [] || EndsWaiting(rest)
  {
    hide BlockMake, Reach;
    if s.Acquire? { AppendTrails(s.body, rest); } else { BlockMakeTrails(s, rest); }
  }

  lemma {:induction false} PullOutTrails(let: Stmt, s: Stmt)
    requires IsLet(let) && NoneTrails(s)
    ensures NoneTrails(PullOut(let, s)) && !EndsWaiting(PullOut(let, s))
  {
    hide UsesLet;
  }

  lemma {:induction false} ForkMakeTrails(first: Stmt, rest: Stmt)
    requires NoneTrails(first) && NoneTrails(rest)
    ensures NoneTrails(ForkMake(first, rest)) && !EndsWaiting(ForkMake(first, rest))
  {
    if first.Fork? { ForkMakeTrails(first.rest, rest); }
  }

  lemma {:induction false} ExpandKeepsTrails(s: Stmt)
    requires NoneTrails(s)
    ensures NoneTrails(Expand(s)) && (EndsWaiting(Expand(s)) <==> EndsWaiting(s))
    decreases Size(s)
  {
    hide Append, PullOut, ForkMake, UsesLet, Expand, Reach;
    ExpandStep(s);
    match s
    case Block(first, rest) =>
      ExpandKeepsTrails(first);
      ExpandKeepsTrails(rest);
      ExpandKeepsReach(rest);
      AppendTrails(Expand(first), Expand(rest));
    case Scoped(scoping, body) =>
      var b := Expand(body);
      ExpandKeepsTrails(body);
      if scoping.MakeSemaphore? {
        PullOutTrails(s, b);
      } else if b.Acquire? && !scoping.Allocate? {
        ExpandKeepsTrails(Scoped(scoping, b.body));
      }
    case LetStmt(_, _, body) => ExpandKeepsTrails(body); PullOutTrails(s, Expand(body));
    case ProducerConsumer(x, isProducer, body) =>
      var b := Expand(body);
      ExpandKeepsTrails(body);
      if b.Acquire? { ExpandKeepsTrails(ProducerConsumer(x, isProducer, b.body)); }
    case For(_, _, _, body) => ExpandKeepsTrails(body);
    case Fork(first, rest) => ExpandKeepsTrails(first); ExpandKeepsTrails(rest); ForkMakeTrails(Expand(first), Expand(rest));
    case IfThenElse(_, thenCase, elseCase) => ExpandKeepsTrails(thenCase); ExpandKeepsTrails(elseCase);
    case Atomic(_, body) => ExpandKeepsTrails(body);
    case Acquire(_, _, body) => ExpandKeepsTrails(body);
    case _ =>
  }

  lemma {:induction false} BlockMakePacked(first: Stmt, rest: Stmt)
    requires Packed(first) && Packed(rest) && !first.Acquire? && !EndsWaiting(first)
    ensures Packed(BlockMake(first, rest))
  {
    if first.Block? { BlockMakePacked(first.rest, rest); }
  }

  lemma {:induction false} AppendPacked(s: Stmt, rest: Stmt)
    requires Packed(s) && Packed(rest) && !EndsWaiting(s)
    ensures Packed(Append(s, rest))
  {
    hide BlockMake;
    if s.Acquire? { AppendPacked(s.body, rest); } else { BlockMakePacked(s, rest); }
  }

  lemma {:induction false} PullOutPacked(let: Stmt, s: Stmt)
    requires IsLet(let)
    ensures Packed(PullOut(let, s)) <==> Packed(s)
  {
    hide UsesLet;
  }

  lemma {:induction false} ForkMakePacked(first: Stmt, rest: Stmt)
    ensures Packed(ForkMake(first, rest)) <==> Packed(first) && Packed(rest)
  {
    if first.Fork? { ForkMakePacked(first.rest, rest); }
  }

  /** If nothing comes after a statement that ends waiting, all trailing work is packed. */
  lemma {:induction false} ExpandPacks(s: Stmt)
    requires NoneTrails(s)
    ensures Packed(Expand(s))
    decreases Size(s)
  {
    hide Append, PullOut, ForkMake, UsesLet, Expand, Reach, EndsWaiting;
    ExpandStep(s);
    match s
    case Block(first, rest) =>
      ExpandPacks(first);
      ExpandPacks(rest);
      ExpandKeepsTrails(first);
      AppendPacked(Expand(first), Expand(rest));
    case Scoped(scoping, body) =>
      var b := Expand(body);
      ExpandPacks(body);
      if scoping.MakeSemaphore? {
        PullOutPacked(s, b);
      } else if b.Acquire? && !scoping.Allocate? {
        ExpandKeepsTrails(body);
        ExpandPacks(Scoped(scoping, b.body));
      }
    case LetStmt(_, _, body) => ExpandPacks(body); PullOutPacked(s, Expand(body));
    case ProducerConsumer(x, isProducer, body) =>
      var b := Expand(body);
      ExpandPacks(body);
      if b.Acquire? {
        ExpandKeepsTrails(body);
        ExpandPacks(ProducerConsumer(x, isProducer, b.body));
      }
    case For(_, _, _, body) => ExpandPacks(body);
    case Fork(first, rest) => ExpandPacks(first); ExpandPacks(rest); ForkMakePacked(Expand(first), Expand(rest));
    case IfThenElse(_, thenCase, elseCase) => ExpandPacks(thenCase); ExpandPacks(elseCase);
    case Atomic(_, body) => ExpandPacks(body);
    case Acquire(_, _, body) => ExpandPacks(body);
    case _ =>
  }

  /** The statement's last part, once leading acquires are taken off, is an acquire. */
  predicate LastWaits(s: Stmt) {
    match s
    case Block(_, rest) => rest.Acquire? || LastWaits(rest)
    case Acquire(_, _, body) => LastWaits(body)
    case _ => false
  }

  lemma {:induction false} BlockMakeLast(first: Stmt, rest: Stmt)
    ensures LastWaits(BlockMake(first, rest)) <==> rest.Acquire? || LastWaits(rest)
    ensures Packed(BlockMake(first, rest)) ==> Packed(first) && Packed(rest) && !first.Acquire? && !LastWaits(first)
  {
    if first.Block? { BlockMakeLast(first.rest, rest); }
  }

  lemma {:induction false} AppendLast(s: Stmt, rest: Stmt)
    ensures LastWaits(Append(s, rest)) <==> rest.Acquire? || LastWaits(rest)
    ensures Packed(Append(s, rest)) ==> Packed(s) && Packed(rest) && !LastWaits(s)
  {
    hide BlockMake;
    if s.Acquire? { AppendLast(s.body, rest); } else { BlockMakeLast(s, rest); }
  }

  lemma {:induction false} EndsWaitingLast(s: Stmt)
    requires EndsWaiting(s)
    ensures LastWaits(Expand(s))
    decreases Size(s)
  {
    hide Append, Expand, Reach;
    ExpandStep(s);
    match s
    case Block(first, rest) =>
      AppendLast(Expand(first), Expand(rest));
      ExpandKeepsReach(rest);
      if Reach(rest) == [] { EndsWaitingLast(rest); }
    case Acquire(_, _, body) => EndsWaitingLast(body);
    case _ =>
  }

  /** Where an acquire comes out of a realization, hoisted storage or node, whose body is then visited again,
      nothing in the body comes after a statement that ends waiting. */
  predicate Calm(s: Stmt) {
    match s
    case Block(first, rest) => Calm(first) && Calm(rest)
    case Scoped(_, body) => (Yields(s) && Reach(body) != [] ==> NoneTrails(body)) && Calm(body)
    case ProducerConsumer(_, _, body) => (Reach(body) != [] ==> NoneTrails(body)) && Calm(body)
    case LetStmt(_, _, body) => Calm(body)
    case For(_, _, _, body) => Calm(body)
    case Fork(first, rest) => Calm(first) && Calm(rest)
    case IfThenElse(_, thenCase, elseCase) => Calm(thenCase) && Calm(elseCase)
    case Atomic(_, body) => Calm(body)
    case Acquire(_, _, body) => Calm(body)
    case _ => true
  }

  lemma {:induction false} PackedTrails(s: Stmt)
    requires Calm(s) && Packed(Expand(s))
    ensures NoneTrails(s)
    decreases Size(s)
  {
    hide Append, PullOut, ForkMake, UsesLet, Expand, Reach, EndsWaiting, LastWaits;
    ExpandStep(s);
    match s
    case Block(first, rest) =>
      AppendLast(Expand(first), Expand(rest));
      PackedTrails(first);
      PackedTrails(rest);
      if EndsWaiting(first) { EndsWaitingLast(first); }
    case Scoped(scoping, body) =>
      var b := Expand(body);
      ExpandKeepsReach(body);
      if scoping.MakeSemaphore? { PullOutPacked(s, b); }
      if !Yields(s) || Reach(body) == [] { PackedTrails(body); }
    case LetStmt(_, _, body) => PullOutPacked(s, Expand(body)); PackedTrails(body);
    case ProducerConsumer(_, _, body) =>
      ExpandKeepsReach(body);
      if Reach(body) == [] { PackedTrails(body); }
    case For(_, _, _, body) => PackedTrails(body);
    case Fork(first, rest) => ForkMakePacked(Expand(first), Expand(rest)); PackedTrails(first); PackedTrails(rest);
    case IfThenElse(_, thenCase, elseCase) => PackedTrails(thenCase); PackedTrails(elseCase);
    case Atomic(_, body) => PackedTrails(body);
    case Acquire(_, _, body) => PackedTrails(body);
    case _ =>
  }

  /** After the rewriting, work that comes after an acquire lies inside it, exactly when nothing comes after a
      statement that ends waiting. */
  lemma {:induction false} PackedIff(s: Stmt)
    requires Calm(s)
    ensures Packed(Expand(s)) <==> NoneTrails(s)
  {
    hide Packed, NoneTrails, Calm, Expand;
    if NoneTrails(s) { ExpandPacks(s); }
    if Packed(Expand(s)) { PackedTrails(s); }
  }

  /** An acquire whose body ends with another one, and more work after it. */
  function TwoWaits(a: Semaphore, b: Semaphore, x: Leaf, y: Leaf, z: Leaf): Stmt {
    Block(Acquire(a, IntImm(1), Block(Do(x), Acquire(b, IntImm(1), Do(y)))), Do(z))
  }

  lemma {:induction false} LeafStays(leaf: Leaf)
    ensures Expand(Do(leaf)) == Do(leaf)
  {
  }

  lemma {:induction false} ExpandTwoWaits(a: Semaphore, b: Semaphore, x: Leaf, y: Leaf, z: Leaf)
    ensures var one := IntImm(1);
      Expand(TwoWaits(a, b, x, y, z)) == Acquire(a, one, Block(Do(x), Block(Acquire(b, one, Do(y)), Do(z))))
  {
    hide Expand;
    var s, last := TwoWaits(a, b, x, y, z), Acquire(b, IntImm(1), Do(y));
    LeafStays(x); LeafStays(y); LeafStays(z);
    ExpandStep(last);
    ExpandStep(s.first.body);
    ExpandStep(s.first);
    ExpandStep(s);
    assert Append(Do(x), last) == Block(Do(x), last);
    assert Append(s.first.body, Do(z)) == BlockMake(s.first.body, Do(z)) == Block(Do(x), Block(last, Do(z)));
    assert Append(s.first, Do(z)) == Acquire(a, IntImm(1), Append(s.first.body, Do(z)));
  }

  /** The work after it gets into the first acquire only. */
  lemma {:induction false} TrailingWorkStays(a: Semaphore, b: Semaphore, x: Leaf, y: Leaf, z: Leaf)
    ensures var s := TwoWaits(a, b, x, y, z);
      Calm(s) && !NoneTrails(s) && !Packed(Expand(s))
  {
    hide Expand;
    var s, last := TwoWaits(a, b, x, y, z), Acquire(b, IntImm(1), Do(y));
    ExpandTwoWaits(a, b, x, y, z);
    assert Calm(last) && Calm(Block(Do(x), last)) && Calm(s.first);
    assert Reach(last) == [(b, IntImm(1))];
    assert EndsWaiting(s.first.body) && EndsWaiting(s.first);
    assert !Packed(Block(last, Do(z)));
    assert !Packed(Block(Do(x), Block(last, Do(z))));
  }

  lemma {:induction false} ExpandChain(b: Semaphore, x: Leaf, y: Leaf, z: Leaf)
    ensures var one := IntImm(1);
      Expand(Block(Do(x), Block(Acquire(b, one, Do(y)), Do(z)))) == Block(Do(x), Acquire(b, one, Block(Do(y), Do(z))))
  {
    hide Expand;
    var last := Acquire(b, IntImm(1), Do(y));
    LeafStays(x); LeafStays(y); LeafStays(z);
    ExpandStep(last);
    ExpandStep(Block(last, Do(z)));
    ExpandStep(Block(Do(x), Block(last, Do(z))));
    assert Append(Do(y), Do(z)) == Block(Do(y), Do(z));
    assert Append(last, Do(z)) == Acquire(b, IntImm(1), Append(Do(y), Do(z)));
    assert Append(Do(x), Append(last, Do(z))) == Block(Do(x), Append(last, Do(z)));
  }

  lemma {:induction false} ExpandInRealize(g: string, a: Semaphore, b: Semaphore, x: Leaf, y: Leaf, z: Leaf)
    ensures var one := IntImm(1);
      Expand(Scoped(Realize(g, []), TwoWaits(a, b, x, y, z)))
        == Acquire(a, one, Scoped(Realize(g, []), Block(Do(x), Acquire(b, one, Block(Do(y), Do(z))))))
  {
    hide Expand, Append;
    var one, s := IntImm(1), TwoWaits(a, b, x, y, z);
    ExpandTwoWaits(a, b, x, y, z);
    ExpandChain(b, x, y, z);
    ExpandStep(Scoped(Realize(g, []), s));
    ExpandStep(Scoped(Realize(g, []), Block(Do(x), Block(Acquire(b, one, Do(y)), Do(z)))));
  }

  /** Inside a realization, the acquire that comes out makes for a second visit, which packs the work. */
  lemma {:induction false} SecondVisitPacks(g: string, a: Semaphore, b: Semaphore, x: Leaf, y: Leaf, z: Leaf)
    ensures var r := Scoped(Realize(g, []), TwoWaits(a, b, x, y, z));
      !Calm(r) && !NoneTrails(r) && Packed(Expand(r))
  {
    hide Expand;
    var one, s := IntImm(1), TwoWaits(a, b, x, y, z);
    TrailingWorkStays(a, b, x, y, z);
    ExpandInRealize(g, a, b, x, y, z);
    assert Reach(s) == [(a, one)] + Reach(s.first.body);
    assert Packed(Block(Do(y), Do(z)));
    assert Packed(Acquire(b, one, Block(Do(y), Do(z))));
    assert Packed(Block(Do(x), Acquire(b, one, Block(Do(y), Do(z)))));
    assert Packed(Scoped(Realize(g, []), Block(Do(x), Acquire(b, one, Block(Do(y), Do(z))))));
  }
}
