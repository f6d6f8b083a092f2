/** Where acquires end up, and that nothing else has moved. */
module BroadAcquires {
  import opened AsyncIR
  import opened ExpandAcquire
  import opened WorkSites

  // ---- Everything but the acquires stays where it is ----

  predicate IsWait(frame: Frame) { frame.Behind? }

  /** The sites of `s`, whatever they wait for. */
  function Places(s: Stmt): seq<Site> { Seen(s, IsWait) }

  lemma {:induction false} ForkMakePlaces(first: Stmt, rest: Stmt)
    ensures Places(ForkMake(first, rest)) == SeenTask(first, IsWait) + SeenTask(rest, IsWait) && ForkMake(first, rest).Fork?
  {
    hide Seen;
    SeenStep(ForkMake(first, rest), IsWait);
    if first.Fork? {
      ForkMakePlaces(first.rest, rest);
      SeenStep(first, IsWait);
      assert SeenTask(first.first, IsWait) + (SeenTask(first.rest, IsWait) + SeenTask(rest, IsWait))
          == (SeenTask(first.first, IsWait) + SeenTask(first.rest, IsWait)) + SeenTask(rest, IsWait);
    }
  }

  lemma {:induction false} AppendPlaces(s: Stmt, rest: Stmt)
    ensures Places(Append(s, rest)) == Places(s) + Places(rest) && !Append(s, rest).Fork?
  {
    hide Seen, BlockMake;
    if s.Acquire? {
      AppendPlaces(s.body, rest);
      SeenStep(s, IsWait);
      SeenStep(Append(s, rest), IsWait);
    } else {
      BlockMakeSeen(s, rest, IsWait);
      BlockMakeIsBlock(s, rest);
    }
  }

  lemma {:induction false} BlockMakeIsBlock(first: Stmt, rest: Stmt)
    ensures BlockMake(first, rest).Block?
  {
  }

  lemma {:induction false} PullOutPlaces(let: Stmt, s: Stmt)
    requires IsLet(let)
    ensures Places(PullOut(let, s)) == Under(FrameOf(let), Places(s)) && !PullOut(let, s).Fork?
  {
    hide Seen, UsesLet;
    SeenStep(WithBody(let, s), IsWait);
    if s.Acquire? {
      SeenStep(WithBody(let, s.body), IsWait);
      SeenStep(s, IsWait);
      SeenStep(Acquire(s.sema, s.count, WithBody(let, s.body)), IsWait);
    }
  }

  /** All work, signals and nodes stay in order and inside the same lets, storage, loops, conditions, nodes
      and tasks; only what they wait for may have come in between. */
  lemma {:induction false} ExpandKeepsPlaces(s: Stmt)
    ensures Places(Expand(s)) == Places(s) && (Expand(s).Fork? <==> s.Fork?)
    decreases Size(s)
  {
    hide Append, PullOut, ForkMake, UsesLet, Expand, Seen;
    ExpandStep(s);
    SeenStep(s, IsWait);
    match s
    case Block(first, rest) =>
      ExpandKeepsPlaces(first);
      ExpandKeepsPlaces(rest);
      AppendPlaces(Expand(first), Expand(rest));
    case Scoped(_, body) =>
      ExpandKeepsPlaces(body);
      ExpandedScope(s);
    case LetStmt(_, _, body) =>
      ExpandKeepsPlaces(body);
      PullOutPlaces(s, Expand(body));
    case ProducerConsumer(_, _, body) =>
      ExpandKeepsPlaces(body);
      ExpandedScope(s);
    case Fork(first, rest) =>
      ExpandKeepsPlaces(first);
      ExpandKeepsPlaces(rest);
      ForkMakePlaces(Expand(first), Expand(rest));
    case IfThenElse(_, thenCase, elseCase) =>
      ExpandKeepsPlaces(thenCase);
      ExpandKeepsPlaces(elseCase);
      SeenStep(Expand(s), IsWait);
    case For(_, _, _, body) => ExpandKeepsPlaces(body); SeenStep(Expand(s), IsWait);
    case Atomic(_, body) => ExpandKeepsPlaces(body); SeenStep(Expand(s), IsWait);
    case Acquire(_, _, body) => ExpandKeepsPlaces(body); SeenStep(Expand(s), IsWait);
    case _ =>
  }

  lemma {:induction false} ExpandedScope(s: Stmt)
    requires (s.Scoped? || s.ProducerConsumer?) && Places(Expand(s.body)) == Places(s.body)
    ensures Places(Expand(s)) == Places(s) && !Expand(s).Fork?
    decreases Size(s), 0
  {
    hide Append, PullOut, ForkMake, UsesLet, Expand, Seen;
    ExpandStep(s);
    SeenStep(s, IsWait);
    SeenStep(Expand(s), IsWait);
    var b := Expand(s.body);
    if IsLet(s) {
      PullOutPlaces(s, b);
    } else if b.Acquire? && (s.Scoped? ==> !s.scoping.Allocate?) {
      var inner := if s.Scoped? then Scoped(s.scoping, b.body) else ProducerConsumer(s.name, s.isProducer, b.body);
      ExpandKeepsPlaces(inner);
      SeenStep(inner, IsWait);
      SeenStep(b, IsWait);
    }
  }

  // ---- How far out acquires come ----

  /** The acquires a let does not hold back, up to the first one it does. */
  function Passing(waits: seq<(Semaphore, Expr)>, let: Stmt): seq<(Semaphore, Expr)>
    requires IsLet(let)
  {
    if waits == [] || UsesLet(waits[0].0, waits[0].1, let) then [] else [waits[0]] + Passing(waits[1..], let)
  }

  /** Whatever can come out of such a scope or node comes out of it. */
  predicate Yields(s: Stmt) { s.ProducerConsumer? || (s.Scoped? && (s.scoping.Realize? || s.scoping.HoistedStorage?)) }

  /** The acquires that could be moved to the front of `s`, in order. */
  function Reach(s: Stmt): seq<(Semaphore, Expr)> {
    match s
    case Acquire(sema, n, body) => [(sema, n)] + Reach(body)
    case Block(first, _) => Reach(first)
    case LetStmt(_, _, body) => Passing(Reach(body), s)
    case Scoped(scoping, body) =>
      if scoping.MakeSemaphore? then Passing(Reach(body), s) else if scoping.Allocate? then [] else Reach(body)
    case ProducerConsumer(_, _, body) => Reach(body)
    case _ => []
  }

  /** No acquire could leave a realization, hoisted storage or node. */
  predicate Broad(s: Stmt) {
    match s
    case Block(first, rest) => Broad(first) && Broad(rest)
    case Scoped(_, body) => (Yields(s) ==> Reach(body) == []) && Broad(body)
    case ProducerConsumer(_, _, body) => Reach(body) == [] && Broad(body)
    case LetStmt(_, _, body) => Broad(body)
    case For(_, _, _, body) => Broad(body)
    case Fork(first, rest) => Broad(first) && Broad(rest)
    case IfThenElse(_, thenCase, elseCase) => Broad(thenCase) && Broad(elseCase)
    case Atomic(_, body) => Broad(body)
    case Acquire(_, _, body) => Broad(body)
    case _ => true
  }

  /** A let directly around an acquire binds something the acquire uses. */
  predicate TightLets(s: Stmt) {
    match s
    case LetStmt(_, _, body) => (body.Acquire? ==> UsesLet(body.sema, body.count, s)) && TightLets(body)
    case Scoped(_, body) => (IsLet(s) && body.Acquire? ==> UsesLet(body.sema, body.count, s)) && TightLets(body)
    case Block(first, rest) => TightLets(first) && TightLets(rest)
    case ProducerConsumer(_, _, body) => TightLets(body)
    case For(_, _, _, body) => TightLets(body)
    case Fork(first, rest) => TightLets(first) && TightLets(rest)
    case IfThenElse(_, thenCase, elseCase) => TightLets(thenCase) && TightLets(elseCase)
    case Atomic(_, body) => TightLets(body)
    case Acquire(_, _, body) => TightLets(body)
    case _ => true
  }

  /** No let has more acquires to let through than it is visited, if `s` is visited `n` times: a realization,
      hoisted storage or node has its body visited once more for each acquire that comes out. */
  predicate Enough(s: Stmt, n: nat) {
    match s
    case LetStmt(_, _, body) => |Reach(s)| <= n && Enough(body, n)
    case Scoped(_, body) => (IsLet(s) ==> |Reach(s)| <= n) && Enough(body, if Yields(s) then n + |Reach(body)| else n)
    case ProducerConsumer(_, _, body) => Enough(body, n + |Reach(body)|)
    case Block(first, rest) => Enough(first, n) && Enough(rest, n)
    case For(_, _, _, body) => Enough(body, n)
    case Fork(first, rest) => Enough(first, n) && Enough(rest, n)
    case IfThenElse(_, thenCase, elseCase) => Enough(thenCase, n) && Enough(elseCase, n)
    case Atomic(_, body) => Enough(body, n)
    case Acquire(_, _, body) => Enough(body, n)
    case _ => true
  }

  lemma {:induction false} MakesReach(first: Stmt, rest: Stmt, n: nat)
    ensures Reach(BlockMake(first, rest)) == Reach(first) && Reach(ForkMake(first, rest)) == []
    ensures Enough(BlockMake(first, rest), n) == (Enough(first, n) && Enough(rest, n))
    ensures Enough(ForkMake(first, rest), n) == (Enough(first, n) && Enough(rest, n))
  {
    if first.Block? || first.Fork? { MakesReach(first.rest, rest, n); }
  }

  lemma {:induction false} AppendReach(s: Stmt, rest: Stmt, n: nat)
    ensures Reach(Append(s, rest)) == Reach(s) && (Append(s, rest).Acquire? <==> s.Acquire?)
    ensures Enough(Append(s, rest), n) == (Enough(s, n) && Enough(rest, n))
  {
    hide BlockMake;
    if s.Acquire? { AppendReach(s.body, rest, n); } else { MakesReach(s, rest, n); BlockMakeIsBlock(s, rest); }
  }

  lemma {:induction false} PullOutReach(let: Stmt, s: Stmt)
    requires IsLet(let) && (s.Acquire? <==> Reach(s) != [])
    ensures Reach(PullOut(let, s)) == Passing(Reach(s), let)
    ensures PullOut(let, s).Acquire? <==> Passing(Reach(s), let) != []
  {
    hide UsesLet;
    PassingSame(Reach(s), let, s);
    if s.Acquire? {
      assert Reach(s)[0] == (s.sema, s.count) && Reach(s)[1..] == Reach(s.body);
      PassingSame(Reach(s.body), let, s.body);
    }
  }

  /** What a let holds back does not depend on its body. */
  lemma {:induction false} PassingSame(waits: seq<(Semaphore, Expr)>, let: Stmt, body: Stmt)
    requires IsLet(let)
    ensures Passing(waits, WithBody(let, body)) == Passing(waits, let)
  {
    if waits != [] { PassingSame(waits[1..], let, body); }
  }

  /** Rewriting takes the first reachable acquire to the front, and keeps the reachable ones. */
  lemma {:induction false} ExpandKeepsReach(s: Stmt)
    ensures Reach(Expand(s)) == Reach(s) && (Expand(s).Acquire? <==> Reach(s) != [])
    decreases Size(s)
  {
    hide Append, PullOut, ForkMake, UsesLet, Expand, Passing, Enough;
    ExpandStep(s);
    match s
    case Block(first, rest) => ExpandKeepsReach(first); AppendReach(Expand(first), Expand(rest), 0);
    case Scoped(scoping, body) =>
      var b := Expand(body);
      ExpandKeepsReach(body);
      if scoping.MakeSemaphore? {
        PullOutReach(s, b);
      } else if b.Acquire? && !scoping.Allocate? {
        ExpandKeepsReach(Scoped(scoping, b.body));
      }
    case LetStmt(_, _, body) => ExpandKeepsReach(body); PullOutReach(s, Expand(body));
    case ProducerConsumer(x, isProducer, body) =>
      var b := Expand(body);
      ExpandKeepsReach(body);
      if b.Acquire? { ExpandKeepsReach(ProducerConsumer(x, isProducer, b.body)); }
    case Fork(first, rest) => MakesReach(Expand(first), Expand(rest), 0); ForkMakePlaces(Expand(first), Expand(rest));
    case Acquire(_, _, body) => ExpandKeepsReach(body);
    case _ =>
  }

  lemma {:induction false} PullOutEnough(let: Stmt, s: Stmt, n: nat)
    requires IsLet(let) && (s.Acquire? <==> Reach(s) != [])
    ensures Enough(PullOut(let, s), n) <==> |Passing(Reach(s), let)| <= n + 1 && Enough(s, n)
  {
    hide UsesLet;
    PassingSame(Reach(s), let, s);
    if s.Acquire? {
      assert Reach(s)[0] == (s.sema, s.count) && Reach(s)[1..] == Reach(s.body);
      PassingSame(Reach(s.body), let, s.body);
    }
  }

  /** Each visit is used up on one acquire of each let. */
  lemma {:induction false} ExpandUsesVisit(s: Stmt, n: nat)
    ensures Enough(Expand(s), n) <==> Enough(s, n + 1)
    decreases Size(s)
  {
    hide Append, PullOut, ForkMake, UsesLet, Expand, Passing, Reach;
    ExpandStep(s);
    match s
    case Block(first, rest) =>
      ExpandUsesVisit(first, n);
      ExpandUsesVisit(rest, n);
      AppendReach(Expand(first), Expand(rest), n);
    case Scoped(scoping, body) => ExpandedScopeVisit(s, n);
    case LetStmt(_, _, body) => ExpandedScopeVisit(s, n);
    case ProducerConsumer(_, _, body) => ExpandedScopeVisit(s, n);
    case For(_, _, _, body) => ExpandUsesVisit(body, n);
    case Fork(first, rest) =>
      ExpandUsesVisit(first, n);
      ExpandUsesVisit(rest, n);
      MakesReach(Expand(first), Expand(rest), n);
    case IfThenElse(_, thenCase, elseCase) => ExpandUsesVisit(thenCase, n); ExpandUsesVisit(elseCase, n);
    case Atomic(_, body) => ExpandUsesVisit(body, n);
    case Acquire(_, _, body) => ExpandUsesVisit(body, n);
    case _ =>
  }

  lemma {:induction false} ExpandedScopeVisit(s: Stmt, n: nat)
    requires IsLet(s) || Yields(s) || s.Scoped?
    ensures Enough(Expand(s), n) <==> Enough(s, n + 1)
    decreases Size(s), 0
  {
    hide Append, PullOut, ForkMake, UsesLet, Expand, Passing;
    ExpandStep(s);
    var b := Expand(s.body);
    ExpandKeepsReach(s.body);
    if IsLet(s) {
      ExpandUsesVisit(s.body, n);
      PullOutEnough(s, b, n);
    } else if Yields(s) {
      ExpandUsesVisit(s.body, n + |Reach(b)|);
      if b.Acquire? {
        var inner := if s.Scoped? then Scoped(s.scoping, b.body) else ProducerConsumer(s.name, s.isProducer, b.body);
        ExpandUsesVisit(inner, n);
        YieldsEnough(inner, n + 1);
      } else {
        YieldsEnough(Expand(s), n);
      }
      YieldsEnough(s, n + 1);
    } else {
      ExpandUsesVisit(s.body, n);
    }
  }

  lemma {:induction false} YieldsEnough(s: Stmt, n: nat)
    requires Yields(s)
    ensures Enough(s, n) == Enough(s.body, n + |Reach(s.body)|)
  {
    hide Reach;
  }

  // ---- What the rewriting leaves ----

  lemma {:induction false} MakesStayBroad(first: Stmt, rest: Stmt)
    requires Broad(first) && Broad(rest)
    ensures Broad(BlockMake(first, rest))
    ensures Broad(ForkMake(first, rest))
  {
    hide Reach;
    if first.Block? || first.Fork? { MakesStayBroad(first.rest, rest); }
  }

  lemma {:induction false} AppendStaysBroad(s: Stmt, rest: Stmt)
    requires Broad(s) && Broad(rest)
    ensures Broad(Append(s, rest))
  {
    hide Reach, BlockMake;
    if s.Acquire? { AppendStaysBroad(s.body, rest); } else { MakesStayBroad(s, rest); }
  }

  lemma {:induction false} PullOutStaysBroad(let: Stmt, s: Stmt)
    requires IsLet(let) && Broad(s)
    ensures Broad(PullOut(let, s))
  {
    hide Reach, UsesLet;
  }

  /** Every acquire that can leave a realization, hoisted storage or node has left it. */
  lemma {:induction false} ExpandIsBroad(s: Stmt)
    ensures Broad(Expand(s))
    decreases Size(s)
  {
    hide Append, PullOut, ForkMake, UsesLet, Expand, Reach;
    ExpandStep(s);
    match s
    case Block(first, rest) =>
      ExpandIsBroad(first);
      ExpandIsBroad(rest);
      AppendStaysBroad(Expand(first), Expand(rest));
    case Scoped(scoping, body) =>
      var b := Expand(body);
      ExpandIsBroad(body);
      ExpandKeepsReach(body);
      ReachOfExpanded(body);
      if scoping.MakeSemaphore? {
        PullOutStaysBroad(s, b);
      } else if b.Acquire? && !scoping.Allocate? {
        ExpandIsBroad(Scoped(scoping, b.body));
      }
    case LetStmt(_, _, body) => ExpandIsBroad(body); PullOutStaysBroad(s, Expand(body));
    case ProducerConsumer(x, isProducer, body) =>
      var b := Expand(body);
      ExpandIsBroad(body);
      ReachOfExpanded(body);
      if b.Acquire? { ExpandIsBroad(ProducerConsumer(x, isProducer, b.body)); }
    case For(_, _, _, body) => ExpandIsBroad(body);
    case Fork(first, rest) => ExpandIsBroad(first); ExpandIsBroad(rest); MakesStayBroad(Expand(first), Expand(rest));
    case IfThenElse(_, thenCase, elseCase) => ExpandIsBroad(thenCase); ExpandIsBroad(elseCase);
    case Atomic(_, body) => ExpandIsBroad(body);
    case Acquire(_, _, body) => ExpandIsBroad(body);
    case _ =>
  }

  lemma {:induction false} ReachOfExpanded(s: Stmt)
    ensures !Expand(s).Acquire? ==> Reach(Expand(s)) == []
  {
    hide Expand, Reach;
    ExpandKeepsReach(s);
  }

  /** No block starts with an acquire, though a part after the first may be one. */
  predicate Led(s: Stmt)
    decreases s, 0
  {
    match s
    case Block(first, rest) => !first.Acquire? && Led(first) && LedRest(rest)
    case Scoped(_, body) => Led(body)
    case ProducerConsumer(_, _, body) => Led(body)
    case LetStmt(_, _, body) => Led(body)
    case For(_, _, _, body) => Led(body)
    case Fork(first, rest) => Led(first) && Led(rest)
    case IfThenElse(_, thenCase, elseCase) => Led(thenCase) && Led(elseCase)
    case Atomic(_, body) => Led(body)
    case Acquire(_, _, body) => Led(body)
    case _ => true
  }

  predicate LedRest(s: Stmt)
    decreases s, 1
  {
    if s.Block? then Led(s.first) && LedRest(s.rest) else Led(s)
  }

  lemma {:induction false} LedIsLedRest(s: Stmt)
    requires Led(s)
    ensures LedRest(s)
  {
  }

  lemma {:induction false} BlockMakeLed(first: Stmt, rest: Stmt)
    requires LedRest(first) && Led(rest)
    ensures LedRest(BlockMake(first, rest))
    ensures Led(first) && !first.Acquire? ==> Led(BlockMake(first, rest))
  {
    LedIsLedRest(rest);
    if first.Block? { BlockMakeLed(first.rest, rest); }
  }

  lemma {:induction false} ForkMakeLed(first: Stmt, rest: Stmt)
    requires Led(first) && Led(rest)
    ensures Led(ForkMake(first, rest))
  {
    if first.Fork? { ForkMakeLed(first.rest, rest); }
  }

  lemma {:induction false} AppendLed(s: Stmt, rest: Stmt)
    requires Led(s) && Led(rest)
    ensures Led(Append(s, rest))
  {
    hide BlockMake;
    if s.Acquire? { AppendLed(s.body, rest); } else { LedIsLedRest(s); BlockMakeLed(s, rest); }
  }

  lemma {:induction false} PullOutLed(let: Stmt, s: Stmt)
    requires IsLet(let) && Led(s)
    ensures Led(PullOut(let, s))
  {
    hide UsesLet;
  }

  lemma {:induction false} ExpandIsLed(s: Stmt)
    ensures Led(Expand(s))
    decreases Size(s)
  {
    hide Append, PullOut, ForkMake, UsesLet, Expand;
    ExpandStep(s);
    match s
    case Block(first, rest) => ExpandIsLed(first); ExpandIsLed(rest); AppendLed(Expand(first), Expand(rest));
    case Scoped(scoping, body) =>
      var b := Expand(body);
      ExpandIsLed(body);
      if scoping.MakeSemaphore? {
        PullOutLed(s, b);
      } else if b.Acquire? && !scoping.Allocate? {
        ExpandIsLed(Scoped(scoping, b.body));
      }
    case LetStmt(_, _, body) => ExpandIsLed(body); PullOutLed(s, Expand(body));
    case ProducerConsumer(x, isProducer, body) =>
      var b := Expand(body);
      ExpandIsLed(body);
      if b.Acquire? { ExpandIsLed(ProducerConsumer(x, isProducer, b.body)); }
    case For(_, _, _, body) => ExpandIsLed(body);
    case Fork(first, rest) => ExpandIsLed(first); ExpandIsLed(rest); ForkMakeLed(Expand(first), Expand(rest));
    case IfThenElse(_, thenCase, elseCase) => ExpandIsLed(thenCase); ExpandIsLed(elseCase);
    case Atomic(_, body) => ExpandIsLed(body);
    case Acquire(_, _, body) => ExpandIsLed(body);
    case _ =>
  }

  lemma {:induction false} TightReaches(s: Stmt)
    requires Broad(s) && TightLets(s) && Led(s) && !s.Acquire?
    ensures Reach(s) == []
  {
    hide UsesLet;
    match s
    case Block(first, _) => TightReaches(first);
    case LetStmt(_, _, body) => if !body.Acquire? { TightReaches(body); }
    case Scoped(_, body) => if !body.Acquire? { TightReaches(body); }
    case _ =>
  }

  lemma {:induction false} TightIff(s: Stmt)
    requires Broad(s) && LedRest(s)
    ensures TightLets(s) <==> Enough(s, 0)
  {
    hide UsesLet;
    match s
    case Block(first, rest) => LedIsLedRest(first); TightIff(first); TightIff(rest);
    case LetStmt(_, _, body) => TightLetIff(s);
    case Scoped(_, body) => LedIsLedRest(body); TightIff(body); if IsLet(s) { TightLetIff(s); }
    case ProducerConsumer(_, _, body) => LedIsLedRest(body); TightIff(body);
    case For(_, _, _, body) => LedIsLedRest(body); TightIff(body);
    case Fork(first, rest) => LedIsLedRest(first); LedIsLedRest(rest); TightIff(first); TightIff(rest);
    case IfThenElse(_, thenCase, elseCase) => LedIsLedRest(thenCase); LedIsLedRest(elseCase); TightIff(thenCase); TightIff(elseCase);
    case Atomic(_, body) => LedIsLedRest(body); TightIff(body);
    case Acquire(_, _, body) => LedIsLedRest(body); TightIff(body);
    case _ =>
  }

  lemma {:induction false} TightLetIff(let: Stmt)
    requires IsLet(let) && Broad(let.body) && Led(let.body)
    ensures TightLets(let) <==> Enough(let, 0)
    decreases let, 0
  {
    hide UsesLet, Broad, Led;
    LedIsLedRest(let.body);
    TightIff(let.body);
    if TightLets(let.body) && !let.body.Acquire? { TightReaches(let.body); }
  }

  /** After the rewriting each let directly around an acquire binds something the acquire uses, exactly when no
      let has more than one acquire to let through for each time it is visited. */
  lemma {:induction false} LetsAreTightIff(s: Stmt)
    ensures TightLets(Expand(s)) <==> Enough(s, 1)
  {
    hide Expand, Enough, TightLets, Broad, Led, LedRest;
    ExpandIsBroad(s);
    ExpandIsLed(s);
    LedIsLedRest(Expand(s));
    TightIff(Expand(s));
    ExpandUsesVisit(s, 0);
  }

  /** Two acquires inside a let that neither uses: the first comes out and the second does not. */
  lemma {:induction false} SecondAcquireStays(x: string, value: Expr, a: Semaphore, b: Semaphore, leaf: Leaf)
    ensures var one := IntImm(1);
      var s := LetStmt(x, value, Acquire(a, one, Acquire(b, one, Do(leaf))));
      && Expand(s) == Acquire(a, one, LetStmt(x, value, Acquire(b, one, Do(leaf))))
      && !TightLets(Expand(s)) && !Enough(s, 1)
  {
    var one := IntImm(1);
    var inner := Acquire(b, one, Do(leaf));
    var s := LetStmt(x, value, Acquire(a, one, inner));
    ExpandStep(inner);
    ExpandStep(s.body);
    ExpandStep(s);
    assert Expand(Do(leaf)) == Do(leaf);
    assert Expand(s) == Acquire(a, one, LetStmt(x, value, inner));
    LetsAreTightIff(s);
  }
}
