/** The ring coordinate the program computes, and what the reads of a forked nest find. */
module RingSlots {
  import opened AsyncIR
  import opened RingIndex
  import opened RingBuffer
  import opened RingNest

  predicate SameOn(e: Env, e': Env, ranges: seq<Range>) {
    forall i :: 0 <= i < |ranges| ==> Eval(Variable(ranges[i].name), e) == Eval(Variable(ranges[i].name), e')
  }

  lemma {:induction false} LinearSame(ranges: seq<Range>, e: Env, e': Env, acc: int)
    requires SameOn(e, e', ranges)
    ensures Linear(Loops(ranges), e, acc) == Linear(Loops(ranges), e', acc)
  {
    if ranges != [] {
      var loops, rest := Loops(ranges), ranges[1..];
      assert loops[1..] == Loops(rest);
      assert forall i :: 0 <= i < |rest| ==> rest[i] == ranges[i + 1];
      ExtentValue(ranges[0], e);
      ExtentValue(ranges[0], e');
      LinearSame(rest, e, e', acc * ranges[0].extent + Eval(Variable(ranges[0].name), e));
    }
  }

  /** `index` is worth `v` wherever the nest's variables are as in `env`. */
  ghost predicate Worth(index: Expr, env: Env, ranges: seq<Range>, v: int) {
    forall e :: SameOn(e, env, ranges) ==> Eval(index, e) == v
  }

  /** No let or loop in `s` reuses a name of the nest. */
  predicate Avoids(s: Stmt, ranges: seq<Range>) {
    match s
    case LetStmt(x, _, body) => Fresh(x, ranges) && Avoids(body, ranges)
    case Scoped(_, body) => Avoids(body, ranges)
    case For(x, _, _, body) => Fresh(x, ranges) && Avoids(body, ranges)
    case Block(first, rest) => Avoids(first, ranges) && Avoids(rest, ranges)
    case IfThenElse(_, thenCase, elseCase) => Avoids(thenCase, ranges) && Avoids(elseCase, ranges)
    case Atomic(_, body) => Avoids(body, ranges)
    case ProducerConsumer(_, _, body) => Avoids(body, ranges)
    case Acquire(_, _, body) => Avoids(body, ranges)
    case _ => true
  }

  predicate Fresh(x: string, ranges: seq<Range>) { forall i :: 0 <= i < |ranges| ==> ranges[i].name != x }

  /** The last coordinate is a pure expression worth `v`. */
  predicate LastIs(args: seq<Value>, env: Env, v: int) {
    args != [] && args[|args| - 1].Pure? && Eval(args[|args| - 1].expr, env) == v
  }

  /** Some read of `f` in `value` has last coordinate `y`. */
  predicate ReadsFrom(value: Value, f: string, env: Env, y: int)
    decreases value
  {
    match value
    case Pure(_) => false
    case Call(name, args) => (name == f && LastIs(args, env, y)) || AnyReadsFrom(args, f, env, y)
    case Combine(_, parts) => AnyReadsFrom(parts, f, env, y)
  }

  predicate AnyReadsFrom(values: seq<Value>, f: string, env: Env, y: int)
    decreases values
  {
    values != [] && (ReadsFrom(values[0], f, env, y) || AnyReadsFrom(values[1..], f, env, y))
  }

  predicate LeafReadsFrom(leaf: Leaf, f: string, env: Env, y: int) {
    match leaf
    case Provide(_, args, values, guard) =>
      AnyReadsFrom(args, f, env, y) || AnyReadsFrom(values, f, env, y) || ReadsFrom(guard, f, env, y)
    case Evaluate(value) => ReadsFrom(value, f, env, y)
    case _ => false
  }

  predicate StoresTo(leaf: Leaf, f: string, env: Env, y: int) {
    leaf.Provide? && leaf.name == f && LastIs(leaf.args, env, y)
  }

  /** Stores to `f` are at last coordinate `v`; where `clean`, so are the reads of it. */
  ghost predicate AccessAt(e: Event, f: string, v: int, clean: bool) {
    e.Work? ==>
      && (e.leaf.Provide? && e.leaf.name == f ==> StoresTo(e.leaf, f, e.env, v))
      && (clean ==> forall y :: LeafReadsFrom(e.leaf, f, e.env, y) ==> y == v)
  }

  ghost predicate AccessesAt(t: seq<Event>, f: string, v: int, clean: bool) {
    forall i :: 0 <= i < |t| ==> AccessAt(t[i], f, v, clean)
  }

  lemma {:induction false} UnreadValue(value: Value, f: string, env: Env, y: int)
    requires !Reads(value, f)
    ensures !ReadsFrom(value, f, env, y)
    decreases value
  {
    match value
    case Pure(_) =>
    case Call(_, args) => UnreadValues(args, f, env, y);
    case Combine(_, parts) => UnreadValues(parts, f, env, y);
  }

  lemma {:induction false} UnreadValues(values: seq<Value>, f: string, env: Env, y: int)
    requires !AnyReads(values, f)
    ensures !AnyReadsFrom(values, f, env, y)
    decreases values
  {
    if values != [] {
      UnreadValue(values[0], f, env, y);
      UnreadValues(values[1..], f, env, y);
    }
  }

  lemma {:induction false} ReadsAppended(values: seq<Value>, last: Expr, f: string, env: Env, y: int)
    ensures AnyReadsFrom(values + [Pure(last)], f, env, y) == AnyReadsFrom(values, f, env, y)
  {
    if values == [] {
      assert values + [Pure(last)] == [Pure(last)] && [Pure(last)][1..] == [];
    } else {
      assert (values + [Pure(last)])[1..] == values[1..] + [Pure(last)];
      ReadsAppended(values[1..], last, f, env, y);
    }
  }

  /** Where no read of `f` is nested in another, every updated read is at the ring's coordinate. */
  lemma {:induction false} ReadsIndexed(value: Value, f: string, index: Expr, env: Env, y: int)
    requires !ReadsNested(value, f) && ReadsFrom(UpdateValue(value, f, index), f, env, y)
    ensures y == Eval(index, env)
    decreases value
  {
    hide Eval;
    match value
    case Call(name, args) =>
      if name == f {
        UnreadValues(args, f, env, y);
        ReadsAppended(args, index, f, env, y);
      } else {
        AnyReadsIndexed(args, f, index, env, y);
      }
    case Combine(_, parts) => AnyReadsIndexed(parts, f, index, env, y);
  }

  lemma {:induction false} AnyReadsIndexed(values: seq<Value>, f: string, index: Expr, env: Env, y: int)
    requires !AnyReadsNested(values, f) && AnyReadsFrom(UpdateValues(values, f, index), f, env, y)
    ensures y == Eval(index, env)
    decreases values
  {
    hide Eval;
    assert UpdateValues(values, f, index)[1..] == UpdateValues(values[1..], f, index);
    if ReadsFrom(UpdateValue(values[0], f, index), f, env, y) {
      ReadsIndexed(values[0], f, index, env, y);
    } else {
      AnyReadsIndexed(values[1..], f, index, env, y);
    }
  }

  lemma {:induction false} LeafReadsIndexed(leaf: Leaf, f: string, index: Expr, env: Env, y: int)
    requires !LeafHidesRead(leaf, f) && LeafReadsFrom(UpdateLeaf(leaf, f, index), f, env, y)
    ensures y == Eval(index, env)
  {
    hide Eval;
    match leaf
    case Provide(name, args, values, guard) =>
      if name == f {
        UnreadValues(args, f, env, y);
        UnreadValues(values, f, env, y);
        UnreadValue(guard, f, env, y);
        ReadsAppended(args, index, f, env, y);
      } else if AnyReadsFrom(UpdateValues(args, f, index), f, env, y) {
        AnyReadsIndexed(args, f, index, env, y);
      } else if AnyReadsFrom(UpdateValues(values, f, index), f, env, y) {
        AnyReadsIndexed(values, f, index, env, y);
      } else {
        ReadsIndexed(guard, f, index, env, y);
      }
    case Evaluate(value) => ReadsIndexed(value, f, index, env, y);
  }

  lemma {:induction false} AccessesIndexed(s: Stmt, f: string, index: Expr, env: Env, k: nat, inside: bool, ranges: seq<Range>, v: int, clean: bool)
    requires Avoids(s, ranges) && Worth(index, env, ranges, v) && (clean ==> !HidesRead(s, f))
    ensures AccessesAt(Run(UpdateIndices(s, f, index), f, env, k, inside), f, v, clean)
    decreases s, 0
  {
    hide Worth, Eval, AccessesAt;
    match s
    case Do(leaf) => LeafIndexed(leaf, f, index, env, inside, ranges, v, clean);
    case LetStmt(x, value, body) =>
      StillWorth(index, env, ranges, v, x, Eval(value, env));
      AccessesIndexed(body, f, index, env[x := Eval(value, env)], k, inside, ranges, v, clean);
    case Scoped(_, body) => AccessesIndexed(body, f, index, env, k, inside, ranges, v, clean);
    case For(x, min, max, body) => LoopIndexed(x, Eval(min, env), Eval(max, env), body, f, index, env, k, inside, ranges, v, clean);
    case Block(first, rest) =>
      AccessesIndexed(first, f, index, env, k, inside, ranges, v, clean);
      AccessesIndexed(rest, f, index, env, k + ConsumeNodes(UpdateIndices(first, f, index), f), inside, ranges, v, clean);
      AccessesConcat(Run(UpdateIndices(first, f, index), f, env, k, inside),
                   Run(UpdateIndices(rest, f, index), f, env, k + ConsumeNodes(UpdateIndices(first, f, index), f), inside), f, v, clean);
    case IfThenElse(c, first, rest) =>
      if Eval(c, env) != 0 { AccessesIndexed(first, f, index, env, k, inside, ranges, v, clean); }
      else { AccessesIndexed(rest, f, index, env, k + ConsumeNodes(UpdateIndices(first, f, index), f), inside, ranges, v, clean); }
    case Atomic(_, body) => AccessesIndexed(body, f, index, env, k, inside, ranges, v, clean);
    case ProducerConsumer(name, isProducer, body) =>
      if name != f {
        AccessesIndexed(body, f, index, env, k, inside, ranges, v, clean);
      } else if isProducer {
        AccessesIndexed(body, f, index, env, k, true, ranges, v, clean);
        AccessesBetween(ProduceBegin, Run(UpdateIndices(body, f, index), f, env, k, true), ProduceEnd, f, v, clean);
      } else {
        AccessesIndexed(body, f, index, env, k + 1, inside, ranges, v, clean);
        AccessesBetween(ConsumeBegin(k), Run(UpdateIndices(body, f, index), f, env, k + 1, inside), ConsumeEnd(k), f, v, clean);
      }
    case Acquire(sema, n, body) =>
      AccessesIndexed(body, f, index, env, k, inside, ranges, v, clean);
      NoAccesses([Acquired(sema, Amount(n, env), inside)], f, v, clean);
      AccessesConcat([Acquired(sema, Amount(n, env), inside)], Run(UpdateIndices(body, f, index), f, env, k, inside), f, v, clean);
    case Release(sema, n) => NoAccesses([Released(sema, n, inside)], f, v, clean);
    case _ => NoAccesses([], f, v, clean);
  }

  lemma {:induction false} LeafIndexed(leaf: Leaf, f: string, index: Expr, env: Env, inside: bool, ranges: seq<Range>, v: int,
                                       clean: bool)
    requires Worth(index, env, ranges, v) && (clean ==> !LeafHidesRead(leaf, f))
    ensures AccessesAt([Work(UpdateLeaf(leaf, f, index), env, inside)], f, v, clean)
  {
    hide Worth, Eval, LeafReadsFrom, LeafHidesRead;
    WorthNow(index, env, ranges, v);
    if clean {
      forall y | LeafReadsFrom(UpdateLeaf(leaf, f, index), f, env, y) ensures y == v {
        LeafReadsIndexed(leaf, f, index, env, y);
      }
    }
  }

  lemma {:induction false} NoAccesses(t: seq<Event>, f: string, v: int, clean: bool)
    requires forall i :: 0 <= i < |t| ==> !t[i].Work?
    ensures AccessesAt(t, f, v, clean)
  {
  }

  lemma {:induction false} AccessesConcat(t: seq<Event>, u: seq<Event>, f: string, v: int, clean: bool)
    requires AccessesAt(t, f, v, clean) && AccessesAt(u, f, v, clean)
    ensures AccessesAt(t + u, f, v, clean)
  {
    hide Eval;
    forall i | 0 <= i < |t + u| ensures (t + u)[i] == if i < |t| then t[i] else u[i - |t|] {}
  }

  lemma {:induction false} AccessesBetween(a: Event, t: seq<Event>, b: Event, f: string, v: int, clean: bool)
    requires AccessesAt(t, f, v, clean) && !a.Work? && !b.Work?
    ensures AccessesAt([a] + t + [b], f, v, clean)
  {
    hide AccessesAt;
    NoAccesses([a], f, v, clean);
    NoAccesses([b], f, v, clean);
    AccessesConcat([a], t, f, v, clean);
    AccessesConcat([a] + t, [b], f, v, clean);
  }

  lemma {:induction false} LoopIndexed(x: string, lo: int, hi: int, body: Stmt, f: string, index: Expr, env: Env, k: nat,
                                        inside: bool, ranges: seq<Range>, v: int, clean: bool)
    requires Avoids(body, ranges) && Fresh(x, ranges) && Worth(index, env, ranges, v) && (clean ==> !HidesRead(body, f))
    ensures AccessesAt(RunLoop(x, lo, hi, UpdateIndices(body, f, index), f, env, k, inside), f, v, clean)
    decreases body, if hi < lo then 0 else hi - lo + 1
  {
    if lo <= hi {
      StillWorth(index, env, ranges, v, x, lo);
      AccessesIndexed(body, f, index, env[x := lo], k, inside, ranges, v, clean);
      LoopIndexed(x, lo + 1, hi, body, f, index, env, k, inside, ranges, v, clean);
      AccessesConcat(Run(UpdateIndices(body, f, index), f, env[x := lo], k, inside),
                   RunLoop(x, lo + 1, hi, UpdateIndices(body, f, index), f, env, k, inside), f, v, clean);
    }
  }

  lemma {:induction false} WorthNow(index: Expr, env: Env, ranges: seq<Range>, v: int)
    requires Worth(index, env, ranges, v)
    ensures Eval(index, env) == v
  {
    hide Eval;
    assert SameOn(env, env, ranges);
  }

  lemma {:induction false} StillWorth(index: Expr, env: Env, ranges: seq<Range>, v: int, x: string, y: int)
    requires Fresh(x, ranges) && Worth(index, env, ranges, v)
    ensures Worth(index, env[x := y], ranges, v)
  {
    forall e | SameOn(e, env[x := y], ranges) ensures Eval(index, e) == v {
      assert SameOn(e, env, ranges);
    }
  }

  /** In iteration t of the nest every store to `f` goes to slot t of the ring and, where every access is
      indexed, every read of `f` is from that slot. */
  lemma {:induction false} AccessesGoToSlot(f: string, ranges: seq<Range>, body: Stmt, ring: nat, env: Env, t: nat)
    requires ranges != [] && DistinctNames(ranges) && Avoids(body, ranges) && ring > 0
    requires t < |Environments(ranges, env)|
    ensures AccessesAt(Run(Indexed(f, ranges, body, IntImm(ring)), f, Environments(ranges, env)[t], 0, false), f,
                       Slot(Base(ranges), ring, t), !HidesRead(body, f))
  {
    var e, loops := Environments(ranges, env)[t], Loops(ranges);
    var index := Mod(LinearExpr(loops), IntImm(ring));
    IndexAdvancesByOne(ranges, env, t);
    forall e' | SameOn(e', e, ranges) ensures Eval(index, e') == Slot(Base(ranges), ring, t) {
      LinearExprValue(loops, e');
      LinearSame(ranges, e', e, 0);
      assert Eval(IntImm(ring), e') == ring;
    }
    AccessesIndexed(body, f, index, e, 0, false, ranges, Slot(Base(ranges), ring, t), !HidesRead(body, f));
  }
}
