/** Injecting ring buffering, and what it gives a forked nest of loops. */
module RingBuffer {
  import opened AsyncIR
  import opened RingIndex
  import opened RingProtocol

  datatype RingExtent = Undefined | Defined(extent: Expr)

  datatype Schedule = Schedule(async: bool, ringBuffer: RingExtent)

  type Schedules = map<string, Schedule>

  predicate IsRing(x: string, env: Schedules) { x in env && env[x].ringBuffer.Defined? }

  // ---- Rewriting the accesses ----

  /** A read of `f` gains the coordinate, but the reads in its own coordinates are left alone. */
  function UpdateValue(v: Value, f: string, index: Expr): Value
    decreases v
  {
    match v
    case Pure(_) => v
    case Call(name, args) =>
      if name == f then Call(f, args + [Pure(index)]) else Call(name, UpdateValues(args, f, index))
    case Combine(tag, parts) => Combine(tag, UpdateValues(parts, f, index))
  }

  function UpdateValues(vs: seq<Value>, f: string, index: Expr): (r: seq<Value>)
    ensures |r| == |vs|
    decreases vs
  {
    if vs == [] then [] else [UpdateValue(vs[0], f, index)] + UpdateValues(vs[1..], f, index)
  }

  /** A Provide of `f` gains the coordinate, but nothing it computes is looked at. */
  function UpdateLeaf(leaf: Leaf, f: string, index: Expr): Leaf {
    match leaf
    case Provide(name, args, values, guard) =>
      if name == f then Provide(name, args + [Pure(index)], values, guard)
      else Provide(name, UpdateValues(args, f, index), UpdateValues(values, f, index), UpdateValue(guard, f, index))
    case Evaluate(value) => Evaluate(UpdateValue(value, f, index))
    case _ => leaf
  }

  function UpdateIndices(s: Stmt, f: string, index: Expr): Stmt {
    match s
    case Do(leaf) => Do(UpdateLeaf(leaf, f, index))
    case LetStmt(x, value, body) => LetStmt(x, value, UpdateIndices(body, f, index))
    case Scoped(scoping, body) => Scoped(scoping, UpdateIndices(body, f, index))
    case For(x, min, max, body) => For(x, min, max, UpdateIndices(body, f, index))
    case Block(first, rest) => Block(UpdateIndices(first, f, index), UpdateIndices(rest, f, index))
    case Fork(first, rest) => Fork(UpdateIndices(first, f, index), UpdateIndices(rest, f, index))
    case IfThenElse(c, thenCase, elseCase) =>
      IfThenElse(c, UpdateIndices(thenCase, f, index), UpdateIndices(elseCase, f, index))
    case Atomic(x, body) => Atomic(x, UpdateIndices(body, f, index))
    case ProducerConsumer(x, isProducer, body) => ProducerConsumer(x, isProducer, UpdateIndices(body, f, index))
    case Acquire(x, n, body) => Acquire(x, n, UpdateIndices(body, f, index))
    case _ => s
  }

  /** Every read of `f` has `dims` coordinates. */
  predicate ValueHasDims(v: Value, f: string, dims: nat)
    decreases v
  {
    match v
    case Pure(_) => true
    case Call(name, args) => (name == f ==> |args| == dims) && ValuesHaveDims(args, f, dims)
    case Combine(_, parts) => ValuesHaveDims(parts, f, dims)
  }

  predicate ValuesHaveDims(vs: seq<Value>, f: string, dims: nat)
    decreases vs
  {
    vs == [] || (ValueHasDims(vs[0], f, dims) && ValuesHaveDims(vs[1..], f, dims))
  }

  predicate LeafHasDims(leaf: Leaf, f: string, dims: nat) {
    match leaf
    case Provide(name, args, values, guard) =>
      (name == f ==> |args| == dims) && ValuesHaveDims(args, f, dims) && ValuesHaveDims(values, f, dims) && ValueHasDims(guard, f, dims)
    case Evaluate(value) => ValueHasDims(value, f, dims)
    case _ => true
  }

  predicate HasDims(s: Stmt, f: string, dims: nat) {
    match s
    case Do(leaf) => LeafHasDims(leaf, f, dims)
    case LetStmt(_, _, body) => HasDims(body, f, dims)
    case Scoped(_, body) => HasDims(body, f, dims)
    case For(_, _, _, body) => HasDims(body, f, dims)
    case Block(first, rest) => HasDims(first, f, dims) && HasDims(rest, f, dims)
    case Fork(first, rest) => HasDims(first, f, dims) && HasDims(rest, f, dims)
    case IfThenElse(_, thenCase, elseCase) => HasDims(thenCase, f, dims) && HasDims(elseCase, f, dims)
    case Atomic(_, body) => HasDims(body, f, dims)
    case ProducerConsumer(_, _, body) => HasDims(body, f, dims)
    case Acquire(_, _, body) => HasDims(body, f, dims)
    case _ => true
  }

  predicate Reads(v: Value, f: string)
    decreases v
  {
    match v
    case Pure(_) => false
    case Call(name, args) => name == f || AnyReads(args, f)
    case Combine(_, parts) => AnyReads(parts, f)
  }

  predicate AnyReads(vs: seq<Value>, f: string)
    decreases vs
  {
    vs != [] && (Reads(vs[0], f) || AnyReads(vs[1..], f))
  }

  /** Some read of `f` is at coordinates that read `f` again. */
  predicate ReadsNested(v: Value, f: string)
    decreases v
  {
    match v
    case Pure(_) => false
    case Call(name, args) => if name == f then AnyReads(args, f) else AnyReadsNested(args, f)
    case Combine(_, parts) => AnyReadsNested(parts, f)
  }

  predicate AnyReadsNested(vs: seq<Value>, f: string)
    decreases vs
  {
    vs != [] && (ReadsNested(vs[0], f) || AnyReadsNested(vs[1..], f))
  }

  /** A store to `f` computes anything from `f`, or a read of `f` is nested in another. */
  predicate LeafHidesRead(leaf: Leaf, f: string) {
    match leaf
    case Provide(name, args, values, guard) =>
      if name == f then AnyReads(args, f) || AnyReads(values, f) || Reads(guard, f)
      else AnyReadsNested(args, f) || AnyReadsNested(values, f) || ReadsNested(guard, f)
    case Evaluate(value) => ReadsNested(value, f)
    case _ => false
  }

  predicate HidesRead(s: Stmt, f: string) {
    match s
    case Do(leaf) => LeafHidesRead(leaf, f)
    case LetStmt(_, _, body) => HidesRead(body, f)
    case Scoped(_, body) => HidesRead(body, f)
    case For(_, _, _, body) => HidesRead(body, f)
    case Block(first, rest) => HidesRead(first, f) || HidesRead(rest, f)
    case Fork(first, rest) => HidesRead(first, f) || HidesRead(rest, f)
    case IfThenElse(_, thenCase, elseCase) => HidesRead(thenCase, f) || HidesRead(elseCase, f)
    case Atomic(_, body) => HidesRead(body, f)
    case ProducerConsumer(_, _, body) => HidesRead(body, f)
    case Acquire(_, _, body) => HidesRead(body, f)
    case _ => false
  }

  /** What is left alone has one coordinate more only if it does not read `f`. */
  lemma {:induction false} UntouchedValue(v: Value, f: string, dims: nat)
    requires ValueHasDims(v, f, dims)
    ensures ValueHasDims(v, f, dims + 1) <==> !Reads(v, f)
    decreases v
  {
    match v
    case Pure(_) =>
    case Call(_, args) => UntouchedValues(args, f, dims);
    case Combine(_, parts) => UntouchedValues(parts, f, dims);
  }

  lemma {:induction false} UntouchedValues(vs: seq<Value>, f: string, dims: nat)
    requires ValuesHaveDims(vs, f, dims)
    ensures ValuesHaveDims(vs, f, dims + 1) <==> !AnyReads(vs, f)
    decreases vs
  {
    if vs != [] {
      UntouchedValue(vs[0], f, dims);
      UntouchedValues(vs[1..], f, dims);
    }
  }

  lemma {:induction false} AppendIndex(vs: seq<Value>, f: string, index: Expr, dims: nat)
    ensures ValuesHaveDims(vs + [Pure(index)], f, dims) <==> ValuesHaveDims(vs, f, dims)
    decreases vs
  {
    if vs == [] {
      assert vs + [Pure(index)] == [Pure(index)] && [Pure(index)][1..] == [];
    } else {
      assert (vs + [Pure(index)])[1..] == vs[1..] + [Pure(index)];
      AppendIndex(vs[1..], f, index, dims);
    }
  }

  lemma {:induction false} UpdatedValue(v: Value, f: string, index: Expr, dims: nat)
    requires ValueHasDims(v, f, dims)
    ensures ValueHasDims(UpdateValue(v, f, index), f, dims + 1) <==> !ReadsNested(v, f)
    decreases v
  {
    match v
    case Pure(_) =>
    case Call(name, args) =>
      if name == f {
        UntouchedValues(args, f, dims);
        AppendIndex(args, f, index, dims + 1);
      } else {
        UpdatedValues(args, f, index, dims);
      }
    case Combine(_, parts) => UpdatedValues(parts, f, index, dims);
  }

  lemma {:induction false} UpdatedValues(vs: seq<Value>, f: string, index: Expr, dims: nat)
    requires ValuesHaveDims(vs, f, dims)
    ensures ValuesHaveDims(UpdateValues(vs, f, index), f, dims + 1) <==> !AnyReadsNested(vs, f)
    decreases vs
  {
    if vs != [] {
      UpdatedValue(vs[0], f, index, dims);
      UpdatedValues(vs[1..], f, index, dims);
      assert UpdateValues(vs, f, index)[1..] == UpdateValues(vs[1..], f, index);
    }
  }

  lemma {:induction false} UpdatedLeaf(leaf: Leaf, f: string, index: Expr, dims: nat)
    requires LeafHasDims(leaf, f, dims)
    ensures LeafHasDims(UpdateLeaf(leaf, f, index), f, dims + 1) <==> !LeafHidesRead(leaf, f)
  {
    match leaf
    case Provide(name, args, values, guard) =>
      if name == f {
        UntouchedValues(args, f, dims);
        UntouchedValues(values, f, dims);
        UntouchedValue(guard, f, dims);
        AppendIndex(args, f, index, dims + 1);
      } else {
        UpdatedValues(args, f, index, dims);
        UpdatedValues(values, f, index, dims);
        UpdatedValue(guard, f, index, dims);
      }
    case Evaluate(value) => UpdatedValue(value, f, index, dims);
    case _ =>
  }

  /** Every access to `f` gains the ring coordinate exactly when no store to `f` computes its coordinates,
      values or guard from `f`, and no read of `f` is at coordinates that read `f`. */
  lemma {:induction false} EveryAccessIndexedIff(s: Stmt, f: string, index: Expr, dims: nat)
    requires HasDims(s, f, dims)
    ensures HasDims(UpdateIndices(s, f, index), f, dims + 1) <==> !HidesRead(s, f)
  {
    hide LeafHasDims, UpdateLeaf, LeafHidesRead;
    match s
    case Do(leaf) => UpdatedLeaf(leaf, f, index, dims);
    case LetStmt(_, _, body) => EveryAccessIndexedIff(body, f, index, dims);
    case Scoped(_, body) => EveryAccessIndexedIff(body, f, index, dims);
    case For(_, _, _, body) => EveryAccessIndexedIff(body, f, index, dims);
    case Block(first, rest) => EveryAccessIndexedIff(first, f, index, dims); EveryAccessIndexedIff(rest, f, index, dims);
    case Fork(first, rest) => EveryAccessIndexedIff(first, f, index, dims); EveryAccessIndexedIff(rest, f, index, dims);
    case IfThenElse(_, first, rest) => EveryAccessIndexedIff(first, f, index, dims); EveryAccessIndexedIff(rest, f, index, dims);
    case Atomic(_, body) => EveryAccessIndexedIff(body, f, index, dims);
    case ProducerConsumer(_, _, body) => EveryAccessIndexedIff(body, f, index, dims);
    case Acquire(_, _, body) => EveryAccessIndexedIff(body, f, index, dims);
    case _ =>
  }

  lemma {:induction false} OneValue(v: Value, f: string, index: Expr, dims: nat)
    ensures ValuesHaveDims([v], f, dims) == ValueHasDims(v, f, dims) && AnyReads([v], f) == Reads(v, f)
    ensures AnyReadsNested([v], f) == ReadsNested(v, f) && UpdateValues([v], f, index) == [UpdateValue(v, f, index)]
  {
    hide ValueHasDims, Reads, ReadsNested, UpdateValue;
    assert [v][1..] == [];
  }

  /** `f(f(x))` keeps one coordinate inside. */
  lemma {:induction false} NestedRead(f: string, x: Expr, index: Expr)
    ensures var inner := Call(f, [Pure(x)]);
      var v := Call(f, [inner]);
      ValueHasDims(v, f, 1) && ReadsNested(v, f) && UpdateValue(v, f, index) == Call(f, [inner, Pure(index)])
  {
    var inner := Call(f, [Pure(x)]);
    OneValue(Pure(x), f, index, 1);
    OneValue(inner, f, index, 1);
    assert [inner] + [Pure(index)] == [inner, Pure(index)];
  }

  /** `g(x) = f(f(x))`: the inner read keeps its one coordinate. */
  lemma {:induction false} NestedReadIsMissed(f: string, g: string, x: Expr, index: Expr)
    requires g != f
    ensures var inner := Call(f, [Pure(x)]);
      var s := Do(Provide(g, [Pure(x)], [Call(f, [inner])], Pure(IntImm(1))));
      && HasDims(s, f, 1) && !HasDims(UpdateIndices(s, f, index), f, 2)
      && UpdateIndices(s, f, index) == Do(Provide(g, [Pure(x)], [Call(f, [inner, Pure(index)])], Pure(IntImm(1))))
  {
    var inner := Call(f, [Pure(x)]);
    var v := Call(f, [inner]);
    NestedRead(f, x, index);
    OneValue(Pure(x), f, index, 1);
    OneValue(v, f, index, 1);
    EveryAccessIndexedIff(Do(Provide(g, [Pure(x)], [v], Pure(IntImm(1)))), f, index, 1);
  }

  /** `f(x) + 1`, as a value. */
  lemma {:induction false} SelfRead(f: string, x: Expr)
    ensures var sum := Combine("+", [Call(f, [Pure(x)]), Pure(IntImm(1))]);
      ValueHasDims(sum, f, 1) && Reads(sum, f)
  {
    var read, one := Call(f, [Pure(x)]), Pure(IntImm(1));
    var parts := [read, one];
    assert parts[0] == read && parts[1..] == [one];
    OneValue(Pure(x), f, x, 1);
    OneValue(one, f, x, 1);
    assert ValueHasDims(read, f, 1) && ValuesHaveDims(parts, f, 1) && AnyReads(parts, f);
    assert ValueHasDims(Combine("+", parts), f, 1) && Reads(Combine("+", parts), f);
  }

  /** `f(x) = f(x) + 1`: the store gains a coordinate and the read does not. */
  lemma {:induction false} SelfReadIsMissed(f: string, x: Expr, index: Expr)
    ensures var sum := Combine("+", [Call(f, [Pure(x)]), Pure(IntImm(1))]);
      var s := Do(Provide(f, [Pure(x)], [sum], Pure(IntImm(1))));
      && HasDims(s, f, 1) && !HasDims(UpdateIndices(s, f, index), f, 2)
      && UpdateIndices(s, f, index) == Do(Provide(f, [Pure(x), Pure(index)], [sum], Pure(IntImm(1))))
  {
    var sum := Combine("+", [Call(f, [Pure(x)]), Pure(IntImm(1))]);
    SelfRead(f, x);
    OneValue(Pure(x), f, index, 1);
    OneValue(sum, f, index, 1);
    assert [Pure(x)] + [Pure(index)] == [Pure(x), Pure(index)];
    EveryAccessIndexedIff(Do(Provide(f, [Pure(x)], [sum], Pure(IntImm(1)))), f, index, 1);
  }

  // ---- The pass ----

  /** Each ring-buffered Realize lies in its hoisted storage with at least one loop in between. */
  predicate Placed(s: Stmt, env: Schedules, depth: nat, hoist: map<string, int>) {
    match s
    case LetStmt(_, _, body) => Placed(body, env, depth, hoist)
    case Scoped(scoping, body) =>
      if scoping.HoistedStorage? then
        scoping.name in env && scoping.name !in hoist && Placed(body, env, depth, hoist[scoping.name := depth - 1])
      else
        && (scoping.Realize? ==> scoping.name in env)
        && (scoping.Realize? && IsRing(scoping.name, env) ==>
              scoping.name in hoist && 0 <= hoist[scoping.name] + 1 < depth)
        && Placed(body, env, depth, hoist)
    case For(_, _, _, body) => Placed(body, env, depth + 1, hoist)
    case Block(first, rest) => Placed(first, env, depth, hoist) && Placed(rest, env, depth, hoist)
    case Fork(first, rest) => Placed(first, env, depth, hoist) && Placed(rest, env, depth, hoist)
    case IfThenElse(_, thenCase, elseCase) => Placed(thenCase, env, depth, hoist) && Placed(elseCase, env, depth, hoist)
    case Atomic(_, body) => Placed(body, env, depth, hoist)
    case ProducerConsumer(_, _, body) => Placed(body, env, depth, hoist)
    case Acquire(_, _, body) => Placed(body, env, depth, hoist)
    case _ => true
  }

  /** Acquire a slot, use it, give it back. */
  function InSlot(f: string, body: Stmt): Stmt {
    Acquire(RingSemaphore(f), IntImm(1), BlockMake(body, Release(RingSemaphore(f), 1)))
  }

  function RingRealize(x: string, extents: seq<Expr>, body: Stmt, env: Schedules, inner: seq<Loop>): Stmt
    requires x in env && (IsRing(x, env) ==> inner != [])
  {
    if !IsRing(x, env) then Scoped(Realize(x, extents), body)
    else
      var indexed := UpdateIndices(body, x, Mod(LinearExpr(inner), env[x].ringBuffer.extent));
      Scoped(Realize(x, extents + [env[x].ringBuffer.extent]), if env[x].async then InSlot(x, indexed) else indexed)
  }

  /** The rewritten statement, from the loops around it and where each storage was hoisted to. */
  function Ringed(s: Stmt, env: Schedules, loops: seq<Loop>, hoist: map<string, int>): Stmt
    requires Placed(s, env, |loops|, hoist)
  {
    match s
    case LetStmt(x, value, body) => LetStmt(x, value, Ringed(body, env, loops, hoist))
    case Scoped(scoping, body) =>
      if scoping.HoistedStorage? then
        var b := Scoped(scoping, Ringed(body, env, loops, hoist[scoping.name := |loops| - 1]));
        if env[scoping.name].async && IsRing(scoping.name, env)
        then Scoped(MakeSemaphore(RingSemaphore(scoping.name), 2), b) else b
      else if scoping.Realize? then
        RingRealize(scoping.name, scoping.extents, Ringed(body, env, loops, hoist), env,
                    if IsRing(scoping.name, env) then loops[hoist[scoping.name] + 1..] else [])
      else Scoped(scoping, Ringed(body, env, loops, hoist))
    case For(x, min, max, body) => For(x, min, max, Ringed(body, env, loops + [Loop(x, Extent(min, max))], hoist))
    case Block(first, rest) => BlockMake(Ringed(first, env, loops, hoist), Ringed(rest, env, loops, hoist))
    case Fork(first, rest) => Fork(Ringed(first, env, loops, hoist), Ringed(rest, env, loops, hoist))
    case IfThenElse(c, thenCase, elseCase) =>
      IfThenElse(c, Ringed(thenCase, env, loops, hoist), Ringed(elseCase, env, loops, hoist))
    case Atomic(x, body) => Atomic(x, Ringed(body, env, loops, hoist))
    case ProducerConsumer(x, isProducer, body) => ProducerConsumer(x, isProducer, Ringed(body, env, loops, hoist))
    case Acquire(x, n, body) => Acquire(x, n, Ringed(body, env, loops, hoist))
    case _ => s
  }

  class InjectRingBuffering {
    const env: Schedules
    var loops: seq<Loop>
    var hoistStorageLoopIndex: map<string, int>

    constructor (e: Schedules)
      ensures env == e && loops == [] && hoistStorageLoopIndex == map[]
    {
      env, loops, hoistStorageLoopIndex := e, [], map[];
    }

    method VisitRealize(x: string, extents: seq<Expr>, body: Stmt) returns (r: Stmt)
      requires Placed(Scoped(Realize(x, extents), body), env, |loops|, hoistStorageLoopIndex)
      modifies this
      ensures loops == old(loops) && hoistStorageLoopIndex == old(hoistStorageLoopIndex)
      ensures r == Ringed(Scoped(Realize(x, extents), body), env, loops, hoistStorageLoopIndex)
      decreases body, 1
    {
      var b := Mutate(body);
      if !IsRing(x, env) {
        return Scoped(Realize(x, extents), b);
      }
      var ring := env[x].ringBuffer.extent;
      var index := BuildIndex(loops, hoistStorageLoopIndex[x] + 1, ring);
      b := UpdateIndices(b, x, index);
      if env[x].async {
        b := Acquire(RingSemaphore(x), IntImm(1), BlockMake(b, Release(RingSemaphore(x), 1)));
      }
      r := Scoped(Realize(x, extents + [ring]), b);
    }

    method VisitHoistedStorage(x: string, body: Stmt) returns (r: Stmt)
      requires Placed(Scoped(HoistedStorage(x), body), env, |loops|, hoistStorageLoopIndex)
      modifies this
      ensures loops == old(loops) && hoistStorageLoopIndex == old(hoistStorageLoopIndex)
      ensures r == Ringed(Scoped(HoistedStorage(x), body), env, loops, hoistStorageLoopIndex)
      decreases body, 1
    {
      hoistStorageLoopIndex := hoistStorageLoopIndex[x := |loops| - 1];
      var b := Mutate(body);
      r := Scoped(HoistedStorage(x), b);
      if env[x].async && IsRing(x, env) {
        r := Scoped(MakeSemaphore(RingSemaphore(x), 2), r);
      }
      hoistStorageLoopIndex := hoistStorageLoopIndex - {x};
      assert hoistStorageLoopIndex == old(hoistStorageLoopIndex);
    }

    method VisitFor(x: string, min: Expr, max: Expr, body: Stmt) returns (r: Stmt)
      requires Placed(For(x, min, max, body), env, |loops|, hoistStorageLoopIndex)
      modifies this
      ensures loops == old(loops) && hoistStorageLoopIndex == old(hoistStorageLoopIndex)
      ensures r == Ringed(For(x, min, max, body), env, loops, hoistStorageLoopIndex)
      decreases body, 1
    {
      loops := loops + [Loop(x, Extent(min, max))];
      var b := Mutate(body);
      r := For(x, min, max, b);
      loops := loops[..|loops| - 1];
    }

    method Mutate(s: Stmt) returns (r: Stmt)
      requires Placed(s, env, |loops|, hoistStorageLoopIndex)
      modifies this
      ensures loops == old(loops) && hoistStorageLoopIndex == old(hoistStorageLoopIndex)
      ensures r == Ringed(s, env, loops, hoistStorageLoopIndex)
      decreases s, 0
    {
      match s
      case LetStmt(x, value, body) =>
        var b := Mutate(body);
        r := LetStmt(x, value, b);
      case Scoped(scoping, body) =>
        if scoping.Realize? {
          r := VisitRealize(scoping.name, scoping.extents, body);
        } else if scoping.HoistedStorage? {
          r := VisitHoistedStorage(scoping.name, body);
        } else {
          var b := Mutate(body);
          r := Scoped(scoping, b);
        }
      case For(x, min, max, body) =>
        r := VisitFor(x, min, max, body);
      case Block(first, rest) =>
        var b1 := Mutate(first);
        var b2 := Mutate(rest);
        r := BlockMake(b1, b2);
      case Fork(first, rest) =>
        var b1 := Mutate(first);
        var b2 := Mutate(rest);
        r := Fork(b1, b2);
      case IfThenElse(c, thenCase, elseCase) =>
        var b1 := Mutate(thenCase);
        var b2 := Mutate(elseCase);
        r := IfThenElse(c, b1, b2);
      case Atomic(x, body) =>
        var b := Mutate(body);
        r := Atomic(x, b);
      case ProducerConsumer(x, isProducer, body) =>
        var b := Mutate(body);
        r := ProducerConsumer(x, isProducer, b);
      case Acquire(x, n, body) =>
        var b := Mutate(body);
        r := Acquire(x, n, b);
      case _ =>
        r := s;
    }
  }
}
