/** Injection changes nothing but what it adds: with that taken out again, every site is as it was. */
module RingRestored {
  import opened AsyncIR
  import opened RingBuffer
  import opened RingIndex
  import opened RingProtocol
  import opened WorkSites

  // ---- Taking the ring coordinate out ----

  /** `v` without the last coordinate of the reads of `f` that are not within another read of `f`. */
  function Unindexed(v: Value, f: string): Value
    decreases v
  {
    match v
    case Pure(_) => v
    case Call(name, args) =>
      if name != f then Call(name, AllUnindexed(args, f)) else if args == [] then v else Call(name, args[..|args| - 1])
    case Combine(tag, parts) => Combine(tag, AllUnindexed(parts, f))
  }

  function AllUnindexed(vs: seq<Value>, f: string): seq<Value>
    decreases vs
  {
    if vs == [] then [] else [Unindexed(vs[0], f)] + AllUnindexed(vs[1..], f)
  }

  /** A store to `f` loses its last coordinate; other work loses that of its reads. */
  function LeafUnindexed(leaf: Leaf, f: string): Leaf {
    match leaf
    case Provide(name, args, values, guard) =>
      if name != f then Provide(name, AllUnindexed(args, f), AllUnindexed(values, f), Unindexed(guard, f))
      else if args == [] then leaf else Provide(name, args[..|args| - 1], values, guard)
    case Evaluate(value) => Evaluate(Unindexed(value, f))
    case _ => leaf
  }

  lemma {:induction false} ValueRestored(v: Value, f: string, index: Expr)
    ensures Unindexed(UpdateValue(v, f, index), f) == v
    decreases v
  {
    match v
    case Pure(_) =>
    case Call(name, args) => if name == f { assert (args + [Pure(index)])[..|args|] == args; } else { ValuesRestored(args, f, index); }
    case Combine(_, parts) => ValuesRestored(parts, f, index);
  }

  lemma {:induction false} ValuesRestored(vs: seq<Value>, f: string, index: Expr)
    ensures AllUnindexed(UpdateValues(vs, f, index), f) == vs
    decreases vs
  {
    if vs != [] {
      ValueRestored(vs[0], f, index);
      ValuesRestored(vs[1..], f, index);
      assert UpdateValues(vs, f, index)[1..] == UpdateValues(vs[1..], f, index);
    }
  }

  lemma {:induction false} LeafRestored(leaf: Leaf, f: string, index: Expr)
    ensures LeafUnindexed(UpdateLeaf(leaf, f, index), f) == leaf
  {
    hide Unindexed, UpdateValue;
    match leaf
    case Provide(name, args, values, guard) =>
      if name == f {
        assert (args + [Pure(index)])[..|args|] == args;
      } else {
        ValuesRestored(args, f, index);
        ValuesRestored(values, f, index);
        ValueRestored(guard, f, index);
      }
    case Evaluate(value) => ValueRestored(value, f, index);
    case _ =>
  }

  function StmtUnindexed(s: Stmt, f: string): Stmt {
    match s
    case Do(leaf) => Do(LeafUnindexed(leaf, f))
    case LetStmt(x, value, body) => LetStmt(x, value, StmtUnindexed(body, f))
    case Scoped(scoping, body) => Scoped(scoping, StmtUnindexed(body, f))
    case For(x, min, max, body) => For(x, min, max, StmtUnindexed(body, f))
    case Block(first, rest) => Block(StmtUnindexed(first, f), StmtUnindexed(rest, f))
    case Fork(first, rest) => Fork(StmtUnindexed(first, f), StmtUnindexed(rest, f))
    case IfThenElse(c, thenCase, elseCase) => IfThenElse(c, StmtUnindexed(thenCase, f), StmtUnindexed(elseCase, f))
    case Atomic(x, body) => Atomic(x, StmtUnindexed(body, f))
    case ProducerConsumer(x, isProducer, body) => ProducerConsumer(x, isProducer, StmtUnindexed(body, f))
    case Acquire(x, n, body) => Acquire(x, n, StmtUnindexed(body, f))
    case _ => s
  }

  /** Taking the coordinate out again gives every statement back: operators, other coordinates and their order,
      names, guards, bounds and conditions are untouched. */
  lemma {:induction false} IndicesRestored(s: Stmt, f: string, index: Expr)
    ensures StmtUnindexed(UpdateIndices(s, f, index), f) == s
  {
    hide LeafUnindexed, UpdateLeaf;
    match s
    case Do(leaf) => LeafRestored(leaf, f, index);
    case LetStmt(_, _, body) => IndicesRestored(body, f, index);
    case Scoped(_, body) => IndicesRestored(body, f, index);
    case For(_, _, _, body) => IndicesRestored(body, f, index);
    case Block(first, rest) => IndicesRestored(first, f, index); IndicesRestored(rest, f, index);
    case Fork(first, rest) => IndicesRestored(first, f, index); IndicesRestored(rest, f, index);
    case IfThenElse(_, first, rest) => IndicesRestored(first, f, index); IndicesRestored(rest, f, index);
    case Atomic(_, body) => IndicesRestored(body, f, index);
    case ProducerConsumer(_, _, body) => IndicesRestored(body, f, index);
    case Acquire(_, _, body) => IndicesRestored(body, f, index);
    case _ =>
  }

  // ---- The same on sites ----

  function PointUnindexed(p: Point, f: string): Point { if p.Leaf? then Leaf(LeafUnindexed(p.leaf, f)) else p }

  function SitesUnindexed(t: seq<Site>, f: string): seq<Site> {
    if t == [] then [] else [Site(t[0].path, PointUnindexed(t[0].point, f))] + SitesUnindexed(t[1..], f)
  }

  lemma {:induction false} UnindexedConcat(t: seq<Site>, u: seq<Site>, f: string)
    ensures SitesUnindexed(t + u, f) == SitesUnindexed(t, f) + SitesUnindexed(u, f)
  {
    hide PointUnindexed;
    if t == [] {
      assert t + u == u;
    } else {
      UnindexedConcat(t[1..], u, f);
      assert (t + u)[0] == t[0] && (t + u)[1..] == t[1..] + u;
      Join(Site(t[0].path, PointUnindexed(t[0].point, f)), SitesUnindexed(t[1..], f), SitesUnindexed(u, f));
    }
  }

  lemma {:induction false} UnindexedUnder(frame: Frame, t: seq<Site>, f: string)
    ensures SitesUnindexed(Under(frame, t), f) == Under(frame, SitesUnindexed(t, f))
  {
    hide PointUnindexed;
    if t != [] {
      UnindexedUnder(frame, t[1..], f);
      UnderFirst(frame, t);
      UnderRest(frame, Site(t[0].path, PointUnindexed(t[0].point, f)), SitesUnindexed(t[1..], f));
    }
  }

  lemma {:induction false} UnindexedOne(site: Site, f: string)
    ensures SitesUnindexed([site], f) == [Site(site.path, PointUnindexed(site.point, f))]
  {
    assert [site][1..] == [];
  }

  lemma {:induction false} SitesRestored(s: Stmt, f: string, index: Expr)
    ensures SitesUnindexed(Sites(UpdateIndices(s, f, index)), f) == Sites(s)
    decreases s, 0
  {
    hide LeafUnindexed, UpdateLeaf, Under;
    match s
    case NoOp =>
    case Do(leaf) => LeafRestored(leaf, f, index); UnindexedOne(Site([], Leaf(UpdateLeaf(leaf, f, index))), f);
    case Release(sema, n) => UnindexedOne(Site([], Signal(sema, n)), f);
    case LetStmt(x, value, body) => RestoredUnder(InLet(x, value), body, f, index);
    case Scoped(scoping, body) => RestoredUnder(InScope(scoping), body, f, index);
    case For(x, min, max, body) => RestoredUnder(InLoop(x, min, max), body, f, index);
    case Block(first, rest) =>
      SitesRestored(first, f, index);
      SitesRestored(rest, f, index);
      UnindexedConcat(Sites(UpdateIndices(first, f, index)), Sites(UpdateIndices(rest, f, index)), f);
    case Fork(first, rest) =>
      TasksRestored(first, f, index);
      TasksRestored(rest, f, index);
      UnindexedConcat(TaskSites(UpdateIndices(first, f, index)), TaskSites(UpdateIndices(rest, f, index)), f);
    case IfThenElse(c, thenCase, elseCase) =>
      RestoredUnder(InThen(c), thenCase, f, index);
      RestoredUnder(InElse(c), elseCase, f, index);
      UnindexedConcat(Under(InThen(c), Sites(UpdateIndices(thenCase, f, index))),
                      Under(InElse(c), Sites(UpdateIndices(elseCase, f, index))), f);
    case Atomic(x, body) => RestoredUnder(InAtomic(x), body, f, index);
    case ProducerConsumer(x, isProducer, body) =>
      SitesRestored(body, f, index);
      var end := [Site([], EndOf(x, isProducer))];
      UnindexedOne(end[0], f);
      UnindexedConcat(Sites(UpdateIndices(body, f, index)), end, f);
      UnindexedUnder(InNode(x, isProducer), Sites(UpdateIndices(body, f, index)) + end, f);
    case Acquire(sema, n, body) => RestoredUnder(Behind(sema, n), body, f, index);
  }

  lemma {:induction false} RestoredUnder(frame: Frame, s: Stmt, f: string, index: Expr)
    ensures SitesUnindexed(Under(frame, Sites(UpdateIndices(s, f, index))), f) == Under(frame, Sites(s))
    decreases s, 1
  {
    SitesRestored(s, f, index);
    UnindexedUnder(frame, Sites(UpdateIndices(s, f, index)), f);
  }

  lemma {:induction false} TasksRestored(s: Stmt, f: string, index: Expr)
    ensures SitesUnindexed(TaskSites(UpdateIndices(s, f, index)), f) == TaskSites(s)
    decreases s, 2
  {
    if s.Fork? { SitesRestored(s, f, index); } else { RestoredUnder(InTask, s, f, index); }
  }

  // ---- The whole injection ----

  predicate IsRingSemaphore(sema: Semaphore) { sema.FoldingSemaphore? && sema == RingSemaphore(sema.func) }

  /** The frames of the ring's semaphores. */
  predicate RingFrame(frame: Frame) {
    || (frame.Behind? && IsRingSemaphore(frame.sema))
    || (frame.InScope? && frame.scoping.MakeSemaphore? && IsRingSemaphore(frame.scoping.sema))
  }

  predicate RingRealization(frame: Frame, env: Schedules) {
    frame.InScope? && frame.scoping.Realize? && IsRing(frame.scoping.name, env) && frame.scoping.extents != []
  }

  /** A site without the ring: its semaphores, the last extent of each ring-buffered realization around it, and
      the last coordinate of the accesses to that Func. */
  function Unringed(site: Site, env: Schedules): Site
    decreases |site.path|
  {
    if site.path == [] then site
    else
      var frame, rest := site.path[0], site.path[1..];
      if RingFrame(frame) then Unringed(Site(rest, site.point), env)
      else if RingRealization(frame, env) then
        var es := frame.scoping.extents;
        var inner := Unringed(Site(rest, PointUnindexed(site.point, frame.scoping.name)), env);
        Site([InScope(Realize(frame.scoping.name, es[..|es| - 1]))] + inner.path, inner.point)
      else
        var inner := Unringed(Site(rest, site.point), env);
        Site([frame] + inner.path, inner.point)
  }

  predicate RingSignal(p: Point) { p.Signal? && IsRingSemaphore(p.sema) }

  function AllUnringed(t: seq<Site>, env: Schedules): seq<Site> {
    if t == [] then []
    else if RingSignal(t[0].point) then AllUnringed(t[1..], env)
    else [Unringed(t[0], env)] + AllUnringed(t[1..], env)
  }

  /** No semaphore of a ring is in use yet. */
  predicate RingFree(s: Stmt) {
    match s
    case Release(sema, _) => !IsRingSemaphore(sema)
    case LetStmt(_, _, body) => RingFree(body)
    case Scoped(scoping, body) => (scoping.MakeSemaphore? ==> !IsRingSemaphore(scoping.sema)) && RingFree(body)
    case For(_, _, _, body) => RingFree(body)
    case Block(first, rest) => RingFree(first) && RingFree(rest)
    case Fork(first, rest) => RingFree(first) && RingFree(rest)
    case IfThenElse(_, thenCase, elseCase) => RingFree(thenCase) && RingFree(elseCase)
    case Atomic(_, body) => RingFree(body)
    case ProducerConsumer(_, _, body) => RingFree(body)
    case Acquire(sema, _, body) => !IsRingSemaphore(sema) && RingFree(body)
    case _ => true
  }

  lemma {:induction false} UnringedConcat(t: seq<Site>, u: seq<Site>, env: Schedules)
    ensures AllUnringed(t + u, env) == AllUnringed(t, env) + AllUnringed(u, env)
  {
    hide Unringed, RingSignal;
    if t == [] {
      assert t + u == u;
    } else {
      UnringedConcat(t[1..], u, env);
      assert (t + u)[0] == t[0] && (t + u)[1..] == t[1..] + u;
      Join(Unringed(t[0], env), AllUnringed(t[1..], env), AllUnringed(u, env));
    }
  }

  lemma {:induction false} UnringedFirst(frame: Frame, path: seq<Frame>, p: Point, env: Schedules)
    ensures Unringed(Site([frame] + path, p), env)
         == if RingFrame(frame) then Unringed(Site(path, p), env)
            else if RingRealization(frame, env) then
              var es := frame.scoping.extents;
              var inner := Unringed(Site(path, PointUnindexed(p, frame.scoping.name)), env);
              Site([InScope(Realize(frame.scoping.name, es[..|es| - 1]))] + inner.path, inner.point)
            else var inner := Unringed(Site(path, p), env); Site([frame] + inner.path, inner.point)
  {
    hide RingFrame, RingRealization, PointUnindexed;
    assert ([frame] + path)[1..] == path;
  }

  lemma {:induction false} UnringedUnder(frame: Frame, t: seq<Site>, env: Schedules)
    requires !RingRealization(frame, env)
    ensures AllUnringed(Under(frame, t), env) == if RingFrame(frame) then AllUnringed(t, env) else Under(frame, AllUnringed(t, env))
  {
    hide Unringed, RingFrame, RingRealization, RingSignal;
    if t != [] {
      UnringedUnder(frame, t[1..], env);
      UnderFirst(frame, t);
      UnringedFirst(frame, t[0].path, t[0].point, env);
      UnderRest(frame, Unringed(t[0], env), AllUnringed(t[1..], env));
    }
  }

  lemma {:induction false} UnringedRealize(x: string, es: seq<Expr>, ring: Expr, t: seq<Site>, env: Schedules)
    requires IsRing(x, env)
    ensures AllUnringed(Under(InScope(Realize(x, es + [ring])), t), env)
         == Under(InScope(Realize(x, es)), AllUnringed(SitesUnindexed(t, x), env))
  {
    hide Unringed, PointUnindexed;
    if t != [] {
      var frame := InScope(Realize(x, es + [ring]));
      UnringedRealize(x, es, ring, t[1..], env);
      UnderFirst(frame, t);
      UnringedFirst(frame, t[0].path, t[0].point, env);
      assert (es + [ring])[..|es|] == es;
      var site := Site(t[0].path, PointUnindexed(t[0].point, x));
      SignalUnindexed(t[0].point, x);
      assert SitesUnindexed(t, x)[1..] == SitesUnindexed(t[1..], x);
      UnderRest(InScope(Realize(x, es)), Unringed(site, env), AllUnringed(SitesUnindexed(t[1..], x), env));
    }
  }

  lemma {:induction false} SignalUnindexed(p: Point, f: string)
    ensures RingSignal(PointUnindexed(p, f)) <==> RingSignal(p)
  {
  }

  lemma {:induction false} UnringedOne(site: Site, env: Schedules)
    requires site.path == []
    ensures AllUnringed([site], env) == if RingSignal(site.point) then [] else [site]
  {
    assert [site][1..] == [];
  }

  /** The slot's acquire and release leave nothing behind. */
  lemma {:induction false} InSlotUnringed(x: string, body: Stmt, indexed: Stmt, env: Schedules)
    requires SitesUnindexed(Sites(indexed), x) == Sites(body)
    ensures AllUnringed(SitesUnindexed(Sites(InSlot(x, indexed)), x), env) == AllUnringed(Sites(body), env)
  {
    hide Under, AllUnringed, SitesUnindexed;
    var signal := Site([], Signal(RingSemaphore(x), 1));
    var frame := Behind(RingSemaphore(x), IntImm(1));
    BlockMakeSites(indexed, Release(RingSemaphore(x), 1));
    assert Sites(InSlot(x, indexed)) == Under(frame, Sites(indexed) + [signal]);
    UnindexedUnder(frame, Sites(indexed) + [signal], x);
    UnindexedConcat(Sites(indexed), [signal], x);
    UnindexedOne(signal, x);
    UnringedUnder(frame, Sites(body) + [signal], env);
    UnringedConcat(Sites(body), [signal], env);
    UnringedOne(signal, env);
    assert AllUnringed(Sites(body), env) + [] == AllUnringed(Sites(body), env);
  }

  lemma {:induction false} RealizeUnringed(x: string, es: seq<Expr>, body: Stmt, env: Schedules, inner: seq<Loop>)
    requires x in env && (IsRing(x, env) ==> inner != [])
    ensures AllUnringed(Sites(RingRealize(x, es, body, env, inner)), env) == Under(InScope(Realize(x, es)), AllUnringed(Sites(body), env))
  {
    hide Under, AllUnringed, SitesUnindexed, InSlot, UpdateIndices;
    if IsRing(x, env) {
      var ring := env[x].ringBuffer.extent;
      var index := Mod(LinearExpr(inner), ring);
      var indexed := UpdateIndices(body, x, index);
      SitesRestored(body, x, index);
      UnringedRealize(x, es, ring, Sites(if env[x].async then InSlot(x, indexed) else indexed), env);
      InSlotUnringed(x, body, indexed, env);
    } else {
      UnringedUnder(InScope(Realize(x, es)), Sites(body), env);
    }
  }

  lemma {:induction false} NodeUnringed(x: string, isProducer: bool, t: seq<Site>, env: Schedules)
    ensures AllUnringed(Under(InNode(x, isProducer), t + [Site([], EndOf(x, isProducer))]), env)
         == Under(InNode(x, isProducer), AllUnringed(t, env) + [Site([], EndOf(x, isProducer))])
  {
    var end := Site([], EndOf(x, isProducer));
    UnringedUnder(InNode(x, isProducer), t + [end], env);
    UnringedConcat(t, [end], env);
    UnringedOne(end, env);
  }

  /** With the ring's semaphores, extents and coordinates taken out, everything is as it was before. */
  lemma {:induction false} RingedRestored(s: Stmt, env: Schedules, loops: seq<Loop>, hoist: map<string, int>)
    requires Placed(s, env, |loops|, hoist) && RingFree(s)
    ensures AllUnringed(Sites(Ringed(s, env, loops, hoist)), env) == Sites(s)
    ensures Ringed(s, env, loops, hoist).Fork? <==> s.Fork?
    decreases s, 0
  {
    hide Under, AllUnringed, RingRealize, BlockMake;
    match s
    case NoOp => NothingUnringed(env);
    case Do(leaf) => UnringedOne(Site([], Leaf(leaf)), env);
    case Release(sema, n) => UnringedOne(Site([], Signal(sema, n)), env);
    case LetStmt(x, value, body) =>
      RingedRestored(body, env, loops, hoist);
      UnringedUnder(InLet(x, value), Sites(Ringed(body, env, loops, hoist)), env);
    case Scoped(_, _) => ScopeRestored(s, env, loops, hoist);
    case For(x, min, max, body) =>
      var inner := loops + [Loop(x, Extent(min, max))];
      RingedRestored(body, env, inner, hoist);
      UnringedUnder(InLoop(x, min, max), Sites(Ringed(body, env, inner, hoist)), env);
    case Block(first, rest) =>
      RingedRestored(first, env, loops, hoist);
      RingedRestored(rest, env, loops, hoist);
      var b1, b2 := Ringed(first, env, loops, hoist), Ringed(rest, env, loops, hoist);
      BlockMakeSites(b1, b2);
      MadeBlock(b1, b2);
      UnringedConcat(Sites(b1), Sites(b2), env);
    case Fork(first, rest) =>
      TaskRestored(first, env, loops, hoist);
      TaskRestored(rest, env, loops, hoist);
      UnringedConcat(TaskSites(Ringed(first, env, loops, hoist)), TaskSites(Ringed(rest, env, loops, hoist)), env);
    case IfThenElse(c, thenCase, elseCase) =>
      RingedRestored(thenCase, env, loops, hoist);
      RingedRestored(elseCase, env, loops, hoist);
      var t, u := Sites(Ringed(thenCase, env, loops, hoist)), Sites(Ringed(elseCase, env, loops, hoist));
      UnringedConcat(Under(InThen(c), t), Under(InElse(c), u), env);
      UnringedUnder(InThen(c), t, env);
      UnringedUnder(InElse(c), u, env);
    case Atomic(x, body) =>
      RingedRestored(body, env, loops, hoist);
      UnringedUnder(InAtomic(x), Sites(Ringed(body, env, loops, hoist)), env);
    case ProducerConsumer(x, isProducer, body) =>
      RingedRestored(body, env, loops, hoist);
      NodeUnringed(x, isProducer, Sites(Ringed(body, env, loops, hoist)), env);
    case Acquire(sema, n, body) =>
      RingedRestored(body, env, loops, hoist);
      UnringedUnder(Behind(sema, n), Sites(Ringed(body, env, loops, hoist)), env);
  }

  lemma {:induction false} NothingUnringed(env: Schedules)
    ensures AllUnringed([], env) == []
  {
  }

  lemma {:induction false} MadeBlock(first: Stmt, rest: Stmt)
    ensures BlockMake(first, rest).Block?
  {
  }

  lemma {:induction false} TaskRestored(s: Stmt, env: Schedules, loops: seq<Loop>, hoist: map<string, int>)
    requires Placed(s, env, |loops|, hoist) && RingFree(s)
    ensures AllUnringed(TaskSites(Ringed(s, env, loops, hoist)), env) == TaskSites(s)
    decreases s, 2
  {
    hide Under, AllUnringed, Ringed;
    RingedRestored(s, env, loops, hoist);
    if !s.Fork? { UnringedUnder(InTask, Sites(Ringed(s, env, loops, hoist)), env); }
  }

  lemma {:induction false} ScopeRestored(s: Stmt, env: Schedules, loops: seq<Loop>, hoist: map<string, int>)
    requires s.Scoped? && Placed(s, env, |loops|, hoist) && RingFree(s)
    ensures AllUnringed(Sites(Ringed(s, env, loops, hoist)), env) == Sites(s)
    ensures !Ringed(s, env, loops, hoist).Fork?
    decreases s.body, 1
  {
    hide Under, AllUnringed, UpdateIndices, InSlot, LinearExpr;
    var x, frame := s.scoping, InScope(s.scoping);
    if x.HoistedStorage? {
      var inner := hoist[x.name := |loops| - 1];
      RingedRestored(s.body, env, loops, inner);
      var b := Sites(Ringed(s.body, env, loops, inner));
      UnringedUnder(frame, b, env);
      UnringedUnder(InScope(MakeSemaphore(RingSemaphore(x.name), 2)), Under(frame, b), env);
    } else if x.Realize? {
      RingedRestored(s.body, env, loops, hoist);
      RealizeUnringed(x.name, x.extents, Ringed(s.body, env, loops, hoist), env,
                      if IsRing(x.name, env) then loops[hoist[x.name] + 1..] else []);
    } else {
      RingedRestored(s.body, env, loops, hoist);
      UnringedUnder(frame, Sites(Ringed(s.body, env, loops, hoist)), env);
    }
  }
}
