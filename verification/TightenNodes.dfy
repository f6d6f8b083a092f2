/** Tightening produce and consume nodes to what uses the Func, so that tasks wait no longer than needed. */
module TightenNodes {
  import opened AsyncIR
  import opened ExpandAcquire

  // ---- Uses of a Func: by its own name or that of one of its buffers ----

  predicate Mentions(e: Expr, names: set<string>) {
    match e
    case IntImm(_) => false
    case Variable(y) => y in names
    case Add(a, b) => Mentions(a, names) || Mentions(b, names)
    case Sub(a, b) => Mentions(a, names) || Mentions(b, names)
    case Mul(a, b) => Mentions(a, names) || Mentions(b, names)
    case Mod(a, b) => Mentions(a, names) || Mentions(b, names)
    case Less(a, b) => Mentions(a, names) || Mentions(b, names)
  }

  predicate AnyMentions(es: seq<Expr>, names: set<string>) { exists i :: 0 <= i < |es| && Mentions(es[i], names) }

  predicate ValueUses(v: Value, names: set<string>)
    decreases v
  {
    match v
    case Pure(e) => Mentions(e, names)
    case Call(name, args) => name in names || AnyUses(args, names)
    case Combine(_, parts) => AnyUses(parts, names)
  }

  predicate AnyUses(vs: seq<Value>, names: set<string>)
    decreases vs
  {
    vs != [] && (ValueUses(vs[0], names) || AnyUses(vs[1..], names))
  }

  predicate LeafUses(leaf: Leaf, names: set<string>) {
    match leaf
    case Evaluate(value) => ValueUses(value, names)
    case Provide(name, args, values, guard) =>
      name in names || AnyUses(args, names) || AnyUses(values, names) || ValueUses(guard, names)
    case _ => false
  }

  predicate BoundsUse(scoping: Scoping, names: set<string>) { scoping.Realize? && AnyMentions(scoping.extents, names) }

  predicate Uses(s: Stmt, names: set<string>) {
    match s
    case Do(leaf) => LeafUses(leaf, names)
    case LetStmt(_, value, body) => Mentions(value, names) || Uses(body, names)
    case Scoped(scoping, body) => BoundsUse(scoping, names) || Uses(body, names)
    case For(_, min, max, body) => Mentions(min, names) || Mentions(max, names) || Uses(body, names)
    case Block(first, rest) => Uses(first, names) || Uses(rest, names)
    case Fork(first, rest) => Uses(first, names) || Uses(rest, names)
    case IfThenElse(c, thenCase, elseCase) => Mentions(c, names) || Uses(thenCase, names) || Uses(elseCase, names)
    case Atomic(_, body) => Uses(body, names)
    case ProducerConsumer(_, _, body) => Uses(body, names)
    case Acquire(_, count, body) => Mentions(count, names) || Uses(body, names)
    case _ => false
  }

  /** Some use of `f` lies outside every node of `f`. */
  predicate Bare(s: Stmt, f: string, names: set<string>) {
    match s
    case Do(leaf) => LeafUses(leaf, names)
    case LetStmt(_, value, body) => Mentions(value, names) || Bare(body, f, names)
    case Scoped(scoping, body) => BoundsUse(scoping, names) || Bare(body, f, names)
    case For(_, min, max, body) => Mentions(min, names) || Mentions(max, names) || Bare(body, f, names)
    case Block(first, rest) => Bare(first, f, names) || Bare(rest, f, names)
    case Fork(first, rest) => Bare(first, f, names) || Bare(rest, f, names)
    case IfThenElse(c, thenCase, elseCase) => Mentions(c, names) || Bare(thenCase, f, names) || Bare(elseCase, f, names)
    case Atomic(_, body) => Bare(body, f, names)
    case ProducerConsumer(x, _, body) => x != f && Bare(body, f, names)
    case Acquire(_, count, body) => Mentions(count, names) || Bare(body, f, names)
    case _ => false
  }

  // ---- The rewriting ----

  predicate LetUses(let: Stmt, names: set<string>)
    requires IsLet(let)
  {
    let.LetStmt? && Mentions(let.value, names)
  }

  /** A node of `f` around the parts of `body` that need it. */
  function MakeNode(f: string, isProducer: bool, body: Stmt, names: set<string>): Stmt {
    match body
    case LetStmt(x, value, inner) =>
      if Mentions(value, names) then ProducerConsumer(f, isProducer, body)
      else LetStmt(x, value, MakeNode(f, isProducer, inner, names))
    case Scoped(scoping, inner) =>
      if scoping.Realize? || scoping.MakeSemaphore? then Scoped(scoping, MakeNode(f, isProducer, inner, names))
      else ProducerConsumer(f, isProducer, body)
    case Block(first, rest) =>
      if isProducer then ProducerConsumer(f, isProducer, body)
      else
        BlockMake(if Uses(first, names) then MakeNode(f, false, first, names) else first,
                  if rest.Block? || Uses(rest, names) then MakeNode(f, false, rest, names) else rest)
    case ProducerConsumer(x, p, inner) => ProducerConsumer(x, p, MakeNode(f, isProducer, inner, names))
    case _ => ProducerConsumer(f, isProducer, body)
  }

  /** One statement of a block. */
  function Part(f: string, s: Stmt, names: set<string>): Stmt {
    if Uses(s, names) then MakeNode(f, false, s, names) else s
  }

  function Parts(s: Stmt): (r: seq<Stmt>)
    ensures |r| >= 1 && forall i :: 0 <= i < |r| ==> !s.Block? || Size(r[i]) < Size(s)
  {
    if s.Block? then [s.first] + Parts(s.rest) else [s]
  }

  /** Block::make of a list. */
  function Glue(parts: seq<Stmt>): Stmt
    requires parts != []
  {
    if |parts| == 1 then parts[0] else BlockMake(parts[0], Glue(parts[1..]))
  }

  predicate PartsOf(f: string, names: set<string>, parts: seq<Stmt>, whole: seq<Stmt>) {
    |parts| == |whole| && forall i :: 0 <= i < |parts| ==> parts[i] == Part(f, whole[i], names)
  }

  lemma {:induction false} GluedParts(f: string, s: Stmt, names: set<string>, parts: seq<Stmt>)
    requires PartsOf(f, names, parts, Parts(s))
    ensures Glue(parts) == if s.Block? then MakeNode(f, false, s, names) else Part(f, s, names)
  {
    hide MakeNode, Uses, Part, Size;
    if s.Block? {
      var rest := parts[1..];
      assert Parts(s)[1..] == Parts(s.rest);
      assert forall i :: 0 <= i < |rest| ==> rest[i] == parts[i + 1] && Parts(s.rest)[i] == Parts(s)[1..][i];
      GluedParts(f, s.rest, names, rest);
      BlockNode(f, s, names);
    }
  }

  lemma {:induction false} BlockNode(f: string, s: Stmt, names: set<string>)
    requires s.Block?
    ensures MakeNode(f, false, s, names)
         == BlockMake(Part(f, s.first, names), if s.rest.Block? then MakeNode(f, false, s.rest, names) else Part(f, s.rest, names))
  {
  }

  function WrapLets(lets: seq<Stmt>, s: Stmt): Stmt
    requires forall i :: 0 <= i < |lets| ==> IsLet(lets[i])
  {
    if lets == [] then s else WrapLets(lets[..|lets| - 1], WithBody(lets[|lets| - 1], s))
  }

  lemma {:induction false} ThroughLet(f: string, isProducer: bool, let: Stmt, names: set<string>)
    requires IsLet(let) && !LetUses(let, names)
    ensures MakeNode(f, isProducer, let, names) == WithBody(let, MakeNode(f, isProducer, let.body, names))
  {
  }

  method MakeProducerConsumer(f: string, isProducer: bool, body: Stmt, names: set<string>) returns (r: Stmt)
    ensures r == MakeNode(f, isProducer, body, names)
    decreases Size(body), 1
  {
    match body
    case LetStmt(_, _, _) => r := PeelLets(f, isProducer, body, names);
    case Block(_, _) =>
      if isProducer {
        return ProducerConsumer(f, isProducer, body);
      }
      r := VisitParts(f, body, names);
    case ProducerConsumer(x, p, inner) =>
      var b := MakeProducerConsumer(f, isProducer, inner, names);
      r := ProducerConsumer(x, p, b);
    case Scoped(scoping, inner) =>
      if scoping.MakeSemaphore? {
        r := PeelLets(f, isProducer, body, names);
      } else if scoping.Realize? {
        var b := MakeProducerConsumer(f, isProducer, inner, names);
        r := Scoped(scoping, b);
      } else {
        r := ProducerConsumer(f, isProducer, body);
      }
    case _ => r := ProducerConsumer(f, isProducer, body);
  }

  method PeelLets(f: string, isProducer: bool, let: Stmt, names: set<string>) returns (r: Stmt)
    requires IsLet(let)
    ensures r == MakeNode(f, isProducer, let, names)
    decreases Size(let), 0
  {
    hide Mentions, Size;
    var lets: seq<Stmt> := [];
    r := let;
    while IsLet(r) && !LetUses(r, names)
      invariant forall i :: 0 <= i < |lets| ==> IsLet(lets[i])
      invariant MakeNode(f, isProducer, let, names) == WrapLets(lets, MakeNode(f, isProducer, r, names))
      invariant r == let || Size(r) < Size(let)
      decreases r
    {
      ThroughLet(f, isProducer, r, names);
      BodyIsSmaller(r);
      assert (lets + [r])[..|lets|] == lets;
      lets := lets + [r];
      r := r.body;
    }
    if IsLet(r) {
      r := ProducerConsumer(f, isProducer, r);
    } else {
      r := MakeProducerConsumer(f, isProducer, r, names);
    }
    while lets != []
      invariant forall i :: 0 <= i < |lets| ==> IsLet(lets[i])
      invariant MakeNode(f, isProducer, let, names) == WrapLets(lets, r)
    {
      r := WithBody(lets[|lets| - 1], r);
      lets := lets[..|lets| - 1];
    }
  }

  lemma {:induction false} BodyIsSmaller(let: Stmt)
    requires IsLet(let)
    ensures Size(let.body) < Size(let)
  {
  }

  lemma {:induction false} PartIs(f: string, s: Stmt, names: set<string>)
    ensures Part(f, s, names) == if Uses(s, names) then MakeNode(f, false, s, names) else s
  {
    hide Uses, MakeNode;
  }

  method ListParts(block: Stmt) returns (parts: seq<Stmt>)
    ensures parts == Parts(block)
  {
    hide Size;
    parts := [];
    var rest := block;
    while rest.Block?
      invariant Parts(block) == parts + Parts(rest)
      decreases rest
    {
      parts := parts + [rest.first];
      rest := rest.rest;
    }
    parts := parts + [rest];
  }

  method VisitParts(f: string, block: Stmt, names: set<string>) returns (r: Stmt)
    requires block.Block?
    ensures r == MakeNode(f, false, block, names)
    decreases Size(block), 0
  {
    hide Uses, MakeNode, Size, Part;
    var parts := ListParts(block);
    ghost var whole := parts;
    for i := 0 to |parts|
      invariant |parts| == |whole| && whole == Parts(block)
      invariant forall j :: 0 <= j < i ==> parts[j] == Part(f, whole[j], names)
      invariant forall j :: i <= j < |parts| ==> parts[j] == whole[j]
    {
      PartIs(f, parts[i], names);
      if Uses(parts[i], names) {
        var p := MakeProducerConsumer(f, false, parts[i], names);
        parts := parts[i := p];
      }
    }
    GluedParts(f, block, names, parts);
    r := GlueParts(parts);
  }

  method GlueParts(parts: seq<Stmt>) returns (r: Stmt)
    requires parts != []
    ensures r == Glue(parts)
  {
    hide BlockMake;
    var i := |parts| - 1;
    r := parts[i];
    assert parts[i..] == [parts[i]];
    while i > 0
      invariant 0 <= i < |parts| && r == Glue(parts[i..])
    {
      i := i - 1;
      assert parts[i..][1..] == parts[i + 1..];
      r := BlockMake(parts[i], r);
    }
    assert parts[0..] == parts;
  }

  /** The names a Func goes by. */
  type Scopes = string -> set<string>

  /** The whole pass. */
  function Tighten(s: Stmt, scopes: Scopes): Stmt {
    match s
    case LetStmt(x, value, body) => LetStmt(x, value, Tighten(body, scopes))
    case Scoped(scoping, body) => Scoped(scoping, Tighten(body, scopes))
    case For(x, min, max, body) => For(x, min, max, Tighten(body, scopes))
    case Block(first, rest) => BlockMake(Tighten(first, scopes), Tighten(rest, scopes))
    case Fork(first, rest) => ForkMake(Tighten(first, scopes), Tighten(rest, scopes))
    case IfThenElse(c, thenCase, elseCase) => IfThenElse(c, Tighten(thenCase, scopes), Tighten(elseCase, scopes))
    case Atomic(x, body) => Atomic(x, Tighten(body, scopes))
    case ProducerConsumer(f, isProducer, body) => MakeNode(f, isProducer, Tighten(body, scopes), scopes(f))
    case Acquire(sema, n, body) => Acquire(sema, n, Tighten(body, scopes))
    case _ => s
  }

  // ---- Behaviour is unchanged ----

  lemma {:induction false} NodeKeepsActions(f: string, isProducer: bool, body: Stmt, names: set<string>, env: Env)
    ensures Actions(MakeNode(f, isProducer, body, names), env) == Actions(body, env)
    ensures !MakeNode(f, isProducer, body, names).Fork?
  {
    hide Mentions, Uses;
    match body
    case LetStmt(x, value, inner) =>
      NodeKeepsActions(f, isProducer, inner, names, env[x := Eval(value, env)]);
    case Scoped(_, inner) => NodeKeepsActions(f, isProducer, inner, names, env);
    case Block(first, rest) =>
      if !isProducer {
        NodeKeepsActions(f, false, first, names, env);
        NodeKeepsActions(f, false, rest, names, env);
        BlockMakeActions(if Uses(first, names) then MakeNode(f, false, first, names) else first,
                         if rest.Block? || Uses(rest, names) then MakeNode(f, false, rest, names) else rest, env);
      }
    case ProducerConsumer(_, _, inner) => NodeKeepsActions(f, isProducer, inner, names, env);
    case _ =>
  }

  /** Every task performs the same work in the same order as before. */
  lemma {:induction false} TightenKeepsActions(s: Stmt, scopes: Scopes, env: Env)
    ensures Actions(Tighten(s, scopes), env) == Actions(s, env)
    ensures Tighten(s, scopes).Fork? <==> s.Fork?
    ensures s.Fork? ==> Tasks(Tighten(s, scopes), env) == Tasks(s, env)
    decreases s, 0
  {
    hide Mentions, Uses, MakeNode;
    match s
    case LetStmt(x, value, body) => TightenKeepsActions(body, scopes, env[x := Eval(value, env)]);
    case Scoped(_, body) => TightenKeepsActions(body, scopes, env);
    case For(x, min, max, body) => TightenKeepsLoop(x, Eval(min, env), Eval(max, env), body, scopes, env);
    case Block(first, rest) =>
      TightenKeepsActions(first, scopes, env);
      TightenKeepsActions(rest, scopes, env);
      BlockMakeActions(Tighten(first, scopes), Tighten(rest, scopes), env);
    case Fork(first, rest) =>
      TightenKeepsActions(first, scopes, env);
      TightenKeepsActions(rest, scopes, env);
      assert Branch(Tighten(first, scopes), env) == Branch(first, env) && Branch(Tighten(rest, scopes), env) == Branch(rest, env);
      ForkMakeTasks(Tighten(first, scopes), Tighten(rest, scopes), env);
    case IfThenElse(_, thenCase, elseCase) =>
      TightenKeepsActions(thenCase, scopes, env);
      TightenKeepsActions(elseCase, scopes, env);
    case Atomic(_, body) => TightenKeepsActions(body, scopes, env);
    case ProducerConsumer(f, isProducer, body) =>
      TightenKeepsActions(body, scopes, env);
      NodeKeepsActions(f, isProducer, Tighten(body, scopes), scopes(f), env);
    case Acquire(_, _, body) => TightenKeepsActions(body, scopes, env);
    case _ =>
  }

  lemma {:induction false} TightenKeepsLoop(x: string, lo: int, hi: int, body: Stmt, scopes: Scopes, env: Env)
    ensures ActionsLoop(x, lo, hi, Tighten(body, scopes), env) == ActionsLoop(x, lo, hi, body, env)
    decreases body, if hi < lo then 1 else hi - lo + 2
  {
    if lo <= hi {
      TightenKeepsActions(body, scopes, env[x := lo]);
      TightenKeepsLoop(x, lo + 1, hi, body, scopes, env);
    }
  }

  // ---- No use is left outside ----

  /** The bounds of a realization the node is pushed into use the Func. */
  predicate PushedUnderBounds(f: string, isProducer: bool, body: Stmt, names: set<string>) {
    match body
    case LetStmt(_, value, inner) => !Mentions(value, names) && PushedUnderBounds(f, isProducer, inner, names)
    case Scoped(scoping, inner) =>
      (scoping.Realize? || scoping.MakeSemaphore?) && (BoundsUse(scoping, names) || PushedUnderBounds(f, isProducer, inner, names))
    case Block(first, rest) =>
      !isProducer && (PushedUnderBounds(f, false, first, names) || PushedUnderBounds(f, false, rest, names))
    case ProducerConsumer(x, _, inner) => x != f && PushedUnderBounds(f, isProducer, inner, names)
    case _ => false
  }

  /** The same before the body's own nodes are tightened: those of `f` in the way are pushed along. */
  predicate WillBePushed(f: string, isProducer: bool, body: Stmt, names: set<string>)
    decreases body
  {
    match body
    case LetStmt(_, value, inner) => !Mentions(value, names) && WillBePushed(f, isProducer, inner, names)
    case Scoped(scoping, inner) =>
      (scoping.Realize? || scoping.MakeSemaphore?) && (BoundsUse(scoping, names) || WillBePushed(f, isProducer, inner, names))
    case Block(first, rest) => !isProducer && (WillBePushed(f, false, first, names) || WillBePushed(f, false, rest, names))
    case ProducerConsumer(x, p, inner) => WillBePushed(f, isProducer || (x == f && p), inner, names)
    case _ => false
  }

  lemma {:induction false} BlockMakePushed(f: string, isProducer: bool, first: Stmt, rest: Stmt, names: set<string>)
    ensures PushedUnderBounds(f, isProducer, BlockMake(first, rest), names)
         == (!isProducer && (PushedUnderBounds(f, false, first, names) || PushedUnderBounds(f, false, rest, names)))
    ensures !PushedUnderBounds(f, isProducer, ForkMake(first, rest), names)
  {
    hide Mentions, BoundsUse;
    if first.Block? { BlockMakePushed(f, isProducer, first.rest, rest, names); }
  }

  /** A node made inside the body takes nothing out of the way, except that a produce node of `f` keeps its block whole. */
  lemma {:induction false} NodeKeepsPushed(g: string, p: bool, body: Stmt, scope: set<string>, f: string, isProducer: bool, names: set<string>)
    requires g == f ==> scope == names
    ensures PushedUnderBounds(f, isProducer, MakeNode(g, p, body, scope), names)
         == PushedUnderBounds(f, isProducer || (g == f && p), body, names)
  {
    hide Mentions, Uses, BoundsUse, BlockMake;
    match body
    case LetStmt(_, _, inner) => NodeKeepsPushed(g, p, inner, scope, f, isProducer, names);
    case Scoped(_, inner) => NodeKeepsPushed(g, p, inner, scope, f, isProducer, names);
    case Block(first, rest) =>
      if !p {
        NodeKeepsPushed(g, false, first, scope, f, false, names);
        NodeKeepsPushed(g, false, rest, scope, f, false, names);
        BlockMakePushed(f, isProducer, if Uses(first, scope) then MakeNode(g, false, first, scope) else first,
                        if rest.Block? || Uses(rest, scope) then MakeNode(g, false, rest, scope) else rest, names);
      }
    case ProducerConsumer(_, _, inner) => NodeKeepsPushed(g, p, inner, scope, f, isProducer, names);
    case _ =>
  }

  lemma {:induction false} TightenKeepsPushed(f: string, isProducer: bool, body: Stmt, scopes: Scopes)
    ensures PushedUnderBounds(f, isProducer, Tighten(body, scopes), scopes(f)) == WillBePushed(f, isProducer, body, scopes(f))
    decreases body
  {
    hide Mentions, BoundsUse, MakeNode, BlockMake, ForkMake;
    match body
    case LetStmt(_, _, inner) => TightenKeepsPushed(f, isProducer, inner, scopes);
    case Scoped(_, inner) => TightenKeepsPushed(f, isProducer, inner, scopes);
    case Block(first, rest) =>
      TightenKeepsPushed(f, false, first, scopes);
      TightenKeepsPushed(f, false, rest, scopes);
      BlockMakePushed(f, isProducer, Tighten(first, scopes), Tighten(rest, scopes), scopes(f));
    case Fork(first, rest) => BlockMakePushed(f, isProducer, Tighten(first, scopes), Tighten(rest, scopes), scopes(f));
    case ProducerConsumer(g, p, inner) =>
      TightenKeepsPushed(f, isProducer || (g == f && p), inner, scopes);
      NodeKeepsPushed(g, p, Tighten(inner, scopes), scopes(g), f, isProducer, scopes(f));
    case _ =>
  }

  lemma {:induction false} UnusedIsNotPushed(f: string, isProducer: bool, body: Stmt, names: set<string>)
    requires !Uses(body, names)
    ensures !PushedUnderBounds(f, isProducer, body, names) && !Bare(body, f, names)
  {
    hide Mentions;
    match body
    case LetStmt(_, _, inner) => UnusedIsNotPushed(f, isProducer, inner, names);
    case Scoped(_, inner) => UnusedIsNotPushed(f, isProducer, inner, names);
    case For(_, _, _, inner) => UnusedIsNotPushed(f, isProducer, inner, names);
    case Block(first, rest) => UnusedIsNotPushed(f, false, first, names); UnusedIsNotPushed(f, false, rest, names);
    case Fork(first, rest) => UnusedIsNotPushed(f, false, first, names); UnusedIsNotPushed(f, false, rest, names);
    case IfThenElse(_, first, rest) => UnusedIsNotPushed(f, false, first, names); UnusedIsNotPushed(f, false, rest, names);
    case Atomic(_, inner) => UnusedIsNotPushed(f, isProducer, inner, names);
    case ProducerConsumer(_, _, inner) => UnusedIsNotPushed(f, isProducer, inner, names);
    case Acquire(_, _, inner) => UnusedIsNotPushed(f, isProducer, inner, names);
    case _ =>
  }

  lemma {:induction false} BlockMakeBare(first: Stmt, rest: Stmt, f: string, names: set<string>)
    ensures Bare(BlockMake(first, rest), f, names) == (Bare(first, f, names) || Bare(rest, f, names))
  {
    if first.Block? { BlockMakeBare(first.rest, rest, f, names); }
  }

  lemma {:induction false} ForkMakeBare(first: Stmt, rest: Stmt, f: string, names: set<string>)
    ensures Bare(ForkMake(first, rest), f, names) == (Bare(first, f, names) || Bare(rest, f, names))
  {
    if first.Fork? { ForkMakeBare(first.rest, rest, f, names); }
  }

  /** A tightened node still has every use of its Func inside, unless it went below bounds that use it. */
  lemma {:induction false} BareIff(f: string, isProducer: bool, body: Stmt, names: set<string>)
    ensures Bare(MakeNode(f, isProducer, body, names), f, names) <==> PushedUnderBounds(f, isProducer, body, names)
  {
    hide Mentions, Uses, BoundsUse, LeafUses;
    match body
    case LetStmt(_, _, inner) => BareIff(f, isProducer, inner, names);
    case Scoped(_, inner) =>
      BareIff(f, isProducer, inner, names);
      OnlyRealizeHasBounds(body.scoping, names);
    case Block(first, rest) =>
      if !isProducer {
        BareIff(f, false, first, names);
        BareIff(f, false, rest, names);
        if !Uses(first, names) { UnusedIsNotPushed(f, false, first, names); }
        if !Uses(rest, names) { UnusedIsNotPushed(f, false, rest, names); }
        BlockMakeBare(if Uses(first, names) then MakeNode(f, false, first, names) else first,
                      if rest.Block? || Uses(rest, names) then MakeNode(f, false, rest, names) else rest, f, names);
      }
    case ProducerConsumer(_, _, inner) => BareIff(f, isProducer, inner, names);
    case _ =>
  }

  lemma {:induction false} OnlyRealizeHasBounds(scoping: Scoping, names: set<string>)
    ensures BoundsUse(scoping, names) ==> scoping.Realize?
  {
  }

  /** Tightening the nodes of another Func does not matter to `f`. */
  lemma {:induction false} OtherNodesKeepBare(g: string, isProducer: bool, body: Stmt, scope: set<string>, f: string, names: set<string>)
    requires g != f
    ensures Bare(MakeNode(g, isProducer, body, scope), f, names) == Bare(body, f, names)
  {
    hide Mentions, Uses, BoundsUse, LeafUses;
    match body
    case LetStmt(_, _, inner) => OtherNodesKeepBare(g, isProducer, inner, scope, f, names);
    case Scoped(_, inner) => OtherNodesKeepBare(g, isProducer, inner, scope, f, names);
    case Block(first, rest) =>
      if !isProducer {
        OtherNodesKeepBare(g, false, first, scope, f, names);
        OtherNodesKeepBare(g, false, rest, scope, f, names);
        BlockMakeBare(if Uses(first, scope) then MakeNode(g, false, first, scope) else first,
                      if rest.Block? || Uses(rest, scope) then MakeNode(g, false, rest, scope) else rest, f, names);
      }
    case ProducerConsumer(_, _, inner) => OtherNodesKeepBare(g, isProducer, inner, scope, f, names);
    case _ =>
  }

  /** No realization's bounds use `f`. */
  predicate PlainBounds(s: Stmt, names: set<string>) {
    match s
    case LetStmt(_, _, body) => PlainBounds(body, names)
    case Scoped(scoping, body) => !BoundsUse(scoping, names) && PlainBounds(body, names)
    case For(_, _, _, body) => PlainBounds(body, names)
    case Block(first, rest) => PlainBounds(first, names) && PlainBounds(rest, names)
    case Fork(first, rest) => PlainBounds(first, names) && PlainBounds(rest, names)
    case IfThenElse(_, thenCase, elseCase) => PlainBounds(thenCase, names) && PlainBounds(elseCase, names)
    case Atomic(_, body) => PlainBounds(body, names)
    case ProducerConsumer(_, _, body) => PlainBounds(body, names)
    case Acquire(_, _, body) => PlainBounds(body, names)
    case _ => true
  }

  lemma {:induction false} PlainIsNotPushed(f: string, isProducer: bool, body: Stmt, names: set<string>)
    requires PlainBounds(body, names)
    ensures !WillBePushed(f, isProducer, body, names)
    decreases body
  {
    hide Mentions, BoundsUse;
    match body
    case LetStmt(_, _, inner) => PlainIsNotPushed(f, isProducer, inner, names);
    case Scoped(_, inner) => PlainIsNotPushed(f, isProducer, inner, names);
    case Block(first, rest) => PlainIsNotPushed(f, false, first, names); PlainIsNotPushed(f, false, rest, names);
    case ProducerConsumer(x, p, inner) => PlainIsNotPushed(f, isProducer || (x == f && p), inner, names);
    case _ =>
  }

  /** Some node of `f` will be pushed into a realization whose bounds use `f`. */
  predicate SomePushed(s: Stmt, f: string, names: set<string>) {
    match s
    case LetStmt(_, _, body) => SomePushed(body, f, names)
    case Scoped(_, body) => SomePushed(body, f, names)
    case For(_, _, _, body) => SomePushed(body, f, names)
    case Block(first, rest) => SomePushed(first, f, names) || SomePushed(rest, f, names)
    case Fork(first, rest) => SomePushed(first, f, names) || SomePushed(rest, f, names)
    case IfThenElse(_, thenCase, elseCase) => SomePushed(thenCase, f, names) || SomePushed(elseCase, f, names)
    case Atomic(_, body) => SomePushed(body, f, names)
    case ProducerConsumer(g, isProducer, body) =>
      if g == f then WillBePushed(f, isProducer, body, names) else SomePushed(body, f, names)
    case Acquire(_, _, body) => SomePushed(body, f, names)
    case _ => false
  }

  /** Over any program, a use of `f` lies outside its nodes exactly when one did before or a node was pushed
      into a realization whose bounds use `f`. */
  lemma {:induction false} UsesStayInside(s: Stmt, scopes: Scopes, f: string)
    ensures Bare(Tighten(s, scopes), f, scopes(f)) <==> Bare(s, f, scopes(f)) || SomePushed(s, f, scopes(f))
  {
    hide Mentions, BoundsUse, LeafUses, MakeNode, PushedUnderBounds, WillBePushed;
    match s
    case LetStmt(_, _, body) => UsesStayInside(body, scopes, f);
    case Scoped(_, body) => UsesStayInside(body, scopes, f);
    case For(_, _, _, body) => UsesStayInside(body, scopes, f);
    case Block(first, rest) =>
      UsesStayInside(first, scopes, f);
      UsesStayInside(rest, scopes, f);
      BlockMakeBare(Tighten(first, scopes), Tighten(rest, scopes), f, scopes(f));
    case Fork(first, rest) =>
      UsesStayInside(first, scopes, f);
      UsesStayInside(rest, scopes, f);
      ForkMakeBare(Tighten(first, scopes), Tighten(rest, scopes), f, scopes(f));
    case IfThenElse(_, first, rest) => UsesStayInside(first, scopes, f); UsesStayInside(rest, scopes, f);
    case Atomic(_, body) => UsesStayInside(body, scopes, f);
    case ProducerConsumer(g, isProducer, body) =>
      if g == f {
        BareIff(f, isProducer, Tighten(body, scopes), scopes(f));
        TightenKeepsPushed(f, isProducer, body, scopes);
      } else {
        UsesStayInside(body, scopes, f);
        OtherNodesKeepBare(g, isProducer, Tighten(body, scopes), scopes(g), f, scopes(f));
      }
    case Acquire(_, _, body) => UsesStayInside(body, scopes, f);
    case _ =>
  }

  /** Where no realization's bounds use `f`, no use of `f` leaves its nodes. */
  lemma {:induction false} PlainIsNeverPushed(s: Stmt, f: string, names: set<string>)
    requires PlainBounds(s, names)
    ensures !SomePushed(s, f, names)
  {
    hide BoundsUse, WillBePushed;
    match s
    case LetStmt(_, _, body) => PlainIsNeverPushed(body, f, names);
    case Scoped(_, body) => PlainIsNeverPushed(body, f, names);
    case For(_, _, _, body) => PlainIsNeverPushed(body, f, names);
    case Block(first, rest) => PlainIsNeverPushed(first, f, names); PlainIsNeverPushed(rest, f, names);
    case Fork(first, rest) => PlainIsNeverPushed(first, f, names); PlainIsNeverPushed(rest, f, names);
    case IfThenElse(_, first, rest) => PlainIsNeverPushed(first, f, names); PlainIsNeverPushed(rest, f, names);
    case Atomic(_, body) => PlainIsNeverPushed(body, f, names);
    case ProducerConsumer(g, isProducer, body) =>
      if g == f {
        PlainIsNotPushed(f, isProducer, body, names);
      } else {
        PlainIsNeverPushed(body, f, names);
      }
    case Acquire(_, _, body) => PlainIsNeverPushed(body, f, names);
    case _ =>
  }

  /** A realization of `g` with bounds that read the buffer `buffer` of `f` ends up around the node of `f`. */
  lemma {:induction false} BoundsAreLeftOut(f: string, g: string, buffer: string, isProducer: bool, leaf: Leaf, names: set<string>)
    requires buffer in names
    ensures var whole := Scoped(Realize(g, [Variable(buffer)]), Do(leaf));
      var tight := MakeNode(f, isProducer, whole, names);
      && tight == Scoped(Realize(g, [Variable(buffer)]), ProducerConsumer(f, isProducer, Do(leaf)))
      && Bare(tight, f, names) && !Bare(ProducerConsumer(f, isProducer, whole), f, names)
  {
    var extents := [Variable(buffer)];
    assert Mentions(extents[0], names);
    BareIff(f, isProducer, Scoped(Realize(g, extents), Do(leaf)), names);
  }

  // ---- Where the nodes end up ----

  predicate SameNodes(a: Stmt, b: Stmt, f: string, g: string) {
    ProduceNodes(a, g) == ProduceNodes(b, g) && (g != f ==> ConsumeNodes(a, g) == ConsumeNodes(b, g))
  }

  /** Consume nodes of `f` itself may multiply or vanish; all other nodes stay. */
  lemma {:induction false} ConsumerKeepsNodes(f: string, body: Stmt, names: set<string>, g: string)
    ensures SameNodes(MakeNode(f, false, body, names), body, f, g)
  {
    hide Mentions, Uses, BlockMake;
    match body
    case LetStmt(_, _, inner) => ConsumerKeepsNodes(f, inner, names, g);
    case Scoped(_, inner) => ConsumerKeepsNodes(f, inner, names, g);
    case Block(first, rest) =>
      ConsumerKeepsNodes(f, first, names, g);
      ConsumerKeepsNodes(f, rest, names, g);
      NodesOfPair(f, body, names, g);
    case ProducerConsumer(_, _, inner) => ConsumerKeepsNodes(f, inner, names, g);
    case _ =>
  }

  lemma {:induction false} NodesOfPair(f: string, s: Stmt, names: set<string>, g: string)
    requires s.Block? && SameNodes(MakeNode(f, false, s.first, names), s.first, f, g)
    requires SameNodes(MakeNode(f, false, s.rest, names), s.rest, f, g)
    ensures SameNodes(MakeNode(f, false, s, names), s, f, g)
  {
    hide MakeNode, Uses, BlockMake, Run;
    BlockNode(f, s, names);
    BlockMakeSame(Part(f, s.first, names), if s.rest.Block? then MakeNode(f, false, s.rest, names) else Part(f, s.rest, names),
                  g, map[], 0, false);
  }

  lemma {:induction false} ProducerKeepsProduces(f: string, body: Stmt, names: set<string>, g: string)
    ensures ProduceNodes(MakeNode(f, true, body, names), g) == (if g == f then 1 else 0) + ProduceNodes(body, g)
  {
    hide Mentions, BlockMake, Uses;
    match body
    case LetStmt(_, _, inner) => ProducerKeepsProduces(f, inner, names, g);
    case Scoped(_, inner) => ProducerKeepsProduces(f, inner, names, g);
    case ProducerConsumer(_, _, inner) => ProducerKeepsProduces(f, inner, names, g);
    case _ =>
  }

  lemma {:induction false} ProducerKeepsConsumes(f: string, body: Stmt, names: set<string>, g: string)
    ensures ConsumeNodes(MakeNode(f, true, body, names), g) == ConsumeNodes(body, g)
  {
    hide Mentions, BlockMake, Uses;
    match body
    case LetStmt(_, _, inner) => ProducerKeepsConsumes(f, inner, names, g);
    case Scoped(_, inner) => ProducerKeepsConsumes(f, inner, names, g);
    case ProducerConsumer(_, _, inner) => ProducerKeepsConsumes(f, inner, names, g);
    case _ =>
  }

  /** A produce node is moved, never copied or lost, and neither is any other node. */
  lemma {:induction false} ProducerKeepsNodes(f: string, body: Stmt, names: set<string>, g: string)
    ensures ProduceNodes(MakeNode(f, true, body, names), g) == (if g == f then 1 else 0) + ProduceNodes(body, g)
    ensures ConsumeNodes(MakeNode(f, true, body, names), g) == ConsumeNodes(body, g)
  {
    hide MakeNode, ProduceNodes, ConsumeNodes;
    ProducerKeepsProduces(f, body, names, g);
    ProducerKeepsConsumes(f, body, names, g);
  }

  /** Over a whole program every produce node is still there, once. */
  lemma {:induction false} TightenKeepsProduces(s: Stmt, scopes: Scopes, g: string)
    ensures ProduceNodes(Tighten(s, scopes), g) == ProduceNodes(s, g)
  {
    hide MakeNode, BlockMake, ForkMake, Run;
    match s
    case LetStmt(_, _, body) => TightenKeepsProduces(body, scopes, g);
    case Scoped(_, body) => TightenKeepsProduces(body, scopes, g);
    case For(_, _, _, body) => TightenKeepsProduces(body, scopes, g);
    case Block(first, rest) =>
      TightenKeepsProduces(first, scopes, g);
      TightenKeepsProduces(rest, scopes, g);
      BlockMakeSame(Tighten(first, scopes), Tighten(rest, scopes), g, map[], 0, false);
    case Fork(first, rest) =>
      TightenKeepsProduces(first, scopes, g);
      TightenKeepsProduces(rest, scopes, g);
      ForkMakeProduces(Tighten(first, scopes), Tighten(rest, scopes), g);
    case IfThenElse(_, first, rest) => TightenKeepsProduces(first, scopes, g); TightenKeepsProduces(rest, scopes, g);
    case Atomic(_, body) => TightenKeepsProduces(body, scopes, g);
    case ProducerConsumer(f, isProducer, body) =>
      TightenKeepsProduces(body, scopes, g);
      if isProducer {
        ProducerKeepsNodes(f, Tighten(body, scopes), scopes(f), g);
      } else {
        ConsumerKeepsNodes(f, Tighten(body, scopes), scopes(f), g);
      }
    case Acquire(_, _, body) => TightenKeepsProduces(body, scopes, g);
    case _ =>
  }

  lemma {:induction false} ForkMakeProduces(first: Stmt, rest: Stmt, g: string)
    ensures ProduceNodes(ForkMake(first, rest), g) == ProduceNodes(first, g) + ProduceNodes(rest, g)
  {
    if first.Fork? { ForkMakeProduces(first.rest, rest, g); }
  }

  /** What a node of `f` may directly contain once it is tight. */
  predicate TightBody(isProducer: bool, body: Stmt, names: set<string>) {
    match body
    case LetStmt(_, value, _) => Mentions(value, names)
    case Scoped(scoping, _) => !scoping.Realize? && !scoping.MakeSemaphore?
    case Block(_, _) => isProducer
    case ProducerConsumer(_, _, _) => false
    case _ => true
  }

  predicate AllTight(s: Stmt, f: string, names: set<string>) {
    match s
    case LetStmt(_, _, body) => AllTight(body, f, names)
    case Scoped(_, body) => AllTight(body, f, names)
    case For(_, _, _, body) => AllTight(body, f, names)
    case Block(first, rest) => AllTight(first, f, names) && AllTight(rest, f, names)
    case Fork(first, rest) => AllTight(first, f, names) && AllTight(rest, f, names)
    case IfThenElse(_, thenCase, elseCase) => AllTight(thenCase, f, names) && AllTight(elseCase, f, names)
    case Atomic(_, body) => AllTight(body, f, names)
    case ProducerConsumer(x, isProducer, body) => (x == f ==> TightBody(isProducer, body, names)) && AllTight(body, f, names)
    case Acquire(_, _, body) => AllTight(body, f, names)
    case _ => true
  }

  lemma {:induction false} BlockMakeTight(first: Stmt, rest: Stmt, f: string, names: set<string>)
    ensures AllTight(BlockMake(first, rest), f, names) == (AllTight(first, f, names) && AllTight(rest, f, names))
  {
    if first.Block? { BlockMakeTight(first.rest, rest, f, names); }
  }

  lemma {:induction false} NoNodesAreTight(s: Stmt, f: string, names: set<string>)
    requires ConsumeNodes(s, f) == ProduceNodes(s, f) == 0
    ensures AllTight(s, f, names)
  {
    match s
    case LetStmt(_, _, body) => NoNodesAreTight(body, f, names);
    case Scoped(_, body) => NoNodesAreTight(body, f, names);
    case For(_, _, _, body) => NoNodesAreTight(body, f, names);
    case Block(first, rest) => NoNodesAreTight(first, f, names); NoNodesAreTight(rest, f, names);
    case Fork(first, rest) => NoNodesAreTight(first, f, names); NoNodesAreTight(rest, f, names);
    case IfThenElse(_, first, rest) => NoNodesAreTight(first, f, names); NoNodesAreTight(rest, f, names);
    case Atomic(_, body) => NoNodesAreTight(body, f, names);
    case ProducerConsumer(_, _, body) => NoNodesAreTight(body, f, names);
    case Acquire(_, _, body) => NoNodesAreTight(body, f, names);
    case _ =>
  }

  /** No node made from one node can be made smaller the same way: its body is no block, realization,
      node or semaphore, and no let that the Func is not used in. */
  lemma {:induction false} NodesAreTight(f: string, isProducer: bool, body: Stmt, names: set<string>)
    requires ConsumeNodes(body, f) == ProduceNodes(body, f) == 0
    ensures AllTight(MakeNode(f, isProducer, body, names), f, names)
  {
    hide Mentions, Uses;
    NoNodesAreTight(body, f, names);
    match body
    case LetStmt(_, _, inner) => NodesAreTight(f, isProducer, inner, names);
    case Scoped(_, inner) => NodesAreTight(f, isProducer, inner, names);
    case Block(first, rest) =>
      if !isProducer {
        NodesAreTight(f, false, first, names);
        NodesAreTight(f, false, rest, names);
        BlockMakeTight(if Uses(first, names) then MakeNode(f, false, first, names) else first,
                       if rest.Block? || Uses(rest, names) then MakeNode(f, false, rest, names) else rest, f, names);
      }
    case ProducerConsumer(_, _, inner) => NodesAreTight(f, isProducer, inner, names);
    case _ =>
  }
}
