/** Tightening moves the nodes and nothing else. */
module TightPlaces {
  import opened AsyncIR
  import opened ExpandAcquire
  import opened TightenNodes
  import opened WorkSites

  predicate IsNodeFrame(frame: Frame) { frame.InNode? }

  /** The leaves and signals among the sites. */
  function Work(t: seq<Site>): seq<Site> {
    if t == [] then [] else if t[0].point.EndOf? then Work(t[1..]) else [t[0]] + Work(t[1..])
  }

  lemma {:induction false} WorkConcat(t: seq<Site>, u: seq<Site>)
    ensures Work(t + u) == Work(t) + Work(u)
  {
    if t == [] {
      assert t + u == u;
    } else {
      WorkConcat(t[1..], u);
      assert (t + u)[0] == t[0] && (t + u)[1..] == t[1..] + u;
      Join(t[0], Work(t[1..]), Work(u));
    }
  }

  lemma {:induction false} WorkOne(site: Site)
    requires !site.point.EndOf?
    ensures Work([site]) == [site]
  {
    assert [site][1..] == [];
    assert [site] + Work([]) == [site];
  }

  lemma {:induction false} WorkUnder(frame: Frame, t: seq<Site>)
    ensures Work(Under(frame, t)) == Under(frame, Work(t))
  {
    if t != [] {
      WorkUnder(frame, t[1..]);
      assert Under(frame, t)[1..] == Under(frame, t[1..]);
      if !t[0].point.EndOf? {
        UnderConcat(frame, [t[0]], Work(t[1..]));
        UnderOne(frame, t[0]);
      }
    }
  }

  /** All leaves and signals of `s` and what is around them, nodes apart. */
  function WorkOf(s: Stmt): seq<Site> { Work(Seen(s, IsNodeFrame)) }

  function WorkOfTask(s: Stmt): seq<Site> { Work(SeenTask(s, IsNodeFrame)) }

  lemma {:induction false} WorkStep(s: Stmt)
    ensures match s
      case NoOp => WorkOf(s) == []
      case Do(leaf) => WorkOf(s) == [Site([], Leaf(leaf))]
      case Release(sema, n) => WorkOf(s) == [Site([], Signal(sema, n))]
      case Block(first, rest) => WorkOf(s) == WorkOf(first) + WorkOf(rest)
      case Fork(first, rest) => WorkOf(s) == WorkOfTask(first) + WorkOfTask(rest)
      case IfThenElse(c, thenCase, elseCase) => WorkOf(s) == Under(InThen(c), WorkOf(thenCase)) + Under(InElse(c), WorkOf(elseCase))
      case ProducerConsumer(_, _, body) => WorkOf(s) == WorkOf(body)
      case _ => WorkOf(s) == Under(FrameOf(s), WorkOf(s.body))
  {
    hide Seen;
    SeenStep(s, IsNodeFrame);
    match s
    case NoOp =>
    case Do(leaf) => WorkOne(Site([], Leaf(leaf)));
    case Release(sema, n) => WorkOne(Site([], Signal(sema, n)));
    case Block(first, rest) => WorkConcat(Seen(first, IsNodeFrame), Seen(rest, IsNodeFrame));
    case Fork(first, rest) => WorkConcat(SeenTask(first, IsNodeFrame), SeenTask(rest, IsNodeFrame));
    case IfThenElse(c, thenCase, elseCase) =>
      WorkConcat(Under(InThen(c), Seen(thenCase, IsNodeFrame)), Under(InElse(c), Seen(elseCase, IsNodeFrame)));
      WorkUnder(InThen(c), Seen(thenCase, IsNodeFrame));
      WorkUnder(InElse(c), Seen(elseCase, IsNodeFrame));
    case ProducerConsumer(x, isProducer, body) => WorkConcat(Seen(body, IsNodeFrame), [Site([], EndOf(x, isProducer))]);
    case _ => WorkUnder(FrameOf(s), Seen(s.body, IsNodeFrame));
  }

  lemma {:induction false} BlockMakeWork(first: Stmt, rest: Stmt)
    ensures WorkOf(BlockMake(first, rest)) == WorkOf(first) + WorkOf(rest)
  {
    BlockMakeSeen(first, rest, IsNodeFrame);
    WorkConcat(Seen(first, IsNodeFrame), Seen(rest, IsNodeFrame));
  }

  lemma {:induction false} TaskWork(s: Stmt)
    ensures WorkOfTask(s) == if s.Fork? then WorkOf(s) else Under(InTask, WorkOf(s))
  {
    if !s.Fork? { WorkUnder(InTask, Seen(s, IsNodeFrame)); }
  }

  lemma {:induction false} ForkMakeWork(first: Stmt, rest: Stmt)
    ensures WorkOf(ForkMake(first, rest)) == WorkOfTask(first) + WorkOfTask(rest) && ForkMake(first, rest).Fork?
  {
    hide WorkOf, WorkOfTask;
    WorkStep(ForkMake(first, rest));
    if first.Fork? {
      ForkMakeWork(first.rest, rest);
      WorkStep(first);
      TaskWork(first);
      TaskWork(ForkMake(first.rest, rest));
      assert WorkOfTask(first.first) + (WorkOfTask(first.rest) + WorkOfTask(rest))
          == (WorkOfTask(first.first) + WorkOfTask(first.rest)) + WorkOfTask(rest);
    }
  }

  lemma {:induction false} NodeKeepsWork(f: string, isProducer: bool, body: Stmt, names: set<string>)
    ensures WorkOf(MakeNode(f, isProducer, body, names)) == WorkOf(body) && !MakeNode(f, isProducer, body, names).Fork?
  {
    hide WorkOf, Mentions, Uses, BlockMake;
    WorkStep(body);
    WorkStep(MakeNode(f, isProducer, body, names));
    match body
    case LetStmt(_, _, inner) => NodeKeepsWork(f, isProducer, inner, names);
    case Scoped(_, inner) => NodeKeepsWork(f, isProducer, inner, names);
    case Block(first, rest) =>
      if !isProducer {
        NodeKeepsWork(f, false, first, names);
        NodeKeepsWork(f, false, rest, names);
        var p := if Uses(first, names) then MakeNode(f, false, first, names) else first;
        var q := if rest.Block? || Uses(rest, names) then MakeNode(f, false, rest, names) else rest;
        BlockMakeWork(p, q);
        MadeBlock(p, q);
      }
    case ProducerConsumer(_, _, inner) => NodeKeepsWork(f, isProducer, inner, names);
    case _ =>
  }

  lemma {:induction false} MadeBlock(first: Stmt, rest: Stmt)
    ensures BlockMake(first, rest).Block?
  {
  }

  /** Every leaf and signal stays in order and inside the same lets, storage, loops, conditions, acquires and
      tasks. */
  lemma {:induction false} TightenKeepsWork(s: Stmt, scopes: Scopes)
    ensures WorkOf(Tighten(s, scopes)) == WorkOf(s) && (Tighten(s, scopes).Fork? <==> s.Fork?)
  {
    hide WorkOf, WorkOfTask, MakeNode, BlockMake, ForkMake;
    WorkStep(s);
    match s
    case LetStmt(_, _, body) => TightenKeepsWork(body, scopes); WorkStep(Tighten(s, scopes));
    case Scoped(_, body) => TightenKeepsWork(body, scopes); WorkStep(Tighten(s, scopes));
    case For(_, _, _, body) => TightenKeepsWork(body, scopes); WorkStep(Tighten(s, scopes));
    case Block(first, rest) =>
      TightenKeepsWork(first, scopes);
      TightenKeepsWork(rest, scopes);
      BlockMakeWork(Tighten(first, scopes), Tighten(rest, scopes));
      MadeBlock(Tighten(first, scopes), Tighten(rest, scopes));
    case Fork(first, rest) =>
      TightenKeepsWork(first, scopes);
      TightenKeepsWork(rest, scopes);
      ForkMakeWork(Tighten(first, scopes), Tighten(rest, scopes));
      TaskWork(first); TaskWork(rest); TaskWork(Tighten(first, scopes)); TaskWork(Tighten(rest, scopes));
    case IfThenElse(_, thenCase, elseCase) =>
      TightenKeepsWork(thenCase, scopes);
      TightenKeepsWork(elseCase, scopes);
      WorkStep(Tighten(s, scopes));
    case Atomic(_, body) => TightenKeepsWork(body, scopes); WorkStep(Tighten(s, scopes));
    case ProducerConsumer(f, isProducer, body) =>
      TightenKeepsWork(body, scopes);
      NodeKeepsWork(f, isProducer, Tighten(body, scopes), scopes(f));
    case Acquire(_, _, body) => TightenKeepsWork(body, scopes); WorkStep(Tighten(s, scopes));
    case _ =>
  }

  // ---- Parts that do not use the Func ----

  /** No part of a block has a node of `f` around or inside it unless it uses `f`. */
  predicate NoneIdle(s: Stmt, f: string, names: set<string>) {
    match s
    case Block(first, rest) =>
      && (ConsumeNodes(first, f) > 0 ==> Uses(first, names)) && (ConsumeNodes(rest, f) > 0 ==> Uses(rest, names))
      && NoneIdle(first, f, names) && NoneIdle(rest, f, names)
    case LetStmt(_, _, body) => NoneIdle(body, f, names)
    case Scoped(_, body) => NoneIdle(body, f, names)
    case For(_, _, _, body) => NoneIdle(body, f, names)
    case Fork(first, rest) => NoneIdle(first, f, names) && NoneIdle(rest, f, names)
    case IfThenElse(_, thenCase, elseCase) => NoneIdle(thenCase, f, names) && NoneIdle(elseCase, f, names)
    case Atomic(_, body) => NoneIdle(body, f, names)
    case ProducerConsumer(_, _, body) => NoneIdle(body, f, names)
    case Acquire(_, _, body) => NoneIdle(body, f, names)
    case _ => true
  }

  lemma {:induction false} WithoutNodes(s: Stmt, f: string, names: set<string>)
    requires ConsumeNodes(s, f) == 0
    ensures NoneIdle(s, f, names)
  {
    hide Uses;
    match s
    case Block(first, rest) => WithoutNodes(first, f, names); WithoutNodes(rest, f, names);
    case LetStmt(_, _, body) => WithoutNodes(body, f, names);
    case Scoped(_, body) => WithoutNodes(body, f, names);
    case For(_, _, _, body) => WithoutNodes(body, f, names);
    case Fork(first, rest) => WithoutNodes(first, f, names); WithoutNodes(rest, f, names);
    case IfThenElse(_, thenCase, elseCase) => WithoutNodes(thenCase, f, names); WithoutNodes(elseCase, f, names);
    case Atomic(_, body) => WithoutNodes(body, f, names);
    case ProducerConsumer(_, _, body) => WithoutNodes(body, f, names);
    case Acquire(_, _, body) => WithoutNodes(body, f, names);
    case _ =>
  }

  lemma {:induction false} BlockMakeUses(first: Stmt, rest: Stmt, names: set<string>)
    ensures Uses(BlockMake(first, rest), names) == (Uses(first, names) || Uses(rest, names))
  {
    if first.Block? { BlockMakeUses(first.rest, rest, names); }
  }

  lemma {:induction false} BlockMakeIdle(first: Stmt, rest: Stmt, f: string, names: set<string>)
    requires NoneIdle(first, f, names) && NoneIdle(rest, f, names)
    requires (ConsumeNodes(first, f) > 0 ==> Uses(first, names)) && (ConsumeNodes(rest, f) > 0 ==> Uses(rest, names))
    ensures NoneIdle(BlockMake(first, rest), f, names)
  {
    hide Uses;
    if first.Block? {
      BlockMakeIdle(first.rest, rest, f, names);
      BlockMakeUses(first.rest, rest, names);
      BlockMakeNodes(first.rest, rest, f);
    }
  }

  lemma {:induction false} NodeKeepsUses(f: string, isProducer: bool, body: Stmt, names: set<string>)
    ensures Uses(MakeNode(f, isProducer, body, names), names) == Uses(body, names)
  {
    hide Mentions, BoundsUse, LeafUses, BlockMake;
    match body
    case LetStmt(_, _, inner) => NodeKeepsUses(f, isProducer, inner, names);
    case Scoped(_, inner) => NodeKeepsUses(f, isProducer, inner, names);
    case Block(first, rest) =>
      if !isProducer {
        NodeKeepsUses(f, false, first, names);
        NodeKeepsUses(f, false, rest, names);
        BlockMakeUses(if Uses(first, names) then MakeNode(f, false, first, names) else first,
                      if rest.Block? || Uses(rest, names) then MakeNode(f, false, rest, names) else rest, names);
      }
    case ProducerConsumer(_, _, inner) => NodeKeepsUses(f, isProducer, inner, names);
    case _ =>
  }

  lemma {:induction false} BlockUses(first: Stmt, rest: Stmt, names: set<string>)
    ensures Uses(Block(first, rest), names) == (Uses(first, names) || Uses(rest, names))
  {
  }

  /** Of a block's parts only those that use the Func come to lie in its consume node or have one inside. */
  lemma {:induction false} IdlePartsAreLeft(f: string, body: Stmt, names: set<string>)
    requires ConsumeNodes(body, f) == 0
    ensures NoneIdle(MakeNode(f, false, body, names), f, names)
    ensures body.Block? && !Uses(body, names) ==> ConsumeNodes(MakeNode(f, false, body, names), f) == 0
  {
    hide Mentions, Uses, BlockMake;
    WithoutNodes(body, f, names);
    match body
    case LetStmt(_, _, inner) => IdlePartsAreLeft(f, inner, names);
    case Scoped(_, inner) => IdlePartsAreLeft(f, inner, names);
    case Block(first, rest) =>
      IdlePartsAreLeft(f, first, names);
      IdlePartsAreLeft(f, rest, names);
      NodeKeepsUses(f, false, first, names);
      NodeKeepsUses(f, false, rest, names);
      BlockUses(first, rest, names);
      var p := if Uses(first, names) then MakeNode(f, false, first, names) else first;
      var q := if rest.Block? || Uses(rest, names) then MakeNode(f, false, rest, names) else rest;
      BlockMakeIdle(p, q, f, names);
      BlockMakeNodes(p, q, f);
    case ProducerConsumer(_, _, inner) => IdlePartsAreLeft(f, inner, names);
    case _ =>
  }
}
