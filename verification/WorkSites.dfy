/** Where the work of a statement lies: every leaf, signal and end of a node, in order, with what is around it. */
module WorkSites {
  import opened AsyncIR

  datatype Frame =
    | InLet(name: string, value: Expr)
    | InScope(scoping: Scoping)
    | InLoop(name: string, min: Expr, max: Expr)
    | InThen(condition: Expr)
    | InElse(condition: Expr)
    | InAtomic(name: string)
    | InNode(name: string, isProducer: bool)
    | Behind(sema: Semaphore, count: Expr)
    | InTask

  datatype Point =
    | Leaf(leaf: Leaf)
    | Signal(sema: Semaphore, amount: nat)
    | EndOf(name: string, isProducer: bool)

  /** A point and the frames around it, the outermost first. */
  datatype Site = Site(path: seq<Frame>, point: Point)

  /** The same sites with one more frame around them. */
  function Under(frame: Frame, t: seq<Site>): seq<Site> {
    if t == [] then [] else [Site([frame] + t[0].path, t[0].point)] + Under(frame, t[1..])
  }

  function Sites(s: Stmt): seq<Site>
    decreases s, 0
  {
    match s
    case NoOp => []
    case Do(leaf) => [Site([], Leaf(leaf))]
    case Release(sema, n) => [Site([], Signal(sema, n))]
    case LetStmt(x, value, body) => Under(InLet(x, value), Sites(body))
    case Scoped(scoping, body) => Under(InScope(scoping), Sites(body))
    case For(x, min, max, body) => Under(InLoop(x, min, max), Sites(body))
    case Block(first, rest) => Sites(first) + Sites(rest)
    case Fork(first, rest) => TaskSites(first) + TaskSites(rest)
    case IfThenElse(c, thenCase, elseCase) => Under(InThen(c), Sites(thenCase)) + Under(InElse(c), Sites(elseCase))
    case Atomic(x, body) => Under(InAtomic(x), Sites(body))
    case ProducerConsumer(x, isProducer, body) =>
      Under(InNode(x, isProducer), Sites(body) + [Site([], EndOf(x, isProducer))])
    case Acquire(sema, n, body) => Under(Behind(sema, n), Sites(body))
  }

  /** The tasks of a nest of forks are side by side. */
  function TaskSites(s: Stmt): seq<Site>
    decreases s, 1
  {
    if s.Fork? then Sites(s) else Under(InTask, Sites(s))
  }

  lemma {:induction false} Join(site: Site, t: seq<Site>, u: seq<Site>)
    ensures [site] + (t + u) == ([site] + t) + u
  {
  }

  lemma {:induction false} UnderConcat(frame: Frame, t: seq<Site>, u: seq<Site>)
    ensures Under(frame, t + u) == Under(frame, t) + Under(frame, u)
  {
    if t == [] {
      assert t + u == u;
    } else {
      UnderConcat(frame, t[1..], u);
      assert (t + u)[0] == t[0] && (t + u)[1..] == t[1..] + u;
      Join(Site([frame] + t[0].path, t[0].point), Under(frame, t[1..]), Under(frame, u));
    }
  }

  lemma {:induction false} UnderOne(frame: Frame, site: Site)
    ensures Under(frame, [site]) == [Site([frame] + site.path, site.point)]
  {
    assert [site][1..] == [];
  }

  lemma {:induction false} UnderFirst(frame: Frame, t: seq<Site>)
    requires t != []
    ensures Under(frame, t) == [Site([frame] + t[0].path, t[0].point)] + Under(frame, t[1..])
    ensures Under(frame, t)[1..] == Under(frame, t[1..])
  {
  }

  lemma {:induction false} UnderRest(frame: Frame, site: Site, t: seq<Site>)
    ensures Under(frame, [site] + t) == [Site([frame] + site.path, site.point)] + Under(frame, t)
  {
    UnderConcat(frame, [site], t);
    UnderOne(frame, site);
  }

  lemma {:induction false} UnderNothing(frame: Frame)
    ensures Under(frame, []) == []
  {
  }

  lemma {:induction false} UnderEmpty(frame: Frame, t: seq<Site>)
    ensures Under(frame, t) == [] <==> t == []
  {
  }

  lemma {:induction false} BlockMakeSites(first: Stmt, rest: Stmt)
    ensures Sites(BlockMake(first, rest)) == Sites(first) + Sites(rest)
  {
    if first.Block? {
      BlockMakeSites(first.rest, rest);
      assert Sites(first.first) + (Sites(first.rest) + Sites(rest)) == (Sites(first.first) + Sites(first.rest)) + Sites(rest);
    }
  }

  // ---- Leaving frames out ----

  function Without(path: seq<Frame>, left: Frame -> bool): seq<Frame> {
    if path == [] then []
    else if left(path[0]) then Without(path[1..], left)
    else [path[0]] + Without(path[1..], left)
  }

  /** The sites with some frames left out of their paths. */
  function Erased(t: seq<Site>, left: Frame -> bool): seq<Site> {
    if t == [] then [] else [Site(Without(t[0].path, left), t[0].point)] + Erased(t[1..], left)
  }

  lemma {:induction false} ErasedConcat(t: seq<Site>, u: seq<Site>, left: Frame -> bool)
    ensures Erased(t + u, left) == Erased(t, left) + Erased(u, left)
  {
    hide Without;
    if t == [] {
      assert t + u == u;
    } else {
      ErasedConcat(t[1..], u, left);
      assert (t + u)[0] == t[0] && (t + u)[1..] == t[1..] + u;
      Join(Site(Without(t[0].path, left), t[0].point), Erased(t[1..], left), Erased(u, left));
    }
  }

  lemma {:induction false} ErasedUnder(frame: Frame, t: seq<Site>, left: Frame -> bool)
    ensures Erased(Under(frame, t), left) == if left(frame) then Erased(t, left) else Under(frame, Erased(t, left))
  {
    if t != [] {
      var site, rest := Site(Without(t[0].path, left), t[0].point), Erased(t[1..], left);
      var first := Site([frame] + t[0].path, t[0].point);
      ErasedUnder(frame, t[1..], left);
      ErasedFirst(first, Under(frame, t[1..]), left);
      assert Under(frame, t) == [first] + Under(frame, t[1..]);
      WithoutFirst(frame, t[0].path, left);
      if !left(frame) {
        UnderConcat(frame, [site], rest);
        UnderOne(frame, site);
      }
    }
  }

  lemma {:induction false} WithoutFirst(frame: Frame, path: seq<Frame>, left: Frame -> bool)
    ensures Without([frame] + path, left) == if left(frame) then Without(path, left) else [frame] + Without(path, left)
  {
    assert ([frame] + path)[1..] == path;
  }

  lemma {:induction false} ErasedFirst(site: Site, t: seq<Site>, left: Frame -> bool)
    ensures Erased([site] + t, left) == [Site(Without(site.path, left), site.point)] + Erased(t, left)
  {
    assert ([site] + t)[1..] == t;
  }

  /** One more frame around the sites, unless it is left out. */
  function Around(frame: Frame, t: seq<Site>, left: Frame -> bool): seq<Site> { if left(frame) then t else Under(frame, t) }

  /** The sites of `s`, with some frames left out of their paths. */
  function Seen(s: Stmt, left: Frame -> bool): seq<Site> { Erased(Sites(s), left) }

  function SeenTask(s: Stmt, left: Frame -> bool): seq<Site> { if s.Fork? then Seen(s, left) else Around(InTask, Seen(s, left), left) }

  lemma {:induction false} SeenTaskIs(s: Stmt, left: Frame -> bool)
    ensures SeenTask(s, left) == Erased(TaskSites(s), left)
  {
    if !s.Fork? { ErasedUnder(InTask, Sites(s), left); }
  }

  lemma {:induction false} SeenNode(x: string, isProducer: bool, body: Stmt, left: Frame -> bool)
    ensures Seen(ProducerConsumer(x, isProducer, body), left)
         == Around(InNode(x, isProducer), Seen(body, left) + [Site([], EndOf(x, isProducer))], left)
  {
    var end := [Site([], EndOf(x, isProducer))];
    ErasedUnder(InNode(x, isProducer), Sites(body) + end, left);
    ErasedConcat(Sites(body), end, left);
    ErasedFirst(end[0], [], left);
    assert end == [end[0]] + [] && Erased([], left) == [];
  }

  lemma {:induction false} SeenIf(c: Expr, thenCase: Stmt, elseCase: Stmt, left: Frame -> bool)
    ensures Seen(IfThenElse(c, thenCase, elseCase), left)
         == Around(InThen(c), Seen(thenCase, left), left) + Around(InElse(c), Seen(elseCase, left), left)
  {
    ErasedConcat(Under(InThen(c), Sites(thenCase)), Under(InElse(c), Sites(elseCase)), left);
    ErasedUnder(InThen(c), Sites(thenCase), left);
    ErasedUnder(InElse(c), Sites(elseCase), left);
  }

  /** The frame that a statement with one body puts around it. */
  function FrameOf(s: Stmt): Frame
    requires s.LetStmt? || s.Scoped? || s.For? || s.Atomic? || s.Acquire?
  {
    match s
    case LetStmt(x, value, _) => InLet(x, value)
    case Scoped(scoping, _) => InScope(scoping)
    case For(x, min, max, _) => InLoop(x, min, max)
    case Atomic(x, _) => InAtomic(x)
    case Acquire(sema, n, _) => Behind(sema, n)
  }

  /** What is seen of a statement, by what is seen of its parts. */
  lemma {:induction false} SeenStep(s: Stmt, left: Frame -> bool)
    ensures match s
      case NoOp => Seen(s, left) == []
      case Do(leaf) => Seen(s, left) == [Site([], Leaf(leaf))]
      case Release(sema, n) => Seen(s, left) == [Site([], Signal(sema, n))]
      case Block(first, rest) => Seen(s, left) == Seen(first, left) + Seen(rest, left)
      case Fork(first, rest) => Seen(s, left) == SeenTask(first, left) + SeenTask(rest, left)
      case IfThenElse(c, thenCase, elseCase) =>
        Seen(s, left) == Around(InThen(c), Seen(thenCase, left), left) + Around(InElse(c), Seen(elseCase, left), left)
      case ProducerConsumer(x, isProducer, body) =>
        Seen(s, left) == Around(InNode(x, isProducer), Seen(body, left) + [Site([], EndOf(x, isProducer))], left)
      case _ => Seen(s, left) == Around(FrameOf(s), Seen(s.body, left), left)
  {
    match s
    case NoOp =>
    case Do(leaf) => SeenOne(s, Leaf(leaf), left);
    case Release(sema, n) => SeenOne(s, Signal(sema, n), left);
    case Block(first, rest) => ErasedConcat(Sites(first), Sites(rest), left);
    case Fork(first, rest) =>
      ErasedConcat(TaskSites(first), TaskSites(rest), left);
      SeenTaskIs(first, left);
      SeenTaskIs(rest, left);
    case IfThenElse(c, thenCase, elseCase) => SeenIf(c, thenCase, elseCase, left);
    case ProducerConsumer(x, isProducer, body) => SeenNode(x, isProducer, body, left);
    case _ => ErasedUnder(FrameOf(s), Sites(s.body), left);
  }

  lemma {:induction false} SeenOne(s: Stmt, point: Point, left: Frame -> bool)
    requires Sites(s) == [Site([], point)]
    ensures Seen(s, left) == [Site([], point)]
  {
    ErasedFirst(Site([], point), [], left);
    assert Sites(s) == [Site([], point)] + [];
    assert Erased([], left) == [];
  }

  lemma {:induction false} BlockMakeSeen(first: Stmt, rest: Stmt, left: Frame -> bool)
    ensures Seen(BlockMake(first, rest), left) == Seen(first, left) + Seen(rest, left)
  {
    BlockMakeSites(first, rest);
    ErasedConcat(Sites(first), Sites(rest), left);
  }
}
