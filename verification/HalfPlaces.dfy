/** Which of a body's sites each half of the fork keeps, and inside what. */
module HalfPlaces {
  import opened AsyncIR
  import opened ForkInput
  import opened WorkSites

  // ---- The producer half ----

  /** The path leads into the produce node of `f`. */
  predicate InProduce(path: seq<Frame>, f: string) { path != [] && (path[0] == InNode(f, true) || InProduce(path[1..], f)) }

  /** The path without the produce nodes of other Funcs around the one of `f`. */
  function ProducerPath(path: seq<Frame>, f: string): seq<Frame> {
    if path == [] || path[0] == InNode(f, true) then path
    else if path[0].InNode? && path[0].isProducer then ProducerPath(path[1..], f)
    else [path[0]] + ProducerPath(path[1..], f)
  }

  predicate IsRelease(point: Point, semas: seq<Semaphore>) { point.Signal? && point.sema in semas }

  /** The producer keeps what is inside its produce node, and its counters. */
  predicate KeptByProducer(site: Site, f: string) {
    InProduce(site.path, f) || (site.point.Leaf? && site.point.leaf.Store? && IsProducerCounter(site.point.leaf.buffer, f))
  }

  /** What the producer is to keep of the body, but for signals of its own semaphores. */
  function ProducerSites(t: seq<Site>, f: string, semas: seq<Semaphore>): seq<Site> {
    if t == [] then []
    else if KeptByProducer(t[0], f) && !IsRelease(t[0].point, semas)
    then [Site(ProducerPath(t[0].path, f), t[0].point)] + ProducerSites(t[1..], f, semas)
    else ProducerSites(t[1..], f, semas)
  }

  /** The sites of the producer half, but for the releases it adds and the ends of nodes around the produce node. */
  function Trimmed(t: seq<Site>, f: string, semas: seq<Semaphore>): seq<Site> {
    if t == [] then []
    else if IsRelease(t[0].point, semas) || (t[0].point.EndOf? && !InProduce(t[0].path, f)) then Trimmed(t[1..], f, semas)
    else [t[0]] + Trimmed(t[1..], f, semas)
  }

  lemma {:induction false} ProducerSitesConcat(t: seq<Site>, u: seq<Site>, f: string, semas: seq<Semaphore>)
    ensures ProducerSites(t + u, f, semas) == ProducerSites(t, f, semas) + ProducerSites(u, f, semas)
  {
    hide KeptByProducer, ProducerPath, IsRelease;
    if t == [] {
      assert t + u == u;
    } else {
      ProducerSitesConcat(t[1..], u, f, semas);
      assert (t + u)[0] == t[0] && (t + u)[1..] == t[1..] + u;
      Join(Site(ProducerPath(t[0].path, f), t[0].point), ProducerSites(t[1..], f, semas), ProducerSites(u, f, semas));
    }
  }

  lemma {:induction false} TrimmedConcat(t: seq<Site>, u: seq<Site>, f: string, semas: seq<Semaphore>)
    ensures Trimmed(t + u, f, semas) == Trimmed(t, f, semas) + Trimmed(u, f, semas)
  {
    hide InProduce, IsRelease;
    if t == [] {
      assert t + u == u;
    } else {
      TrimmedConcat(t[1..], u, f, semas);
      assert (t + u)[0] == t[0] && (t + u)[1..] == t[1..] + u;
      Join(t[0], Trimmed(t[1..], f, semas), Trimmed(u, f, semas));
    }
  }

  lemma {:induction false} PathFirst(frame: Frame, path: seq<Frame>, f: string)
    ensures InProduce([frame] + path, f) <==> frame == InNode(f, true) || InProduce(path, f)
    ensures ProducerPath([frame] + path, f)
         == if frame == InNode(f, true) then [frame] + path
            else if frame.InNode? && frame.isProducer then ProducerPath(path, f)
            else [frame] + ProducerPath(path, f)
  {
    assert ([frame] + path)[1..] == path;
  }

  /** A frame around the sites stays around what the producer keeps of them, unless it is a produce node. */
  lemma {:induction false} ProducerSitesUnder(frame: Frame, t: seq<Site>, f: string, semas: seq<Semaphore>)
    requires frame != InNode(f, true)
    ensures ProducerSites(Under(frame, t), f, semas)
         == if frame.InNode? && frame.isProducer then ProducerSites(t, f, semas) else Under(frame, ProducerSites(t, f, semas))
  {
    hide InProduce, ProducerPath, IsRelease;
    if t != [] {
      ProducerSitesUnder(frame, t[1..], f, semas);
      UnderFirst(frame, t);
      PathFirst(frame, t[0].path, f);
      UnderRest(frame, Site(ProducerPath(t[0].path, f), t[0].point), ProducerSites(t[1..], f, semas));
    }
  }

  lemma {:induction false} TrimmedUnder(frame: Frame, t: seq<Site>, f: string, semas: seq<Semaphore>)
    requires frame != InNode(f, true)
    ensures Trimmed(Under(frame, t), f, semas) == Under(frame, Trimmed(t, f, semas))
  {
    hide InProduce, IsRelease;
    if t != [] {
      TrimmedUnder(frame, t[1..], f, semas);
      UnderFirst(frame, t);
      PathFirst(frame, t[0].path, f);
      UnderRest(frame, t[0], Trimmed(t[1..], f, semas));
    }
  }

  /** The sites but for signals of the given semaphores. */
  function Unsignalled(t: seq<Site>, semas: seq<Semaphore>): seq<Site> {
    if t == [] then [] else if IsRelease(t[0].point, semas) then Unsignalled(t[1..], semas) else [t[0]] + Unsignalled(t[1..], semas)
  }

  lemma {:induction false} UnsignalledConcat(t: seq<Site>, u: seq<Site>, semas: seq<Semaphore>)
    ensures Unsignalled(t + u, semas) == Unsignalled(t, semas) + Unsignalled(u, semas)
  {
    hide IsRelease;
    if t == [] {
      assert t + u == u;
    } else {
      UnsignalledConcat(t[1..], u, semas);
      assert (t + u)[0] == t[0] && (t + u)[1..] == t[1..] + u;
      Join(t[0], Unsignalled(t[1..], semas), Unsignalled(u, semas));
    }
  }

  /** In its own produce node the producer keeps everything. */
  lemma {:induction false} InOwnNode(t: seq<Site>, f: string, semas: seq<Semaphore>)
    ensures ProducerSites(Under(InNode(f, true), t), f, semas) == Under(InNode(f, true), Unsignalled(t, semas))
    ensures Trimmed(Under(InNode(f, true), t), f, semas) == Under(InNode(f, true), Unsignalled(t, semas))
  {
    hide InProduce, ProducerPath, IsRelease;
    if t != [] {
      InOwnNode(t[1..], f, semas);
      UnderFirst(InNode(f, true), t);
      PathFirst(InNode(f, true), t[0].path, f);
      UnderRest(InNode(f, true), t[0], Unsignalled(t[1..], semas));
    }
  }

  /** The producer keeps nothing of a plain statement. */
  lemma {:induction false} NothingKept(s: Stmt, f: string, semas: seq<Semaphore>)
    requires Plain(s, f)
    ensures ProducerSites(Sites(s), f, semas) == []
    decreases s, 0
  {
    hide Under;
    match s
    case NoOp =>
    case Do(leaf) => OneSite(Site([], Leaf(leaf)), f, semas);
    case Release(sema, n) => OneSite(Site([], Signal(sema, n)), f, semas);
    case LetStmt(x, value, body) => NothingUnder(InLet(x, value), body, f, semas);
    case Scoped(scoping, body) => NothingUnder(InScope(scoping), body, f, semas);
    case For(x, min, max, body) => NothingUnder(InLoop(x, min, max), body, f, semas);
    case Block(first, rest) =>
      NothingKept(first, f, semas);
      NothingKept(rest, f, semas);
      ProducerSitesConcat(Sites(first), Sites(rest), f, semas);
    case IfThenElse(c, thenCase, elseCase) =>
      NothingUnder(InThen(c), thenCase, f, semas);
      NothingUnder(InElse(c), elseCase, f, semas);
      ProducerSitesConcat(Under(InThen(c), Sites(thenCase)), Under(InElse(c), Sites(elseCase)), f, semas);
    case Atomic(x, body) => NothingUnder(InAtomic(x), body, f, semas);
    case ProducerConsumer(x, isProducer, body) =>
      NothingKept(body, f, semas);
      NodeSites(x, isProducer, body, f, semas);
      UnderNothing(InNode(x, isProducer));
    case _ =>
  }

  lemma {:induction false} NothingUnder(frame: Frame, s: Stmt, f: string, semas: seq<Semaphore>)
    requires Plain(s, f) && frame != InNode(f, true)
    ensures ProducerSites(Under(frame, Sites(s)), f, semas) == []
    decreases s, 1
  {
    hide Plain, Sites;
    NothingKept(s, f, semas);
    ProducerSitesUnder(frame, Sites(s), f, semas);
  }

  lemma {:induction false} OneSite(site: Site, f: string, semas: seq<Semaphore>)
    requires site.path == []
    ensures ProducerSites([site], f, semas) == if KeptByProducer(site, f) && !IsRelease(site.point, semas) then [site] else []
  {
    hide IsRelease;
    assert [site][1..] == [];
  }

  /** The end of a node around is not kept, so a node of another Func keeps what its body does. */
  lemma {:induction false} NodeSites(x: string, isProducer: bool, body: Stmt, f: string, semas: seq<Semaphore>)
    requires x != f || !isProducer
    ensures ProducerSites(Sites(ProducerConsumer(x, isProducer, body)), f, semas)
         == var t := ProducerSites(Sites(body), f, semas); if isProducer then t else Under(InNode(x, isProducer), t)
    ensures Trimmed(Sites(ProducerConsumer(x, isProducer, body)), f, semas)
         == Under(InNode(x, isProducer), Trimmed(Sites(body), f, semas))
  {
    hide Under, ProducerSites, Trimmed, Sites;
    var end := [Site([], EndOf(x, isProducer))];
    EndIsTrimmed(x, isProducer, f, semas);
    NodeSitesAre(x, isProducer, body);
    ProducerSitesConcat(Sites(body), end, f, semas);
    TrimmedConcat(Sites(body), end, f, semas);
    ProducerSitesUnder(InNode(x, isProducer), Sites(body) + end, f, semas);
    TrimmedUnder(InNode(x, isProducer), Sites(body) + end, f, semas);
    var t, u := ProducerSites(Sites(body), f, semas), Trimmed(Sites(body), f, semas);
    assert t + [] == t && u + [] == u;
  }

  lemma {:induction false} EndIsTrimmed(x: string, isProducer: bool, f: string, semas: seq<Semaphore>)
    ensures ProducerSites([Site([], EndOf(x, isProducer))], f, semas) == [] && Trimmed([Site([], EndOf(x, isProducer))], f, semas) == []
  {
    assert [Site([], EndOf(x, isProducer))][1..] == [];
  }

  lemma {:induction false} NodeSitesAre(x: string, isProducer: bool, body: Stmt)
    ensures Sites(ProducerConsumer(x, isProducer, body)) == Under(InNode(x, isProducer), Sites(body) + [Site([], EndOf(x, isProducer))])
  {
  }

  /** Something of `s` is left for the producer. */
  predicate KeepsAny(s: Stmt, f: string, semas: seq<Semaphore>) { ProducerSites(Sites(s), f, semas) != [] }

  /** The Funcs whose realizations the producer keeps. */
  function Realized(s: Stmt, f: string, semas: seq<Semaphore>): set<string> {
    match s
    case LetStmt(_, _, body) => Realized(body, f, semas)
    case Scoped(scoping, body) =>
      Realized(body, f, semas) + if scoping.Realize? && KeepsAny(body, f, semas) then {scoping.name} else {}
    case For(_, _, _, body) => Realized(body, f, semas)
    case Block(first, rest) => Realized(first, f, semas) + Realized(rest, f, semas)
    case IfThenElse(_, thenCase, elseCase) => Realized(thenCase, f, semas) + Realized(elseCase, f, semas)
    case Acquire(_, _, body) => Realized(body, f, semas)
    case ProducerConsumer(x, isProducer, body) => if x == f && isProducer then {} else Realized(body, f, semas)
    case _ => {}
  }

  /** `s` without the hoisted storage of Funcs that are realized neither inside it nor before (`done`). */
  function Housed(s: Stmt, f: string, semas: seq<Semaphore>, done: set<string>): Stmt {
    match s
    case LetStmt(x, value, body) => LetStmt(x, value, Housed(body, f, semas, done))
    case Scoped(scoping, body) =>
      var b := Housed(body, f, semas, done);
      if scoping.HoistedStorage? && scoping.name !in done + Realized(body, f, semas) then b else Scoped(scoping, b)
    case For(x, min, max, body) => For(x, min, max, Housed(body, f, semas, done))
    case Block(first, rest) => Block(Housed(first, f, semas, done), Housed(rest, f, semas, done + Realized(first, f, semas)))
    case IfThenElse(c, thenCase, elseCase) =>
      IfThenElse(c, Housed(thenCase, f, semas, done), Housed(elseCase, f, semas, done + Realized(thenCase, f, semas)))
    case Acquire(x, n, body) => Acquire(x, n, Housed(body, f, semas, done))
    case ProducerConsumer(x, isProducer, body) => if x == f then s else ProducerConsumer(x, isProducer, Housed(body, f, semas, done))
    case _ => s
  }

  /** The producer half `r` of `s` has everything it is to keep, inside what it was inside. */
  ghost predicate ProducerPlaces(r: Stmt, s: Stmt, f: string, semas: seq<Semaphore>, done: set<string>) {
    && Trimmed(Sites(r), f, semas) == ProducerSites(Sites(Housed(s, f, semas, done)), f, semas)
    && (r.NoOp? <==> !KeepsAny(s, f, semas))
  }

  /** The same statement around another body. */
  function Rebuilt(s: Stmt, body: Stmt): Stmt
    requires s.LetStmt? || s.Scoped? || s.For? || s.Acquire?
  {
    match s
    case LetStmt(x, value, _) => LetStmt(x, value, body)
    case Scoped(scoping, _) => Scoped(scoping, body)
    case For(x, min, max, _) => For(x, min, max, body)
    case Acquire(sema, n, _) => Acquire(sema, n, body)
  }

  lemma {:induction false} FramedSites(s: Stmt, body: Stmt)
    requires s.LetStmt? || s.Scoped? || s.For? || s.Acquire?
    ensures Sites(Rebuilt(s, body)) == Under(FrameOf(s), Sites(body)) && !FrameOf(s).InNode?
    ensures Rebuilt(s, s.body) == s
  {
  }

  lemma {:induction false} NoSites(f: string, semas: seq<Semaphore>)
    ensures Trimmed(Sites(NoOp), f, semas) == [] == ProducerSites(Sites(NoOp), f, semas)
  {
  }

  lemma {:induction false} FramedKept(s: Stmt, body: Stmt, f: string, semas: seq<Semaphore>)
    requires s.LetStmt? || s.Scoped? || s.For? || s.Acquire?
    ensures Trimmed(Sites(Rebuilt(s, body)), f, semas) == Under(FrameOf(s), Trimmed(Sites(body), f, semas))
    ensures ProducerSites(Sites(Rebuilt(s, body)), f, semas) == Under(FrameOf(s), ProducerSites(Sites(body), f, semas))
    ensures KeepsAny(Rebuilt(s, body), f, semas) == KeepsAny(body, f, semas)
  {
    hide Sites, Under, Trimmed, ProducerSites, FrameOf, Rebuilt;
    FramedSites(s, body);
    TrimmedUnder(FrameOf(s), Sites(body), f, semas);
    ProducerSitesUnder(FrameOf(s), Sites(body), f, semas);
    UnderEmpty(FrameOf(s), ProducerSites(Sites(body), f, semas));
  }

  /** A scope is kept around what is left, except hoisted storage of a Func not realized yet. */
  lemma {:induction false} ProducerFramed(s: Stmt, b: Stmt, f: string, semas: seq<Semaphore>, done: set<string>)
    requires s.LetStmt? || s.Scoped? || s.For? || s.Acquire?
    requires ProducerPlaces(b, s.body, f, semas, done)
    ensures var dropped := s.Scoped? && s.scoping.HoistedStorage? && s.scoping.name !in done + Realized(s.body, f, semas);
      ProducerPlaces(if b.NoOp? || dropped then b else Rebuilt(s, b), s, f, semas, done)
  {
    hide Sites, Under, Trimmed, ProducerSites, FrameOf, KeepsAny;
    var h := Housed(s.body, f, semas, done);
    FramedKept(s, b, f, semas);
    FramedKept(s, h, f, semas);
    FramedKept(s, s.body, f, semas);
    FramedSites(s, s.body);
    NoSites(f, semas);
    UnderEmpty(FrameOf(s), Trimmed(Sites(b), f, semas));
  }

  lemma {:induction false} MakeBlockSites(first: Stmt, rest: Stmt)
    ensures Sites(MakeBlock(first, rest)) == Sites(first) + Sites(rest)
  {
    BlockMakeSites(first, rest);
  }

  lemma {:induction false} ProducerBlockPlaces(first: Stmt, rest: Stmt, b1: Stmt, b2: Stmt, f: string, semas: seq<Semaphore>, done: set<string>)
    requires ProducerPlaces(b1, first, f, semas, done) && ProducerPlaces(b2, rest, f, semas, done + Realized(first, f, semas))
    ensures ProducerPlaces(MakeBlock(b1, b2), Block(first, rest), f, semas, done)
  {
    hide Trimmed, ProducerSites;
    MakeBlockSites(b1, b2);
    TrimmedConcat(Sites(b1), Sites(b2), f, semas);
    ProducerSitesConcat(Sites(first), Sites(rest), f, semas);
    var h1, h2 := Housed(first, f, semas, done), Housed(rest, f, semas, done + Realized(first, f, semas));
    ProducerSitesConcat(Sites(h1), Sites(h2), f, semas);
    MadeNoOp(b1, b2);
  }

  lemma {:induction false} MadeNoOp(first: Stmt, rest: Stmt)
    ensures MakeBlock(first, rest).NoOp? <==> first.NoOp? && rest.NoOp?
  {
  }

  lemma {:induction false} IfKept(c: Expr, thenCase: Stmt, elseCase: Stmt, f: string, semas: seq<Semaphore>)
    ensures Trimmed(Sites(IfThenElse(c, thenCase, elseCase)), f, semas)
         == Under(InThen(c), Trimmed(Sites(thenCase), f, semas)) + Under(InElse(c), Trimmed(Sites(elseCase), f, semas))
    ensures ProducerSites(Sites(IfThenElse(c, thenCase, elseCase)), f, semas)
         == Under(InThen(c), ProducerSites(Sites(thenCase), f, semas)) + Under(InElse(c), ProducerSites(Sites(elseCase), f, semas))
    ensures KeepsAny(IfThenElse(c, thenCase, elseCase), f, semas) <==> KeepsAny(thenCase, f, semas) || KeepsAny(elseCase, f, semas)
  {
    hide Under, Trimmed, ProducerSites;
    var t, u := Sites(thenCase), Sites(elseCase);
    TrimmedConcat(Under(InThen(c), t), Under(InElse(c), u), f, semas);
    ProducerSitesConcat(Under(InThen(c), t), Under(InElse(c), u), f, semas);
    TrimmedUnder(InThen(c), t, f, semas);
    TrimmedUnder(InElse(c), u, f, semas);
    ProducerSitesUnder(InThen(c), t, f, semas);
    ProducerSitesUnder(InElse(c), u, f, semas);
    UnderEmpty(InThen(c), ProducerSites(t, f, semas));
    UnderEmpty(InElse(c), ProducerSites(u, f, semas));
  }

  lemma {:induction false} ProducerIfPlaces(c: Expr, thenCase: Stmt, elseCase: Stmt, b1: Stmt, b2: Stmt, f: string, semas: seq<Semaphore>,
                                            done: set<string>)
    requires ProducerPlaces(b1, thenCase, f, semas, done) && ProducerPlaces(b2, elseCase, f, semas, done + Realized(thenCase, f, semas))
    ensures ProducerPlaces(if b1.NoOp? && b2.NoOp? then b1 else IfThenElse(c, b1, b2), IfThenElse(c, thenCase, elseCase), f, semas, done)
  {
    hide Sites, Under, Trimmed, ProducerSites, KeepsAny;
    var h1, h2 := Housed(thenCase, f, semas, done), Housed(elseCase, f, semas, done + Realized(thenCase, f, semas));
    IfKept(c, thenCase, elseCase, f, semas);
    IfKept(c, h1, h2, f, semas);
    IfKept(c, b1, b2, f, semas);
    NoSites(f, semas);
    UnderNothing(InThen(c));
    UnderNothing(InElse(c));
  }

  /** A produce node of another Func goes; a consume node stays around what is left. */
  lemma {:induction false} ProducerNodePlaces(x: string, isProducer: bool, body: Stmt, b: Stmt, f: string, semas: seq<Semaphore>,
                                              done: set<string>)
    requires x != f && ProducerPlaces(b, body, f, semas, done)
    ensures ProducerPlaces(if b.NoOp? || isProducer then b else ProducerConsumer(x, isProducer, b),
                           ProducerConsumer(x, isProducer, body), f, semas, done)
  {
    hide Sites, Under, Trimmed, ProducerSites;
    NodeSites(x, isProducer, body, f, semas);
    NodeSites(x, isProducer, Housed(body, f, semas, done), f, semas);
    NodeSites(x, isProducer, b, f, semas);
    UnderEmpty(InNode(x, isProducer), ProducerSites(Sites(body), f, semas));
    NoSites(f, semas);
    UnderNothing(InNode(x, isProducer));
  }

  /** Plain statements leave nothing to the producer. */
  lemma {:induction false} PlainPlaces(s: Stmt, f: string, semas: seq<Semaphore>, done: set<string>)
    requires Plain(s, f) || (s.ProducerConsumer? && s.name == f && !s.isProducer && Plain(s.body, f))
    requires s.Atomic? || s.ProducerConsumer? || s.NoOp? || s.Release? || s.Do?
    requires s.ProducerConsumer? ==> s.name == f
    ensures ProducerPlaces(NoOp, s, f, semas, done)
  {
    hide Trimmed, ProducerSites, Under;
    NoSites(f, semas);
    if Plain(s, f) {
      NothingKept(s, f, semas);
    } else {
      NothingKept(s.body, f, semas);
      NodeSites(f, false, s.body, f, semas);
      UnderNothing(InNode(f, false));
    }
  }

  lemma {:induction false} CounterPlaces(s: Stmt, f: string, semas: seq<Semaphore>, done: set<string>)
    requires s.Do? && s.leaf.Store? && IsProducerCounter(s.leaf.buffer, f)
    ensures ProducerPlaces(s, s, f, semas, done)
  {
    var site := Site([], Leaf(s.leaf));
    OneSite(site, f, semas);
    assert [site][1..] == [];
    assert Trimmed([site], f, semas) == [site];
  }

  /** The produce node itself is kept with everything in it. */
  lemma {:induction false} OwnNodePlaces(body: Stmt, b: Stmt, f: string, semas: seq<Semaphore>, done: set<string>)
    requires Unsignalled(Sites(b), semas) == Unsignalled(Sites(body), semas)
    ensures ProducerPlaces(ProducerConsumer(f, true, b), ProducerConsumer(f, true, body), f, semas, done)
  {
    hide Sites, Under, Trimmed, ProducerSites, Unsignalled;
    var end := [Site([], EndOf(f, true))];
    NodeSitesAre(f, true, body);
    NodeSitesAre(f, true, b);
    InOwnNode(Sites(body) + end, f, semas);
    InOwnNode(Sites(b) + end, f, semas);
    UnsignalledConcat(Sites(body), end, semas);
    UnsignalledConcat(Sites(b), end, semas);
    EndStays(f, semas);
    UnderEmpty(InNode(f, true), Unsignalled(Sites(body), semas) + end);
  }

  lemma {:induction false} EndStays(f: string, semas: seq<Semaphore>)
    ensures Unsignalled([Site([], EndOf(f, true))], semas) == [Site([], EndOf(f, true))]
  {
    assert [Site([], EndOf(f, true))][1..] == [];
  }

  lemma {:induction false} ReleaseUnsignalled(r: Stmt, sema: Semaphore, semas: seq<Semaphore>)
    requires sema in semas
    ensures Unsignalled(Sites(BlockMake(r, Release(sema, 1))), semas) == Unsignalled(Sites(r), semas)
  {
    var signal := [Site([], Signal(sema, 1))];
    BlockMakeSites(r, Release(sema, 1));
    UnsignalledConcat(Sites(r), signal, semas);
    assert signal[1..] == [] && Unsignalled(signal, semas) == [];
    assert Unsignalled(Sites(r), semas) + [] == Unsignalled(Sites(r), semas);
  }

  // ---- The consumer half ----

  /** The consumer keeps what is outside the produce node, but for the head of the folding counter. */
  predicate KeptByConsumer(site: Site, f: string) {
    !InProduce(site.path, f) && !(site.point.Leaf? && site.point.leaf.Store? && IsFoldingHead(site.point.leaf.buffer, f))
  }

  /** Folding acquires and the allocation of the folding head go to the producer. */
  predicate LeftToProducer(frame: Frame, f: string) {
    || (frame.Behind? && IsFoldingSemaphore(frame.sema, f))
    || (frame.InScope? && frame.scoping.Allocate? && IsFoldingHead(frame.scoping.buffer, f))
  }

  function ConsumerPath(path: seq<Frame>, f: string): seq<Frame> {
    if path == [] || path[0] == InNode(f, false) then path
    else if LeftToProducer(path[0], f) then ConsumerPath(path[1..], f)
    else [path[0]] + ConsumerPath(path[1..], f)
  }

  function ConsumerSites(t: seq<Site>, f: string): seq<Site> {
    if t == [] then []
    else if KeptByConsumer(t[0], f) then [Site(ConsumerPath(t[0].path, f), t[0].point)] + ConsumerSites(t[1..], f)
    else ConsumerSites(t[1..], f)
  }

  /** The path but for the waits around the consume node. */
  function UnwaitedPath(path: seq<Frame>, f: string, semas: seq<Semaphore>): seq<Frame> {
    if path == [] || path[0] == InNode(f, false) then path
    else if path[0].Behind? && path[0].sema in semas then UnwaitedPath(path[1..], f, semas)
    else [path[0]] + UnwaitedPath(path[1..], f, semas)
  }

  function Unwaited(t: seq<Site>, f: string, semas: seq<Semaphore>): seq<Site> {
    if t == [] then [] else [Site(UnwaitedPath(t[0].path, f, semas), t[0].point)] + Unwaited(t[1..], f, semas)
  }

  lemma {:induction false} ConsumerSitesConcat(t: seq<Site>, u: seq<Site>, f: string)
    ensures ConsumerSites(t + u, f) == ConsumerSites(t, f) + ConsumerSites(u, f)
  {
    hide KeptByConsumer, ConsumerPath;
    if t == [] {
      assert t + u == u;
    } else {
      ConsumerSitesConcat(t[1..], u, f);
      assert (t + u)[0] == t[0] && (t + u)[1..] == t[1..] + u;
      Join(Site(ConsumerPath(t[0].path, f), t[0].point), ConsumerSites(t[1..], f), ConsumerSites(u, f));
    }
  }

  lemma {:induction false} UnwaitedConcat(t: seq<Site>, u: seq<Site>, f: string, semas: seq<Semaphore>)
    ensures Unwaited(t + u, f, semas) == Unwaited(t, f, semas) + Unwaited(u, f, semas)
  {
    hide UnwaitedPath;
    if t == [] {
      assert t + u == u;
    } else {
      UnwaitedConcat(t[1..], u, f, semas);
      assert (t + u)[0] == t[0] && (t + u)[1..] == t[1..] + u;
      Join(Site(UnwaitedPath(t[0].path, f, semas), t[0].point), Unwaited(t[1..], f, semas), Unwaited(u, f, semas));
    }
  }

  lemma {:induction false} ConsumerPathFirst(frame: Frame, path: seq<Frame>, f: string, semas: seq<Semaphore>)
    ensures ConsumerPath([frame] + path, f)
         == if frame == InNode(f, false) then [frame] + path
            else if LeftToProducer(frame, f) then ConsumerPath(path, f) else [frame] + ConsumerPath(path, f)
    ensures UnwaitedPath([frame] + path, f, semas)
         == if frame == InNode(f, false) then [frame] + path
            else if frame.Behind? && frame.sema in semas then UnwaitedPath(path, f, semas) else [frame] + UnwaitedPath(path, f, semas)
  {
    hide LeftToProducer;
    assert ([frame] + path)[1..] == path;
  }

  lemma {:induction false} ConsumerSitesUnder(frame: Frame, t: seq<Site>, f: string)
    requires frame != InNode(f, true) && frame != InNode(f, false)
    ensures ConsumerSites(Under(frame, t), f)
         == if LeftToProducer(frame, f) then ConsumerSites(t, f) else Under(frame, ConsumerSites(t, f))
  {
    hide InProduce, ConsumerPath, LeftToProducer;
    if t != [] {
      ConsumerSitesUnder(frame, t[1..], f);
      UnderFirst(frame, t);
      PathFirst(frame, t[0].path, f);
      ConsumerPathFirst(frame, t[0].path, f, []);
      UnderRest(frame, Site(ConsumerPath(t[0].path, f), t[0].point), ConsumerSites(t[1..], f));
    }
  }

  lemma {:induction false} UnwaitedUnder(frame: Frame, t: seq<Site>, f: string, semas: seq<Semaphore>)
    requires frame != InNode(f, false)
    ensures Unwaited(Under(frame, t), f, semas)
         == if frame.Behind? && frame.sema in semas then Unwaited(t, f, semas) else Under(frame, Unwaited(t, f, semas))
  {
    hide UnwaitedPath;
    if t != [] {
      UnwaitedUnder(frame, t[1..], f, semas);
      UnderFirst(frame, t);
      ConsumerPathFirst(frame, t[0].path, f, semas);
      UnderRest(frame, Site(UnwaitedPath(t[0].path, f, semas), t[0].point), Unwaited(t[1..], f, semas));
    }
  }

  /** All of it is for the consumer. */
  predicate ForConsumer(t: seq<Site>, f: string) { forall i :: 0 <= i < |t| ==> KeptByConsumer(t[i], f) }

  lemma {:induction false} ForConsumerUnder(frame: Frame, t: seq<Site>, f: string)
    requires frame != InNode(f, true) && ForConsumer(t, f)
    ensures ForConsumer(Under(frame, t), f)
  {
    hide InProduce;
    if t != [] {
      ForConsumerUnder(frame, t[1..], f);
      UnderFirst(frame, t);
      PathFirst(frame, t[0].path, f);
      forall i | 0 <= i < |Under(frame, t)| ensures KeptByConsumer(Under(frame, t)[i], f) {
        if i > 0 { assert Under(frame, t)[i] == Under(frame, t)[1..][i - 1]; } else { assert KeptByConsumer(t[0], f); }
      }
    }
  }

  lemma {:induction false} PlainIsForConsumer(s: Stmt, f: string)
    requires Plain(s, f)
    ensures ForConsumer(Sites(s), f)
  {
    hide Under, KeptByConsumer;
    match s
    case NoOp =>
    case Do(leaf) => LeafForConsumer(s, f);
    case Release(_, _) => LeafForConsumer(s, f);
    case LetStmt(x, value, body) => PlainIsForConsumer(body, f); ForConsumerUnder(InLet(x, value), Sites(body), f);
    case Scoped(scoping, body) => PlainIsForConsumer(body, f); ForConsumerUnder(InScope(scoping), Sites(body), f);
    case For(x, min, max, body) => PlainIsForConsumer(body, f); ForConsumerUnder(InLoop(x, min, max), Sites(body), f);
    case Block(first, rest) => PlainIsForConsumer(first, f); PlainIsForConsumer(rest, f);
    case IfThenElse(c, thenCase, elseCase) =>
      PlainIsForConsumer(thenCase, f);
      PlainIsForConsumer(elseCase, f);
      ForConsumerUnder(InThen(c), Sites(thenCase), f);
      ForConsumerUnder(InElse(c), Sites(elseCase), f);
    case Atomic(x, body) => PlainIsForConsumer(body, f); ForConsumerUnder(InAtomic(x), Sites(body), f);
    case ProducerConsumer(x, isProducer, body) =>
      PlainIsForConsumer(body, f);
      EndForConsumer(Sites(body), x, isProducer, f);
      ForConsumerUnder(InNode(x, isProducer), Sites(body) + [Site([], EndOf(x, isProducer))], f);
    case _ =>
  }

  lemma {:induction false} LeafForConsumer(s: Stmt, f: string)
    requires Plain(s, f) && (s.Do? || s.Release?)
    ensures ForConsumer(Sites(s), f)
  {
  }

  lemma {:induction false} EndForConsumer(t: seq<Site>, x: string, isProducer: bool, f: string)
    requires ForConsumer(t, f)
    ensures ForConsumer(t + [Site([], EndOf(x, isProducer))], f)
  {
    assert KeptByConsumer(Site([], EndOf(x, isProducer)), f);
    hide KeptByConsumer;
  }

  /** In its own consume node the consumer keeps everything. */
  lemma {:induction false} InConsumeNode(t: seq<Site>, f: string, semas: seq<Semaphore>)
    ensures ForConsumer(t, f) ==> ConsumerSites(Under(InNode(f, false), t), f) == Under(InNode(f, false), t)
    ensures Unwaited(Under(InNode(f, false), t), f, semas) == Under(InNode(f, false), t)
  {
    hide InProduce, ConsumerPath, UnwaitedPath;
    if t != [] {
      InConsumeNode(t[1..], f, semas);
      UnderFirst(InNode(f, false), t);
      PathFirst(InNode(f, false), t[0].path, f);
      ConsumerPathFirst(InNode(f, false), t[0].path, f, semas);
    }
  }

  /** The consumer keeps nothing of the produce node. */
  lemma {:induction false} InProduceNode(t: seq<Site>, f: string)
    ensures ConsumerSites(Under(InNode(f, true), t), f) == []
  {
    hide InProduce, ConsumerPath;
    if t != [] {
      InProduceNode(t[1..], f);
      UnderFirst(InNode(f, true), t);
      PathFirst(InNode(f, true), t[0].path, f);
    }
  }

  /** The consumer half `r` of `s` has everything it is to keep, inside what it was inside. */
  ghost predicate ConsumerPlaces(r: Stmt, s: Stmt, f: string, semas: seq<Semaphore>) {
    Unwaited(Sites(r), f, semas) == ConsumerSites(Sites(s), f)
  }

  lemma {:induction false} NothingWaits(f: string, semas: seq<Semaphore>)
    ensures Unwaited(Sites(NoOp), f, semas) == [] == ConsumerSites(Sites(NoOp), f)
  {
  }

  /** A scope is kept around what is left, except the allocation of the folding head and folding acquires. */
  lemma {:induction false} ConsumerFramed(s: Stmt, b: Stmt, f: string, semas: seq<Semaphore>)
    requires (s.LetStmt? || s.Scoped? || s.For? || s.Acquire?) && ConsumerPlaces(b, s.body, f, semas)
    requires s.Acquire? ==> IsFoldingSemaphore(s.sema, f)
    ensures ConsumerPlaces(if b.NoOp? || LeftToProducer(FrameOf(s), f) then b else Rebuilt(s, b), s, f, semas)
  {
    hide Sites, Under, Unwaited, ConsumerSites;
    FramedSites(s, b);
    FramedSites(s, s.body);
    UnwaitedUnder(FrameOf(s), Sites(b), f, semas);
    ConsumerSitesUnder(FrameOf(s), Sites(s.body), f);
    NothingWaits(f, semas);
    UnderNothing(FrameOf(s));
  }

  lemma {:induction false} ConsumerAtomicPlaces(x: string, body: Stmt, b: Stmt, f: string, semas: seq<Semaphore>)
    requires ConsumerPlaces(b, body, f, semas)
    ensures ConsumerPlaces(if b.NoOp? then b else Atomic(x, b), Atomic(x, body), f, semas)
  {
    hide Under, Unwaited, ConsumerSites;
    UnwaitedUnder(InAtomic(x), Sites(b), f, semas);
    ConsumerSitesUnder(InAtomic(x), Sites(body), f);
    NothingWaits(f, semas);
    UnderNothing(InAtomic(x));
  }

  lemma {:induction false} ConsumerBlockPlaces(first: Stmt, rest: Stmt, b1: Stmt, b2: Stmt, f: string, semas: seq<Semaphore>)
    requires ConsumerPlaces(b1, first, f, semas) && ConsumerPlaces(b2, rest, f, semas)
    ensures ConsumerPlaces(MakeBlock(b1, b2), Block(first, rest), f, semas)
  {
    hide Unwaited, ConsumerSites;
    MakeBlockSites(b1, b2);
    UnwaitedConcat(Sites(b1), Sites(b2), f, semas);
    ConsumerSitesConcat(Sites(first), Sites(rest), f);
  }

  lemma {:induction false} ConsumerIfPlaces(c: Expr, thenCase: Stmt, elseCase: Stmt, b1: Stmt, b2: Stmt, f: string, semas: seq<Semaphore>)
    requires ConsumerPlaces(b1, thenCase, f, semas) && ConsumerPlaces(b2, elseCase, f, semas)
    ensures ConsumerPlaces(if b1.NoOp? && b2.NoOp? then b1 else IfThenElse(c, b1, b2), IfThenElse(c, thenCase, elseCase), f, semas)
  {
    hide Under, Unwaited, ConsumerSites;
    UnwaitedConcat(Under(InThen(c), Sites(b1)), Under(InElse(c), Sites(b2)), f, semas);
    ConsumerSitesConcat(Under(InThen(c), Sites(thenCase)), Under(InElse(c), Sites(elseCase)), f);
    UnwaitedUnder(InThen(c), Sites(b1), f, semas);
    UnwaitedUnder(InElse(c), Sites(b2), f, semas);
    ConsumerSitesUnder(InThen(c), Sites(thenCase), f);
    ConsumerSitesUnder(InElse(c), Sites(elseCase), f);
    NothingWaits(f, semas);
    UnderNothing(InThen(c));
    UnderNothing(InElse(c));
  }

  lemma {:induction false} OneEnd(x: string, isProducer: bool, f: string, semas: seq<Semaphore>)
    ensures var end := [Site([], EndOf(x, isProducer))]; Unwaited(end, f, semas) == end == ConsumerSites(end, f)
  {
    var end := [Site([], EndOf(x, isProducer))];
    assert end[1..] == [];
  }

  lemma {:induction false} ConsumerNodePlaces(x: string, isProducer: bool, body: Stmt, b: Stmt, f: string, semas: seq<Semaphore>)
    requires x != f && ConsumerPlaces(b, body, f, semas)
    ensures ConsumerPlaces(ProducerConsumer(x, isProducer, b), ProducerConsumer(x, isProducer, body), f, semas)
  {
    hide Sites, Under, Unwaited, ConsumerSites;
    var end := [Site([], EndOf(x, isProducer))];
    NodeSitesAre(x, isProducer, b);
    NodeSitesAre(x, isProducer, body);
    UnwaitedUnder(InNode(x, isProducer), Sites(b) + end, f, semas);
    ConsumerSitesUnder(InNode(x, isProducer), Sites(body) + end, f);
    UnwaitedConcat(Sites(b), end, f, semas);
    ConsumerSitesConcat(Sites(body), end, f);
    OneEnd(x, isProducer, f, semas);
  }

  lemma {:induction false} OwnProducePlaces(body: Stmt, f: string, semas: seq<Semaphore>)
    ensures ConsumerPlaces(NoOp, ProducerConsumer(f, true, body), f, semas)
  {
    hide Sites, Under, Unwaited, ConsumerSites;
    NodeSitesAre(f, true, body);
    InProduceNode(Sites(body) + [Site([], EndOf(f, true))], f);
    NothingWaits(f, semas);
  }

  lemma {:induction false} OwnConsumePlaces(sema: Semaphore, body: Stmt, f: string, semas: seq<Semaphore>)
    requires Plain(body, f) && sema in semas
    ensures ConsumerPlaces(Acquire(sema, IntImm(1), ProducerConsumer(f, false, body)), ProducerConsumer(f, false, body), f, semas)
  {
    hide Under, Unwaited, ConsumerSites, KeptByConsumer;
    var t := Sites(body) + [Site([], EndOf(f, false))];
    UnwaitedUnder(Behind(sema, IntImm(1)), Under(InNode(f, false), t), f, semas);
    InConsumeNode(t, f, semas);
    PlainIsForConsumer(body, f);
    EndForConsumer(Sites(body), f, false, f);
  }

  lemma {:induction false} ConsumerLeafPlaces(s: Stmt, f: string, semas: seq<Semaphore>)
    requires s.Do? || s.NoOp? || s.Release?
    ensures ConsumerPlaces(if s.Do? && s.leaf.Store? && IsFoldingHead(s.leaf.buffer, f) then NoOp else s, s, f, semas)
  {
    NothingWaits(f, semas);
    if !s.NoOp? {
      var site := Site([], if s.Do? then Leaf(s.leaf) else Signal(s.sema, s.amount));
      assert Sites(s) == [site] && [site][1..] == [];
    }
  }
}
