/** Which hoisted storage the producer half keeps. */
module HousedPlaces {
  import opened AsyncIR
  import opened ForkInput
  import opened HalfPlaces
  import opened WorkSites

  /** The path leads through a realization of `g` before it comes to the produce node of `f`. */
  predicate ThroughRealize(path: seq<Frame>, f: string, g: string) {
    path != [] && path[0] != InNode(f, true)
    && ((path[0].InScope? && path[0].scoping.Realize? && path[0].scoping.name == g) || ThroughRealize(path[1..], f, g))
  }

  predicate SomeThroughRealize(t: seq<Site>, f: string, g: string) {
    t != [] && (ThroughRealize(t[0].path, f, g) || SomeThroughRealize(t[1..], f, g))
  }

  lemma {:induction false} SomeInConcat(t: seq<Site>, u: seq<Site>, f: string, g: string)
    ensures SomeThroughRealize(t + u, f, g) <==> SomeThroughRealize(t, f, g) || SomeThroughRealize(u, f, g)
  {
    hide ThroughRealize;
    if t == [] {
      assert t + u == u;
    } else {
      SomeInConcat(t[1..], u, f, g);
      assert (t + u)[0] == t[0] && (t + u)[1..] == t[1..] + u;
    }
  }

  lemma {:induction false} SomeUnder(frame: Frame, t: seq<Site>, f: string, g: string)
    ensures SomeThroughRealize(Under(frame, t), f, g)
         <==> frame != InNode(f, true)
              && (if frame.InScope? && frame.scoping.Realize? && frame.scoping.name == g then t != [] else SomeThroughRealize(t, f, g))
  {
    if t != [] {
      SomeUnder(frame, t[1..], f, g);
      UnderFirst(frame, t);
      assert ([frame] + t[0].path)[1..] == t[0].path;
    }
  }

  lemma {:induction false} PlainRealizesNothing(s: Stmt, f: string, semas: seq<Semaphore>)
    requires Plain(s, f)
    ensures Realized(s, f, semas) == {}
  {
    hide ProducerSites, Sites;
    match s
    case LetStmt(_, _, body) => PlainRealizesNothing(body, f, semas);
    case Scoped(_, body) => PlainRealizesNothing(body, f, semas); NothingKept(body, f, semas);
    case For(_, _, _, body) => PlainRealizesNothing(body, f, semas);
    case Block(first, rest) => PlainRealizesNothing(first, f, semas); PlainRealizesNothing(rest, f, semas);
    case IfThenElse(_, thenCase, elseCase) => PlainRealizesNothing(thenCase, f, semas); PlainRealizesNothing(elseCase, f, semas);
    case ProducerConsumer(_, _, body) => PlainRealizesNothing(body, f, semas);
    case _ =>
  }

  lemma {:induction false} LeafRealizesNothing(s: Stmt, f: string, semas: seq<Semaphore>, g: string)
    requires s.Do? || s.Release? || s.NoOp?
    ensures !SomeThroughRealize(ProducerSites(Sites(s), f, semas), f, g)
  {
    if !s.NoOp? { OneSite(Sites(s)[0], f, semas); }
  }

  lemma {:induction false} RealizedFramed(s: Stmt, f: string, semas: seq<Semaphore>, g: string)
    requires (s.LetStmt? || s.Scoped? || s.For? || s.Acquire?)
    requires g in Realized(s.body, f, semas) <==> SomeThroughRealize(ProducerSites(Sites(s.body), f, semas), f, g)
    ensures g in Realized(s, f, semas) <==> SomeThroughRealize(ProducerSites(Sites(s), f, semas), f, g)
  {
    hide ProducerSites, Sites, Under, ThroughRealize, SomeThroughRealize;
    FramedSites(s, s.body);
    FramedKept(s, s.body, f, semas);
    SomeUnder(FrameOf(s), ProducerSites(Sites(s.body), f, semas), f, g);
    NothingThrough(f, g);
  }

  lemma {:induction false} NothingThrough(f: string, g: string)
    ensures !SomeThroughRealize([], f, g)
  {
  }

  lemma {:induction false} RealizedInOwnNode(isProducer: bool, body: Stmt, f: string, semas: seq<Semaphore>, g: string)
    requires Plain(body, f)
    ensures var s := ProducerConsumer(f, isProducer, body);
      g !in Realized(s, f, semas) && !SomeThroughRealize(ProducerSites(Sites(s), f, semas), f, g)
  {
    hide ProducerSites, Sites, Under, ThroughRealize;
    PlainRealizesNothing(body, f, semas);
    if isProducer {
      var t := Sites(body) + [Site([], EndOf(f, true))];
      NodeSitesAre(f, true, body);
      InOwnNode(t, f, semas);
      SomeUnder(InNode(f, true), Unsignalled(t, semas), f, g);
    } else {
      NothingKept(body, f, semas);
      NodeSites(f, false, body, f, semas);
      UnderNothing(InNode(f, false));
    }
  }

  /** The Funcs whose realizations are kept are those the kept sites lie in. */
  lemma {:induction false} RealizedIff(s: Stmt, f: string, semas: seq<Semaphore>, g: string)
    requires Forkable(s, f)
    ensures g in Realized(s, f, semas) <==> SomeThroughRealize(ProducerSites(Sites(s), f, semas), f, g)
  {
    hide ProducerSites, Under, ThroughRealize;
    match s
    case LetStmt(_, _, body) => RealizedIff(body, f, semas, g); RealizedFramed(s, f, semas, g);
    case Scoped(_, body) => RealizedIff(body, f, semas, g); RealizedFramed(s, f, semas, g);
    case For(_, _, _, body) => RealizedIff(body, f, semas, g); RealizedFramed(s, f, semas, g);
    case Acquire(_, _, body) => RealizedIff(body, f, semas, g); RealizedFramed(s, f, semas, g);
    case Block(first, rest) =>
      RealizedIff(first, f, semas, g);
      RealizedIff(rest, f, semas, g);
      ProducerSitesConcat(Sites(first), Sites(rest), f, semas);
      SomeInConcat(ProducerSites(Sites(first), f, semas), ProducerSites(Sites(rest), f, semas), f, g);
    case IfThenElse(c, thenCase, elseCase) =>
      RealizedIff(thenCase, f, semas, g);
      RealizedIff(elseCase, f, semas, g);
      IfKept(c, thenCase, elseCase, f, semas);
      var t, u := ProducerSites(Sites(thenCase), f, semas), ProducerSites(Sites(elseCase), f, semas);
      SomeInConcat(Under(InThen(c), t), Under(InElse(c), u), f, g);
      SomeUnder(InThen(c), t, f, g);
      SomeUnder(InElse(c), u, f, g);
    case ProducerConsumer(x, isProducer, body) =>
      if x == f {
        RealizedInOwnNode(isProducer, body, f, semas, g);
      } else {
        RealizedIff(body, f, semas, g);
        NodeSites(x, isProducer, body, f, semas);
        SomeUnder(InNode(x, isProducer), ProducerSites(Sites(body), f, semas), f, g);
      }
    case Atomic(_, _) => NothingKept(s, f, semas);
    case _ => LeafRealizesNothing(s, f, semas, g);
  }

  // ---- Hoisted storage ----

  /** `s` without any hoisted storage around the nodes of `f`. */
  function Unhoused(s: Stmt, f: string): Stmt {
    match s
    case LetStmt(x, value, body) => LetStmt(x, value, Unhoused(body, f))
    case Scoped(scoping, body) => if scoping.HoistedStorage? then Unhoused(body, f) else Scoped(scoping, Unhoused(body, f))
    case For(x, min, max, body) => For(x, min, max, Unhoused(body, f))
    case Block(first, rest) => Block(Unhoused(first, f), Unhoused(rest, f))
    case IfThenElse(c, thenCase, elseCase) => IfThenElse(c, Unhoused(thenCase, f), Unhoused(elseCase, f))
    case Acquire(x, n, body) => Acquire(x, n, Unhoused(body, f))
    case ProducerConsumer(x, isProducer, body) => if x == f then s else ProducerConsumer(x, isProducer, Unhoused(body, f))
    case _ => s
  }

  /** Nothing but hoisted storage is left out. */
  lemma {:induction false} OnlyHoistsGo(s: Stmt, f: string, semas: seq<Semaphore>, done: set<string>)
    ensures Unhoused(Housed(s, f, semas, done), f) == Unhoused(s, f)
  {
    hide Realized;
    match s
    case LetStmt(_, _, body) => OnlyHoistsGo(body, f, semas, done);
    case Scoped(_, body) => OnlyHoistsGo(body, f, semas, done);
    case For(_, _, _, body) => OnlyHoistsGo(body, f, semas, done);
    case Block(first, rest) => OnlyHoistsGo(first, f, semas, done); OnlyHoistsGo(rest, f, semas, done + Realized(first, f, semas));
    case IfThenElse(_, first, rest) => OnlyHoistsGo(first, f, semas, done); OnlyHoistsGo(rest, f, semas, done + Realized(first, f, semas));
    case Acquire(_, _, body) => OnlyHoistsGo(body, f, semas, done);
    case ProducerConsumer(_, _, body) => OnlyHoistsGo(body, f, semas, done);
    case _ =>
  }

  /** Inside each hoisted storage something is kept that lies in the Func's realization. */
  predicate AllRealize(s: Stmt, f: string, semas: seq<Semaphore>) {
    match s
    case LetStmt(_, _, body) => AllRealize(body, f, semas)
    case Scoped(scoping, body) =>
      && (scoping.HoistedStorage? ==> SomeThroughRealize(ProducerSites(Sites(body), f, semas), f, scoping.name))
      && AllRealize(body, f, semas)
    case For(_, _, _, body) => AllRealize(body, f, semas)
    case Block(first, rest) => AllRealize(first, f, semas) && AllRealize(rest, f, semas)
    case IfThenElse(_, thenCase, elseCase) => AllRealize(thenCase, f, semas) && AllRealize(elseCase, f, semas)
    case Acquire(_, _, body) => AllRealize(body, f, semas)
    case ProducerConsumer(x, _, body) => x == f || AllRealize(body, f, semas)
    case _ => true
  }

  /** Then all hoisted storage is kept. */
  lemma {:induction false} AllHoistsStay(s: Stmt, f: string, semas: seq<Semaphore>, done: set<string>)
    requires Forkable(s, f) && AllRealize(s, f, semas)
    ensures Housed(s, f, semas, done) == s
  {
    hide Realized, SomeThroughRealize, ProducerSites, Sites;
    match s
    case LetStmt(_, _, body) => AllHoistsStay(body, f, semas, done);
    case Scoped(scoping, body) =>
      AllHoistsStay(body, f, semas, done);
      if scoping.HoistedStorage? { RealizedIff(body, f, semas, scoping.name); }
    case For(_, _, _, body) => AllHoistsStay(body, f, semas, done);
    case Block(first, rest) => AllHoistsStay(first, f, semas, done); AllHoistsStay(rest, f, semas, done + Realized(first, f, semas));
    case IfThenElse(_, first, rest) => AllHoistsStay(first, f, semas, done); AllHoistsStay(rest, f, semas, done + Realized(first, f, semas));
    case Acquire(_, _, body) => AllHoistsStay(body, f, semas, done);
    case ProducerConsumer(x, _, body) => if x != f { AllHoistsStay(body, f, semas, done); }
    case _ =>
  }

  /** No hoisted storage is of a Func that `done` or anything kept realizes. */
  predicate NoneRealize(s: Stmt, f: string, semas: seq<Semaphore>, done: set<string>) {
    match s
    case LetStmt(_, _, body) => NoneRealize(body, f, semas, done)
    case Scoped(scoping, body) =>
      && (scoping.HoistedStorage? ==>
            scoping.name !in done && !SomeThroughRealize(ProducerSites(Sites(body), f, semas), f, scoping.name))
      && NoneRealize(body, f, semas, done)
    case For(_, _, _, body) => NoneRealize(body, f, semas, done)
    case Block(first, rest) => NoneRealize(first, f, semas, done) && NoneRealize(rest, f, semas, done + Realized(first, f, semas))
    case IfThenElse(_, thenCase, elseCase) =>
      NoneRealize(thenCase, f, semas, done) && NoneRealize(elseCase, f, semas, done + Realized(thenCase, f, semas))
    case Acquire(_, _, body) => NoneRealize(body, f, semas, done)
    case ProducerConsumer(x, _, body) => x == f || NoneRealize(body, f, semas, done)
    case _ => true
  }

  /** Then none is kept. */
  lemma {:induction false} NoHoistStays(s: Stmt, f: string, semas: seq<Semaphore>, done: set<string>)
    requires Forkable(s, f) && NoneRealize(s, f, semas, done)
    ensures Housed(s, f, semas, done) == Unhoused(s, f)
  {
    hide Realized, SomeThroughRealize, ProducerSites, Sites;
    match s
    case LetStmt(_, _, body) => NoHoistStays(body, f, semas, done);
    case Scoped(scoping, body) =>
      NoHoistStays(body, f, semas, done);
      if scoping.HoistedStorage? { RealizedIff(body, f, semas, scoping.name); }
    case For(_, _, _, body) => NoHoistStays(body, f, semas, done);
    case Block(first, rest) => NoHoistStays(first, f, semas, done); NoHoistStays(rest, f, semas, done + Realized(first, f, semas));
    case IfThenElse(_, first, rest) => NoHoistStays(first, f, semas, done); NoHoistStays(rest, f, semas, done + Realized(first, f, semas));
    case Acquire(_, _, body) => NoHoistStays(body, f, semas, done);
    case ProducerConsumer(x, _, body) => if x != f { NoHoistStays(body, f, semas, done); }
    case _ =>
  }
}
