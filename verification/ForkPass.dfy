/** The whole fork of one asynchronous Func's body, and what the forked body guarantees. */
module ForkPass {
  import opened AsyncIR
  import opened AsyncFork
  import opened ForkInput
  import opened HalfPlaces
  import opened TaskPair
  import opened ForkProtocol

  /** `body` inside one semaphore let per name, the last name outermost. */
  function WithSemaphores(semas: seq<Semaphore>, body: Stmt): Stmt {
    if semas == [] then body
    else Scoped(MakeSemaphore(semas[|semas| - 1], 0), WithSemaphores(semas[..|semas| - 1], body))
  }

  /** The fork's semaphores are new to the body: it releases none of them, and a produce node of `f`
      does not release `f`'s own folding semaphore. */
  predicate Unforked(s: Stmt, f: string, inside: bool) {
    match s
    case Release(x, _) => !x.ConsumeSemaphore? && (inside ==> !IsFoldingSemaphore(x, f))
    case LetStmt(_, _, body) => Unforked(body, f, inside)
    case Scoped(_, body) => Unforked(body, f, inside)
    case For(_, _, _, body) => Unforked(body, f, inside)
    case Block(first, rest) => Unforked(first, f, inside) && Unforked(rest, f, inside)
    case Fork(_, _) => false
    case IfThenElse(_, thenCase, elseCase) => Unforked(thenCase, f, inside) && Unforked(elseCase, f, inside)
    case Atomic(_, body) => Unforked(body, f, inside)
    case Acquire(_, _, body) => Unforked(body, f, inside)
    case ProducerConsumer(name, isProducer, body) => Unforked(body, f, inside || (name == f && isProducer))
    case _ => true
  }

  lemma {:induction false} PlainRunIsSerial(s: Stmt, f: string, env: Env, k: nat, n: nat, inside: bool)
    requires Plain(s, f) && Unforked(s, f, inside)
    ensures SerialTrace(Run(s, f, env, k, inside), f, n)
    decreases s, 0
  {
    match s
    case LetStmt(x, value, body) => PlainRunIsSerial(body, f, env[x := Eval(value, env)], k, n, inside);
    case Scoped(_, body) => PlainRunIsSerial(body, f, env, k, n, inside);
    case For(x, min, max, body) => PlainLoopIsSerial(x, Eval(min, env), Eval(max, env), body, f, env, k, n, inside);
    case Block(first, rest) =>
      PlainRunIsSerial(first, f, env, k, n, inside);
      PlainRunIsSerial(rest, f, env, k + ConsumeNodes(first, f), n, inside);
    case IfThenElse(c, thenCase, elseCase) =>
      PlainRunIsSerial(thenCase, f, env, k, n, inside);
      PlainRunIsSerial(elseCase, f, env, k + ConsumeNodes(thenCase, f), n, inside);
    case Atomic(_, body) => PlainRunIsSerial(body, f, env, k, n, inside);
    case ProducerConsumer(_, _, body) => PlainRunIsSerial(body, f, env, k, n, inside);
    case _ =>
  }

  lemma {:induction false} PlainLoopIsSerial(x: string, lo: int, hi: int, body: Stmt, f: string, env: Env, k: nat, n: nat, inside: bool)
    requires Plain(body, f) && Unforked(body, f, inside)
    ensures SerialTrace(RunLoop(x, lo, hi, body, f, env, k, inside), f, n)
    decreases body, if hi < lo then 0 else hi - lo + 1
  {
    if lo <= hi {
      PlainRunIsSerial(body, f, env[x := lo], k, n, inside);
      PlainLoopIsSerial(x, lo + 1, hi, body, f, env, k, n, inside);
    }
  }

  lemma {:induction false} RunIsSerial(s: Stmt, f: string, env: Env, k: nat, n: nat)
    requires Forkable(s, f) && Unforked(s, f, false) && k + ConsumeNodes(s, f) <= n
    ensures SerialTrace(Run(s, f, env, k, false), f, n)
    decreases s, 0
  {
    match s
    case LetStmt(x, value, body) => RunIsSerial(body, f, env[x := Eval(value, env)], k, n);
    case Scoped(_, body) => RunIsSerial(body, f, env, k, n);
    case For(x, min, max, body) => LoopIsSerial(x, Eval(min, env), Eval(max, env), body, f, env, k, n);
    case Block(first, rest) =>
      RunIsSerial(first, f, env, k, n);
      RunIsSerial(rest, f, env, k + ConsumeNodes(first, f), n);
    case IfThenElse(c, thenCase, elseCase) =>
      RunIsSerial(thenCase, f, env, k, n);
      RunIsSerial(elseCase, f, env, k + ConsumeNodes(thenCase, f), n);
    case Atomic(_, body) => PlainRunIsSerial(body, f, env, k, n, false);
    case Acquire(_, _, body) => RunIsSerial(body, f, env, k, n);
    case ProducerConsumer(name, isProducer, body) =>
      if name != f {
        RunIsSerial(body, f, env, k, n);
      } else if isProducer {
        PlainRunIsSerial(body, f, env, k, n, true);
      } else {
        PlainRunIsSerial(body, f, env, k + 1, n, false);
      }
    case _ =>
  }

  lemma {:induction false} LoopIsSerial(x: string, lo: int, hi: int, body: Stmt, f: string, env: Env, k: nat, n: nat)
    requires Forkable(body, f) && Unforked(body, f, false) && k + ConsumeNodes(body, f) <= n
    ensures SerialTrace(RunLoop(x, lo, hi, body, f, env, k, false), f, n)
    decreases body, if hi < lo then 0 else hi - lo + 1
  {
    if lo <= hi {
      RunIsSerial(body, f, env[x := lo], k, n);
      LoopIsSerial(x, lo + 1, hi, body, f, env, k, n);
    }
  }

  /** The two tasks of a fork of `body`: their traces are the two halves of the serial trace. */
  ghost predicate SplitsTrace(producer: Stmt, consumer: Stmt, body: Stmt, f: string) {
    var n := ConsumeNodes(body, f);
    forall env ::
      && Run(producer, f, env, 0, false) == Producer(Run(body, f, env, 0, false), f, n)
      && Run(consumer, f, env, 0, false) == Consumer(Run(body, f, env, 0, false), f, n)
  }

  /** Each task has its share of the body's work, inside the lets, storage, loops and conditions it was inside. */
  ghost predicate KeepsPlaces(producer: Stmt, consumer: Stmt, body: Stmt, f: string) {
    var semas := ConsumeSemaphores(f, ConsumeNodes(body, f));
    ProducerPlaces(producer, body, f, semas, {}) && ConsumerPlaces(consumer, body, f, semas)
  }

  method MakeSemaphoreNames(f: string, n: nat) returns (semaNames: seq<Semaphore>)
    ensures semaNames == ConsumeSemaphores(f, n)
  {
    semaNames := [];
    for i := 0 to n
      invariant semaNames == ConsumeSemaphores(f, i)
    {
      semaNames := semaNames + [ConsumeSemaphore(f, i)];
    }
  }

  method WrapInSemaphores(semaNames: seq<Semaphore>, forked: Stmt) returns (r: Stmt)
    ensures r == WithSemaphores(semaNames, forked)
  {
    r := forked;
    for i := 0 to |semaNames|
      invariant r == WithSemaphores(semaNames[..i], forked)
    {
      assert semaNames[..i + 1][..i] == semaNames[..i];
      r := Scoped(MakeSemaphore(semaNames[i], 0), r);
    }
    assert semaNames[..|semaNames|] == semaNames;
  }

  /** Forks `body` into the task that produces `f` and the task that consumes it. */
  method ProcessBody(f: string, body: Stmt) returns (r: Result<Stmt>)
    requires Forkable(body, f)
    ensures r.Success? <==>
      && ProduceNodes(body, f) <= (if ConsumeNodes(body, f) == 0 then 0 else 1)
      && WellNested(body, f, {}, false)
    ensures r.Success? ==> exists producer, consumer ::
      && r.value == WithSemaphores(ConsumeSemaphores(f, ConsumeNodes(body, f)), Fork(producer, consumer))
      && SplitsTrace(producer, consumer, body, f) && KeepsPlaces(producer, consumer, body, f)
  {
    hide Run, Plain, ProducerPlaces, ConsumerPlaces;
    var semaNames := MakeSemaphoreNames(f, ConsumeNodes(body, f));
    var producerBody := new GenerateProducerBody(f, semaNames);
    var producer :- producerBody.Mutate(body);
    var consumerBody := new GenerateConsumerBody(f, semaNames);
    var consumer := consumerBody.Mutate(body);
    assert SplitsTrace(producer, consumer, body, f) && KeepsPlaces(producer, consumer, body, f);
    var forked := WrapInSemaphores(semaNames, Fork(producer, consumer));
    r := Success(forked);
  }

  /** In any interleaving of the two tasks: the body's order of produces and consumes is kept, the
      tasks cannot hang, and every run ends. */
  ghost predicate Correct(p: seq<Event>, c: seq<Event>, t: seq<Event>, f: string, n: nat, init: Counts) {
    forall path :: IsRun(p, c, init, path) ==>
      var s := path[|path| - 1];
      && |path| <= |p| + |c| + 1
      && !Stuck(p, c, s)
      && (forall m, q :: 0 <= m < |t| && 0 <= q < m && t[m].ConsumeBegin? && t[q].ProduceEnd?
                         && ConsumeBegins(t[..m], t[m].node) + 1 >= ProduceEnds(t[..m])
                         && s.j > |Consumer(t[..m], f, n)|
                         ==> s.i > |Producer(t[..q], f, n)|)
  }

  lemma {:induction false} ProduceEndsBefore(t: seq<Event>, q: nat, m: nat)
    requires q < m <= |t| && t[q].ProduceEnd?
    ensures ProduceEnds(t[..q]) < ProduceEnds(t[..m])
  {
    if q + 1 == m {
      assert t[..m][..q] == t[..q];
    } else {
      ProduceEndsBefore(t, q, m - 1);
      assert t[..m][..m - 1] == t[..m - 1];
    }
  }

  /** Forking keeps the meaning of a body whose serial run never waits: as long as a consume node runs once
      per produce, every produce that comes before a consume serially has finished before that consume
      starts, whatever the interleaving. */
  lemma {:induction false} ForkIsCorrect(producer: Stmt, consumer: Stmt, body: Stmt, f: string, env: Env, init: Counts)
    requires Forkable(body, f) && Unforked(body, f, false) && SplitsTrace(producer, consumer, body, f)
    requires FreshSemaphores(init, f) && SeriallyReady(Run(body, f, env, 0, false), init)
    ensures Correct(Run(producer, f, env, 0, false), Run(consumer, f, env, 0, false),
                    Run(body, f, env, 0, false), f, ConsumeNodes(body, f), init)
  {
    var n, t := ConsumeNodes(body, f), Run(body, f, env, 0, false);
    var p, c := Producer(t, f, n), Consumer(t, f, n);
    RunIsSerial(body, f, env, 0, n);
    forall path: seq<State> | IsRun(p, c, init, path)
      ensures |path| <= |p| + |c| + 1 && !Stuck(p, c, path[|path| - 1])
      ensures forall m, q :: 0 <= m < |t| && 0 <= q < m && t[m].ConsumeBegin? && t[q].ProduceEnd?
                             && ConsumeBegins(t[..m], t[m].node) + 1 >= ProduceEnds(t[..m])
                             && path[|path| - 1].j > |Consumer(t[..m], f, n)|
                             ==> path[|path| - 1].i > |Producer(t[..q], f, n)|
    {
      RunsAreFinite(p, c, init, path);
      NeverStuck(t, f, n, init, path);
      forall m, q | 0 <= m < |t| && 0 <= q < m && t[m].ConsumeBegin? && t[q].ProduceEnd?
                    && ConsumeBegins(t[..m], t[m].node) + 1 >= ProduceEnds(t[..m])
                    && path[|path| - 1].j > |Consumer(t[..m], f, n)|
        ensures path[|path| - 1].i > |Producer(t[..q], f, n)|
      {
        ProduceEndsBefore(t, q, m);
        ConsumeAfterProduce(t, f, n, init, path, m, q);
      }
    }
  }

  // ---- The semaphores of the fork ----

  /** What semaphore lets contain, and the counts there. */
  function Opened(s: Stmt, counts: Counts): (Stmt, Counts) {
    if s.Scoped? && s.scoping.MakeSemaphore? then Opened(s.body, counts[s.scoping.sema := s.scoping.initial]) else (s, counts)
  }

  /** Inside the lets the semaphores they make start at zero, and no other changes. */
  lemma {:induction false} OpensAtZero(semas: seq<Semaphore>, body: Stmt, counts: Counts, x: Semaphore)
    requires !(body.Scoped? && body.scoping.MakeSemaphore?)
    ensures var o := Opened(WithSemaphores(semas, body), counts);
      o.0 == body && Count(o.1, x) == if x in semas then 0 else Count(counts, x)
  {
    if semas != [] {
      var last := |semas| - 1;
      OpensAtZero(semas[..last], body, counts[semas[last] := 0], x);
      assert semas == semas[..last] + [semas[last]];
    }
  }

  lemma {:induction false} OpensFresh(f: string, n: nat, body: Stmt, counts: Counts)
    requires !(body.Scoped? && body.scoping.MakeSemaphore?) && NonNegative(counts)
    requires forall i: nat :: i >= n ==> Count(counts, ConsumeSemaphore(f, i)) == 0
    ensures var o := Opened(WithSemaphores(ConsumeSemaphores(f, n), body), counts); o.0 == body && FreshSemaphores(o.1, f)
  {
    hide Count, WithSemaphores, Opened;
    var semas := ConsumeSemaphores(f, n);
    forall x: Semaphore
      ensures var o := Opened(WithSemaphores(semas, body), counts);
        o.0 == body && Count(o.1, x) == if x in semas then 0 else Count(counts, x)
    {
      OpensAtZero(semas, body, counts, x);
    }
    OpensAtZero(semas, body, counts, ConsumeSemaphore(f, 0));
    forall i: nat | i < n ensures ConsumeSemaphore(f, i) in semas { assert semas[i] == ConsumeSemaphore(f, i); }
  }

  /** What a successful fork gives runs correctly from wherever it is reached, as long as the body's own run would
      never wait there. */
  lemma {:induction false} ForkedIsCorrect(forked: Stmt, producer: Stmt, consumer: Stmt, body: Stmt, f: string, env: Env, counts: Counts)
    requires Forkable(body, f) && Unforked(body, f, false) && SplitsTrace(producer, consumer, body, f)
    requires forked == WithSemaphores(ConsumeSemaphores(f, ConsumeNodes(body, f)), Fork(producer, consumer))
    requires NonNegative(counts) && forall i: nat :: i >= ConsumeNodes(body, f) ==> Count(counts, ConsumeSemaphore(f, i)) == 0
    requires SeriallyReady(Run(body, f, env, 0, false), Opened(forked, counts).1)
    ensures Opened(forked, counts).0 == Fork(producer, consumer)
    ensures Correct(Run(producer, f, env, 0, false), Run(consumer, f, env, 0, false),
                    Run(body, f, env, 0, false), f, ConsumeNodes(body, f), Opened(forked, counts).1)
  {
    hide Run, Correct, SplitsTrace, Forkable, Unforked, SeriallyReady, FreshSemaphores, WithSemaphores, Opened;
    OpensFresh(f, ConsumeNodes(body, f), Fork(producer, consumer), counts);
    ForkIsCorrect(producer, consumer, body, f, env, Opened(forked, counts).1);
  }
}
