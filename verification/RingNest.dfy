/** A ring-buffered asynchronous Func inside a nest of loops, through injection and forking. */
module RingNest {
  import opened AsyncIR
  import opened AsyncFork
  import opened ForkInput
  import opened TaskPair
  import opened ForkProtocol
  import opened ForkPass
  import opened RingIndex
  import opened RingProtocol
  import opened RingBuffer
  import opened Flatten

  function Nest(ranges: seq<Range>, body: Stmt): Stmt {
    if ranges == [] then body
    else For(ranges[0].name, IntImm(ranges[0].min), Max(ranges[0]), Nest(ranges[1..], body))
  }

  /** The nodes of `f` run once each, the produce node before the consume nodes. */
  predicate Sequential(s: Stmt, f: string) {
    match s
    case LetStmt(_, _, body) => Sequential(body, f)
    case Scoped(_, body) => Sequential(body, f)
    case Block(first, rest) =>
      Sequential(first, f) && Sequential(rest, f) && (ProduceNodes(rest, f) > 0 ==> ConsumeNodes(first, f) == 0)
    case ProducerConsumer(name, _, body) => if name == f then Plain(body, f) else Sequential(body, f)
    case Acquire(_, _, _) => false
    case _ => Plain(s, f)
  }

  /** Traces of sequential bodies: `n` consume nodes from `k` on, `p` produces, all of them before the
      first consume, no waiting and no slot given back. */
  predicate QuietEvent(e: Event, f: string) {
    !e.Acquired? && (e.Released? ==> !e.sema.ConsumeSemaphore? && !IsFoldingSemaphore(e.sema, f))
  }

  ghost predicate TidyPrefix(v: seq<Event>, k: nat, n: nat, p: nat) {
    && Begins(v) <= p
    && forall node: nat ::
      && ConsumeBegins(v, node) <= (if k <= node < k + n then 1 else 0)
      && (ConsumeBegins(v, node) > 0 ==> ProduceEnds(v) == p)
  }

  ghost predicate Tidy(t: seq<Event>, f: string, k: nat, n: nat, p: nat) {
    && (forall i :: 0 <= i < |t| ==> QuietEvent(t[i], f))
    && (forall m :: 0 <= m <= |t| ==> TidyPrefix(t[..m], k, n, p))
    && Begins(t) == ProduceEnds(t) == p
    && forall node: nat :: ConsumeBegins(t, node) == if k <= node < k + n then 1 else 0
  }

  lemma {:induction false} TidyConcat(t: seq<Event>, u: seq<Event>, f: string, k: nat, n1: nat, n2: nat, p1: nat, p2: nat)
    requires Tidy(t, f, k, n1, p1) && Tidy(u, f, k + n1, n2, p2) && (p2 > 0 ==> n1 == 0)
    ensures Tidy(t + u, f, k, n1 + n2, p1 + p2)
  {
    assert t[..|t|] == t;
    CountsConcat(t, u, 0);
    forall m | 0 <= m <= |t + u| ensures TidyPrefix((t + u)[..m], k, n1 + n2, p1 + p2) {
      if m <= |t| {
        assert (t + u)[..m] == t[..m] && TidyPrefix(t[..m], k, n1, p1);
      } else {
        var v := u[..m - |t|];
        assert (t + u)[..m] == t + v && TidyPrefix(v, k + n1, n2, p2);
        CountsConcat(t, v, 0);
        forall node: nat
          ensures ConsumeBegins(t + v, node) <= (if k <= node < k + n1 + n2 then 1 else 0)
          ensures ConsumeBegins(t + v, node) > 0 ==> ProduceEnds(t + v) == p1 + p2
        {
          CountsConcat(t, v, node);
          if ConsumeBegins(v, node) == 0 && p2 == 0 { NoEnds(u, f, k + n1, n2, m - |t|); }
        }
      }
    }
    forall node: nat ensures ConsumeBegins(t + u, node) == if k <= node < k + n1 + n2 then 1 else 0 {
      CountsConcat(t, u, node);
    }
    forall i | 0 <= i < |t + u| ensures QuietEvent((t + u)[i], f) {
      if i >= |t| { assert (t + u)[i] == u[i - |t|]; }
    }
  }

  lemma {:induction false} NoEnds(t: seq<Event>, f: string, k: nat, n: nat, m: nat)
    requires Tidy(t, f, k, n, 0) && m <= |t|
    ensures ProduceEnds(t[..m]) == 0
  {
    assert t == t[..m] + t[m..];
    CountsConcat(t[..m], t[m..], 0);
  }

  lemma {:induction false} TidyQuiet(t: seq<Event>, f: string, k: nat)
    requires forall i :: 0 <= i < |t| ==>
      QuietEvent(t[i], f) && !t[i].ProduceBegin? && !t[i].ProduceEnd? && !t[i].ConsumeBegin?
    ensures Tidy(t, f, k, 0, 0)
  {
    forall m | 0 <= m <= |t| ensures TidyPrefix(t[..m], k, 0, 0) && ProduceEnds(t[..m]) == 0 {
      forall node: nat ensures Begins(t[..m]) == ProduceEnds(t[..m]) == ConsumeBegins(t[..m], node) == 0 {
        NothingCounted(t[..m], node);
      }
      NothingCounted(t[..m], 0);
    }
    assert t[..|t|] == t;
    assert ConsumeBegins(t, 0) >= 0;
  }

  lemma {:induction false} NothingCounted(t: seq<Event>, node: nat)
    requires forall i :: 0 <= i < |t| ==> !t[i].ProduceBegin? && !t[i].ProduceEnd? && !t[i].ConsumeBegin?
    ensures Begins(t) == ProduceEnds(t) == ConsumeBegins(t, node) == 0
  {
    if t != [] { NothingCounted(t[..|t| - 1], node); }
  }

  lemma {:induction false} TidyConsumeBegin(f: string, k: nat)
    ensures Tidy([ConsumeBegin(k)], f, k, 1, 0)
  {
    var t := [ConsumeBegin(k)];
    assert t[..0] == [] && t[..1] == t;
    forall m | 0 <= m <= 1 ensures TidyPrefix(t[..m], k, 1, 0) {
      if m == 0 { assert t[..m] == []; } else { assert t[..m] == t; }
    }
  }

  lemma {:induction false} TidyConsumeEnd(f: string, k: nat)
    ensures Tidy([ConsumeEnd(k)], f, k + 1, 0, 0)
  {
    TidyQuiet([ConsumeEnd(k)], f, k + 1);
  }

  lemma {:induction false} TidyProduce(t: seq<Event>, f: string, k: nat)
    requires Tidy(t, f, k, 0, 0)
    ensures Tidy([ProduceBegin] + t + [ProduceEnd], f, k, 0, 1)
  {
    var u := [ProduceBegin] + t + [ProduceEnd];
    forall m | 0 <= m <= |u| ensures TidyPrefix(u[..m], k, 0, 1) {
      ProducePrefix(t, f, k, m);
    }
    ProducePrefix(t, f, k, |u|);
    assert u[..|u|] == u;
    forall i | 0 <= i < |u| ensures QuietEvent(u[i], f) {
      if 1 <= i <= |t| { assert u[i] == t[i - 1]; }
    }
  }

  lemma {:induction false} ProducePrefix(t: seq<Event>, f: string, k: nat, m: nat)
    requires Tidy(t, f, k, 0, 0) && m <= |t| + 2
    ensures var v := ([ProduceBegin] + t + [ProduceEnd])[..m];
      && Begins(v) == (if m > 0 then 1 else 0) && ProduceEnds(v) == (if m == |t| + 2 then 1 else 0)
      && forall node: nat :: ConsumeBegins(v, node) == 0
  {
    var u := [ProduceBegin] + t + [ProduceEnd];
    if m == 0 {
      assert u[..0] == [];
    } else {
      ProducePrefix(t, f, k, m - 1);
      assert u[..m][..m - 1] == u[..m - 1];
      if 2 <= m <= |t| + 1 {
        assert u[m - 1] == t[m - 2];
        assert TidyPrefix(t[..m - 1], k, 0, 0) && t[..m - 1][..m - 2] == t[..m - 2];
        NoEnds(t, f, k, 0, m - 1);
        if t[m - 2].ConsumeBegin? { assert ConsumeBegins(t[..m - 1], t[m - 2].node) >= 1; }
      }
    }
  }

  lemma {:induction false} PlainIsTidy(s: Stmt, f: string, env: Env, k: nat, k': nat, inside: bool)
    requires Plain(s, f) && Unforked(s, f, true)
    ensures Tidy(Run(s, f, env, k, inside), f, k', 0, 0) && ConsumeNodes(s, f) == ProduceNodes(s, f) == 0
  {
    PlainRun(s, f, env, k, inside);
    PlainRunIsQuiet(s, f, env, k, inside);
    var t := Run(s, f, env, k, inside);
    forall i | 0 <= i < |t|
      ensures QuietEvent(t[i], f) && !t[i].ProduceBegin? && !t[i].ProduceEnd? && !t[i].ConsumeBegin?
    {
      assert PlainEvent(t[i], f, inside);
    }
    TidyQuiet(t, f, k');
  }

  predicate QuietTrace(t: seq<Event>, f: string) { forall i :: 0 <= i < |t| ==> QuietEvent(t[i], f) }

  lemma {:induction false} PlainRunIsQuiet(s: Stmt, f: string, env: Env, k: nat, inside: bool)
    requires Plain(s, f) && Unforked(s, f, true)
    ensures QuietTrace(Run(s, f, env, k, inside), f)
    decreases s, 0
  {
    match s
    case LetStmt(x, value, body) => PlainRunIsQuiet(body, f, env[x := Eval(value, env)], k, inside);
    case Scoped(_, body) => PlainRunIsQuiet(body, f, env, k, inside);
    case For(x, min, max, body) => PlainLoopIsQuiet(x, Eval(min, env), Eval(max, env), body, f, env, k, inside);
    case Block(first, rest) =>
      PlainRunIsQuiet(first, f, env, k, inside);
      PlainRunIsQuiet(rest, f, env, k + ConsumeNodes(first, f), inside);
    case IfThenElse(c, thenCase, elseCase) =>
      PlainRunIsQuiet(thenCase, f, env, k, inside);
      PlainRunIsQuiet(elseCase, f, env, k + ConsumeNodes(thenCase, f), inside);
    case Atomic(_, body) => PlainRunIsQuiet(body, f, env, k, inside);
    case ProducerConsumer(_, _, body) => PlainRunIsQuiet(body, f, env, k, inside);
    case _ =>
  }

  lemma {:induction false} PlainLoopIsQuiet(x: string, lo: int, hi: int, body: Stmt, f: string, env: Env, k: nat, inside: bool)
    requires Plain(body, f) && Unforked(body, f, true)
    ensures QuietTrace(RunLoop(x, lo, hi, body, f, env, k, inside), f)
    decreases body, if hi < lo then 0 else hi - lo + 1
  {
    if lo <= hi {
      PlainRunIsQuiet(body, f, env[x := lo], k, inside);
      PlainLoopIsQuiet(x, lo + 1, hi, body, f, env, k, inside);
    }
  }

  lemma {:induction false} ConsumeNodeIsTidy(body: Stmt, f: string, env: Env, k: nat)
    requires Plain(body, f) && Unforked(body, f, true)
    ensures Tidy(Run(ProducerConsumer(f, false, body), f, env, k, false), f, k, 1, 0)
    ensures ConsumeNodes(body, f) == ProduceNodes(body, f) == 0
  {
    hide Tidy, Unforked, Plain, QuietEvent;
    var t := Run(body, f, env, k + 1, false);
    PlainIsTidy(body, f, env, k + 1, k + 1, false);
    TidyConsumeBegin(f, k);
    TidyConcat([ConsumeBegin(k)], t, f, k, 1, 0, 0, 0);
    TidyConsumeEnd(f, k);
    TidyConcat([ConsumeBegin(k)] + t, [ConsumeEnd(k)], f, k, 1, 0, 0, 0);
  }

  lemma {:induction false} ProduceNodeIsTidy(body: Stmt, f: string, env: Env, k: nat)
    requires Plain(body, f) && Unforked(body, f, true)
    ensures Tidy(Run(ProducerConsumer(f, true, body), f, env, k, false), f, k, 0, 1)
    ensures ConsumeNodes(body, f) == ProduceNodes(body, f) == 0
  {
    PlainIsTidy(body, f, env, k, k, true);
    TidyProduce(Run(body, f, env, k, true), f, k);
  }

  ghost predicate IsTidy(s: Stmt, f: string, env: Env, k: nat) {
    Tidy(Run(s, f, env, k, false), f, k, ConsumeNodes(s, f), ProduceNodes(s, f))
  }

  lemma {:induction false} BlockIsTidy(first: Stmt, rest: Stmt, f: string, env: Env, k: nat, n1: nat, n2: nat, p1: nat, p2: nat)
    requires n1 == ConsumeNodes(first, f)
    requires Tidy(Run(first, f, env, k, false), f, k, n1, p1)
    requires Tidy(Run(rest, f, env, k + n1, false), f, k + n1, n2, p2)
    requires p2 > 0 ==> n1 == 0
    ensures Tidy(Run(Block(first, rest), f, env, k, false), f, k, n1 + n2, p1 + p2)
  {
    hide Tidy;
    TidyConcat(Run(first, f, env, k, false), Run(rest, f, env, k + n1, false), f, k, n1, n2, p1, p2);
  }

  lemma {:induction false} SequentialIsTidy(s: Stmt, f: string, env: Env, k: nat)
    requires Sequential(s, f) && Unforked(s, f, true)
    ensures IsTidy(s, f, env, k)
  {
    hide Tidy, Eval;
    match s
    case LetStmt(x, value, body) => SequentialIsTidy(body, f, env[x := Eval(value, env)], k);
    case Scoped(_, body) => SequentialIsTidy(body, f, env, k);
    case Block(first, rest) =>
      SequentialIsTidy(first, f, env, k);
      SequentialIsTidy(rest, f, env, k + ConsumeNodes(first, f));
      BlockIsTidy(first, rest, f, env, k, ConsumeNodes(first, f), ConsumeNodes(rest, f), ProduceNodes(first, f), ProduceNodes(rest, f));
    case ProducerConsumer(name, isProducer, body) =>
      if name != f {
        SequentialIsTidy(body, f, env, k);
      } else if isProducer {
        ProduceNodeIsTidy(body, f, env, k);
      } else {
        ConsumeNodeIsTidy(body, f, env, k);
      }
    case _ =>
      PlainIsTidy(s, f, env, k, k, false);
  }

  lemma {:induction false} SequentialIsForkable(s: Stmt, f: string)
    requires Sequential(s, f)
    ensures Forkable(s, f)
  {
    match s
    case LetStmt(_, _, body) => SequentialIsForkable(body, f);
    case Scoped(_, body) => SequentialIsForkable(body, f);
    case Block(first, rest) => SequentialIsForkable(first, f); SequentialIsForkable(rest, f);
    case ProducerConsumer(name, _, body) => if name != f { SequentialIsForkable(body, f); }
    case _ => PlainIsForkable(s, f);
  }

  /** One iteration: take a slot, run the body, give the slot back. */
  function Iteration(t: seq<Event>, f: string): seq<Event> {
    [Acquired(RingSemaphore(f), 1, false)] + t + [Released(RingSemaphore(f), 1, false)]
  }

  lemma {:induction false} IterationIsRing(t: seq<Event>, f: string, n: nat)
    requires Tidy(t, f, 0, n, 1)
    ensures RingTrace(Iteration(t, f), f, n) && Balance(Iteration(t, f), RingSemaphore(f)) == 0
    ensures ProduceEnds(Iteration(t, f)) == 1
    ensures forall node: nat :: node < n ==> ConsumeBegins(Iteration(t, f), node) == 1
  {
    var u, x := Iteration(t, f), RingSemaphore(f);
    var a, r := Acquired(x, 1, false), Released(x, 1, false);
    assert t[..|t|] == t;
    forall m | 0 <= m <= |u| ensures InOrder(u[..m], f, n) {
      if m == 0 {
        assert u[..m] == [];
      } else if m <= |t| + 1 {
        assert u[..m] == [a] + t[..m - 1] && TidyPrefix(t[..m - 1], 0, n, 1);
        StartedIteration(t, f, n, m - 1);
      } else {
        assert u[..m] == u;
        WholeIteration(t, f, n);
      }
    }
    WholeIteration(t, f, n);
    forall k | 0 <= k < |u| ensures RingEvent(u[k], f) && SerialEvent(u[k], f, n) {
      if 1 <= k <= |t| {
        assert u[k] == t[k - 1] && QuietEvent(t[k - 1], f);
        if t[k - 1].ConsumeBegin? { Seen(t, f, n, k - 1); }
      }
    }
  }

  lemma {:induction false} Seen(t: seq<Event>, f: string, n: nat, k: nat)
    requires Tidy(t, f, 0, n, 1) && k < |t| && t[k].ConsumeBegin?
    ensures t[k].node < n
  {
    assert TidyPrefix(t[..k + 1], 0, n, 1) && t[..k + 1][..k] == t[..k];
    assert ConsumeBegins(t[..k + 1], t[k].node) >= 1;
  }

  lemma {:induction false} QuietBalance(t: seq<Event>, f: string)
    requires QuietTrace(t, f)
    ensures Balance(t, RingSemaphore(f)) == 0 && Acquires(t) == 0
  {
    if t != [] {
      QuietBalance(t[..|t| - 1], f);
      assert QuietEvent(t[|t| - 1], f);
    }
  }

  lemma {:induction false} StartedIteration(t: seq<Event>, f: string, n: nat, m: nat)
    requires Tidy(t, f, 0, n, 1) && m <= |t|
    ensures InOrder([Acquired(RingSemaphore(f), 1, false)] + t[..m], f, n)
  {
    var a, v := Acquired(RingSemaphore(f), 1, false), t[..m];
    assert TidyPrefix(v, 0, n, 1);
    QuietBalance(v, f);
    BalanceConcat([a], v, RingSemaphore(f));
    BalanceOne(a, RingSemaphore(f));
    OneAcquire(a);
    forall node | 0 <= node < n ensures ConsumeBegins([a] + v, node) <= ProduceEnds([a] + v) {
      CountsConcat([a], v, node);
    }
    CountsConcat([a], v, 0);
  }

  lemma {:induction false} OneAcquire(a: Event)
    requires a.Acquired? || a.Released?
    ensures Begins([a]) == ProduceEnds([a]) == 0 && Acquires([a]) == (if a.Acquired? then 1 else 0)
    ensures forall node: nat :: ConsumeBegins([a], node) == 0
  {
    assert [a][..0] == [];
  }

  lemma {:induction false} WholeIteration(t: seq<Event>, f: string, n: nat)
    requires Tidy(t, f, 0, n, 1)
    ensures var u := Iteration(t, f);
      && InOrder(u, f, n) && Balance(u, RingSemaphore(f)) == 0 && ProduceEnds(u) == 1
      && forall node: nat :: node < n ==> ConsumeBegins(u, node) == 1
  {
    var a, r := Acquired(RingSemaphore(f), 1, false), Released(RingSemaphore(f), 1, false);
    assert t[..|t|] == t;
    QuietBalance(t, f);
    BalanceConcat([a], t, RingSemaphore(f));
    BalanceConcat([a] + t, [r], RingSemaphore(f));
    BalanceOne(a, RingSemaphore(f)); BalanceOne(r, RingSemaphore(f));
    OneAcquire(a); OneAcquire(r);
    CountsConcat([a], t, 0);
    CountsConcat([a] + t, [r], 0);
    forall node: nat ensures ConsumeBegins(Iteration(t, f), node) == ConsumeBegins(t, node) {
      CountsConcat([a], t, node);
      CountsConcat([a] + t, [r], node);
    }
  }

  // ---- The nest ----

  /** What the body does in one iteration. */
  function BodyTrace(body: Stmt, f: string): Env -> seq<Event> { e => Iteration(Run(body, f, e, 0, false), f) }

  lemma {:induction false} SlotTrace(body: Stmt, f: string, env: Env)
    ensures Run(InSlot(f, body), f, env, 0, false) == BodyTrace(body, f)(env)
  {
    BlockMakeSame(body, Release(RingSemaphore(f), 1), f, env, 0, false);
  }

  lemma {:induction false} NestTrace(ranges: seq<Range>, body: Stmt, f: string, env: Env)
    ensures Run(Nest(ranges, InSlot(f, body)), f, env, 0, false) == Flat(Environments(ranges, env), BodyTrace(body, f))
    decreases |ranges|, 1, 0
  {
    hide InSlot;
    if ranges == [] {
      SlotTrace(body, f, env);
      FlatOne(env, BodyTrace(body, f));
    } else {
      NestTraceFrom(ranges, body, f, env, 0);
    }
  }

  lemma {:induction false} NestTraceFrom(ranges: seq<Range>, body: Stmt, f: string, env: Env, i: nat)
    requires ranges != [] && i <= ranges[0].extent
    ensures RunLoop(ranges[0].name, ranges[0].min + i, ranges[0].min + ranges[0].extent - 1,
                    Nest(ranges[1..], InSlot(f, body)), f, env, 0, false)
         == Flat(From(ranges, env, i), BodyTrace(body, f))
    decreases |ranges|, 0, ranges[0].extent - i
  {
    if i < ranges[0].extent {
      var env' := env[ranges[0].name := ranges[0].min + i];
      NestTrace(ranges[1..], body, f, env');
      NestTraceFrom(ranges, body, f, env, i + 1);
      FlatConcat(Environments(ranges[1..], env'), From(ranges, env, i + 1), BodyTrace(body, f));
    }
  }

  /** Iterations one after the other form a ring trace, and each node runs once per iteration. */
  lemma {:induction false} IterationsAreRing(envs: seq<Env>, body: Stmt, f: string)
    requires Sequential(body, f) && Unforked(body, f, true) && ProduceNodes(body, f) == 1
    ensures var t := Flat(envs, BodyTrace(body, f));
      && RingTrace(t, f, ConsumeNodes(body, f)) && Balance(t, RingSemaphore(f)) == 0 && ProduceEnds(t) == |envs|
      && forall node: nat :: node < ConsumeNodes(body, f) ==> ConsumeBegins(t, node) == |envs|
  {
    var n := ConsumeNodes(body, f);
    if envs == [] {
      var t: seq<Event> := [];
      assert t[..0] == t;
    } else {
      var t, rest := Run(body, f, envs[0], 0, false), Flat(envs[1..], BodyTrace(body, f));
      SequentialIsTidy(body, f, envs[0], 0);
      IterationIsRing(t, f, n);
      IterationsAreRing(envs[1..], body, f);
      RingConcat(Iteration(t, f), rest, f, n);
      CountsConcat(Iteration(t, f), rest, 0);
      forall node: nat | node < n ensures ConsumeBegins(Iteration(t, f) + rest, node) == |envs| {
        CountsConcat(Iteration(t, f), rest, node);
      }
    }
  }

  // ---- From the program to every interleaving ----

  lemma {:induction false} IndicesKeepCounts(s: Stmt, f: string, index: Expr)
    ensures ConsumeNodes(UpdateIndices(s, f, index), f) == ConsumeNodes(s, f)
    ensures ProduceNodes(UpdateIndices(s, f, index), f) == ProduceNodes(s, f)
  {
    match s
    case LetStmt(_, _, body) => IndicesKeepCounts(body, f, index);
    case Scoped(_, body) => IndicesKeepCounts(body, f, index);
    case For(_, _, _, body) => IndicesKeepCounts(body, f, index);
    case Block(first, rest) => IndicesKeepCounts(first, f, index); IndicesKeepCounts(rest, f, index);
    case Fork(first, rest) => IndicesKeepCounts(first, f, index); IndicesKeepCounts(rest, f, index);
    case IfThenElse(_, first, rest) => IndicesKeepCounts(first, f, index); IndicesKeepCounts(rest, f, index);
    case Atomic(_, body) => IndicesKeepCounts(body, f, index);
    case ProducerConsumer(_, _, body) => IndicesKeepCounts(body, f, index);
    case Acquire(_, _, body) => IndicesKeepCounts(body, f, index);
    case _ =>
  }

  lemma {:induction false} IndicesKeepPlain(s: Stmt, f: string, index: Expr)
    ensures Plain(UpdateIndices(s, f, index), f) == Plain(s, f)
  {
    match s
    case LetStmt(_, _, body) => IndicesKeepPlain(body, f, index);
    case Scoped(_, body) => IndicesKeepPlain(body, f, index);
    case For(_, _, _, body) => IndicesKeepPlain(body, f, index);
    case Block(first, rest) => IndicesKeepPlain(first, f, index); IndicesKeepPlain(rest, f, index);
    case Fork(first, rest) => IndicesKeepPlain(first, f, index); IndicesKeepPlain(rest, f, index);
    case IfThenElse(_, first, rest) => IndicesKeepPlain(first, f, index); IndicesKeepPlain(rest, f, index);
    case Atomic(_, body) => IndicesKeepPlain(body, f, index);
    case ProducerConsumer(_, _, body) => IndicesKeepPlain(body, f, index);
    case Acquire(_, _, body) => IndicesKeepPlain(body, f, index);
    case _ =>
  }

  lemma {:induction false} IndicesKeepForks(s: Stmt, f: string, index: Expr)
    ensures forall inside :: Unforked(UpdateIndices(s, f, index), f, inside) == Unforked(s, f, inside)
  {
    match s
    case LetStmt(_, _, body) => IndicesKeepForks(body, f, index);
    case Scoped(_, body) => IndicesKeepForks(body, f, index);
    case For(_, _, _, body) => IndicesKeepForks(body, f, index);
    case Block(first, rest) => IndicesKeepForks(first, f, index); IndicesKeepForks(rest, f, index);
    case Fork(first, rest) => IndicesKeepForks(first, f, index); IndicesKeepForks(rest, f, index);
    case IfThenElse(_, first, rest) => IndicesKeepForks(first, f, index); IndicesKeepForks(rest, f, index);
    case Atomic(_, body) => IndicesKeepForks(body, f, index);
    case ProducerConsumer(_, _, body) => IndicesKeepForks(body, f, index);
    case Acquire(_, _, body) => IndicesKeepForks(body, f, index);
    case _ =>
  }

  lemma {:induction false} IndicesKeepSequence(s: Stmt, f: string, index: Expr)
    ensures Sequential(UpdateIndices(s, f, index), f) == Sequential(s, f)
  {
    hide Plain, ConsumeNodes, ProduceNodes, UpdateLeaf;
    IndicesKeepPlain(s, f, index);
    match s
    case LetStmt(_, _, body) => IndicesKeepSequence(body, f, index);
    case Scoped(_, body) => IndicesKeepSequence(body, f, index);
    case Block(first, rest) =>
      IndicesKeepSequence(first, f, index);
      IndicesKeepSequence(rest, f, index);
      IndicesKeepCounts(first, f, index);
      IndicesKeepCounts(rest, f, index);
    case ProducerConsumer(_, _, body) =>
      IndicesKeepSequence(body, f, index);
      IndicesKeepPlain(body, f, index);
    case _ =>
  }

  /** Adding a coordinate to accesses leaves the nodes of the program where they are. */
  lemma {:induction false} IndicesKeepNodes(s: Stmt, f: string, index: Expr)
    ensures var u := UpdateIndices(s, f, index);
      && ConsumeNodes(u, f) == ConsumeNodes(s, f) && ProduceNodes(u, f) == ProduceNodes(s, f)
      && Plain(u, f) == Plain(s, f) && Sequential(u, f) == Sequential(s, f)
      && forall inside :: Unforked(u, f, inside) == Unforked(s, f, inside)
  {
    hide UpdateIndices, Plain, Sequential, Unforked, ConsumeNodes, ProduceNodes;
    IndicesKeepCounts(s, f, index);
    IndicesKeepPlain(s, f, index);
    IndicesKeepForks(s, f, index);
    IndicesKeepSequence(s, f, index);
  }

  /** No storage of a ring-buffered Func and no hoisted storage inside. */
  predicate NoRings(s: Stmt, env: Schedules) {
    match s
    case LetStmt(_, _, body) => NoRings(body, env)
    case Scoped(scoping, body) =>
      && !scoping.HoistedStorage? && (scoping.Realize? ==> scoping.name in env && !IsRing(scoping.name, env))
      && NoRings(body, env)
    case For(_, _, _, body) => NoRings(body, env)
    case Block(first, rest) => NoRings(first, env) && NoRings(rest, env) && !first.Block?
    case Fork(first, rest) => NoRings(first, env) && NoRings(rest, env)
    case IfThenElse(_, thenCase, elseCase) => NoRings(thenCase, env) && NoRings(elseCase, env)
    case Atomic(_, body) => NoRings(body, env)
    case ProducerConsumer(_, _, body) => NoRings(body, env)
    case Acquire(_, _, body) => NoRings(body, env)
    case _ => true
  }

  lemma {:induction false} NoRingsUnchanged(s: Stmt, env: Schedules, loops: seq<Loop>, hoist: map<string, int>)
    requires NoRings(s, env)
    ensures Placed(s, env, |loops|, hoist) && Ringed(s, env, loops, hoist) == s
  {
    match s
    case LetStmt(_, _, body) => NoRingsUnchanged(body, env, loops, hoist);
    case Scoped(_, body) => NoRingsUnchanged(body, env, loops, hoist);
    case For(x, min, max, body) => NoRingsUnchanged(body, env, loops + [Loop(x, Extent(min, max))], hoist);
    case Block(first, rest) => NoRingsUnchanged(first, env, loops, hoist); NoRingsUnchanged(rest, env, loops, hoist);
    case Fork(first, rest) => NoRingsUnchanged(first, env, loops, hoist); NoRingsUnchanged(rest, env, loops, hoist);
    case IfThenElse(_, first, rest) => NoRingsUnchanged(first, env, loops, hoist); NoRingsUnchanged(rest, env, loops, hoist);
    case Atomic(_, body) => NoRingsUnchanged(body, env, loops, hoist);
    case ProducerConsumer(_, _, body) => NoRingsUnchanged(body, env, loops, hoist);
    case Acquire(_, _, body) => NoRingsUnchanged(body, env, loops, hoist);
    case _ =>
  }

  /** The program before injection: hoisted storage, a nest of loops, and the Realize inside. */
  function Hoisted(f: string, ranges: seq<Range>, extents: seq<Expr>, body: Stmt): Stmt {
    Scoped(HoistedStorage(f), Nest(ranges, Scoped(Realize(f, extents), body)))
  }

  lemma {:induction false} NestIsPlacedIff(f: string, ranges: seq<Range>, extents: seq<Expr>, body: Stmt, env: Schedules,
                                           loops: seq<Loop>, hoist: map<string, int>)
    requires f in env && IsRing(f, env) && NoRings(body, env) && f in hoist && hoist[f] >= -1
    ensures Placed(Nest(ranges, Scoped(Realize(f, extents), body)), env, |loops|, hoist) <==> hoist[f] + 1 < |loops| + |ranges|
  {
    hide NoRings;
    if ranges == [] {
      NoRingsUnchanged(body, env, loops, hoist);
    } else {
      var r := ranges[0];
      NestIsPlacedIff(f, ranges[1..], extents, body, env, loops + [Loop(r.name, Extent(IntImm(r.min), Max(r)))], hoist);
    }
  }

  /** Wherever the program stands, injection finds the loop it starts its index with exactly when at least one
      loop is left between the hoisted storage and the Realize. */
  lemma {:induction false} InjectionNeedsLoop(f: string, ranges: seq<Range>, extents: seq<Expr>, body: Stmt, env: Schedules,
                                              loops: seq<Loop>, hoist: map<string, int>)
    requires f in env && IsRing(f, env) && NoRings(body, env) && f !in hoist
    ensures Placed(Hoisted(f, ranges, extents, body), env, |loops|, hoist) <==> ranges != []
  {
    hide Nest, NoRings;
    NestIsPlacedIff(f, ranges, extents, body, env, loops, hoist[f := |loops| - 1]);
  }

  /** The body with the ring coordinate on its accesses to `f`. */
  function Indexed(f: string, ranges: seq<Range>, body: Stmt, ring: Expr): Stmt
    requires ranges != []
  {
    UpdateIndices(body, f, Mod(LinearExpr(Loops(ranges)), ring))
  }

  lemma {:induction false} RingedNest(f: string, all: seq<Range>, ranges: seq<Range>, extents: seq<Expr>, body: Stmt, env: Schedules,
                                      loops: seq<Loop>, hoist: map<string, int>)
    requires all != [] && f in env && env[f].ringBuffer.Defined? && NoRings(body, env)
    requires f in hoist && hoist[f] == -1 && loops + Loops(ranges) == Loops(all)
    ensures Placed(Nest(ranges, Scoped(Realize(f, extents), body)), env, |loops|, hoist)
    ensures Ringed(Nest(ranges, Scoped(Realize(f, extents), body)), env, loops, hoist)
         == var indexed := Indexed(f, all, body, env[f].ringBuffer.extent);
            Nest(ranges, Scoped(Realize(f, extents + [env[f].ringBuffer.extent]), if env[f].async then InSlot(f, indexed) else indexed))
  {
    if ranges == [] {
      NoRingsUnchanged(body, env, loops, hoist);
      assert loops == Loops(all) && loops[0..] == loops;
    } else {
      var r := ranges[0];
      var inner := loops + [Loop(r.name, Extent(IntImm(r.min), Max(r)))];
      assert inner + Loops(ranges[1..]) == Loops(all);
      RingedNest(f, all, ranges[1..], extents, body, env, inner, hoist);
    }
  }

  /** The injected nest's body, which the fork pass splits into two tasks. */
  function RingBody(f: string, ranges: seq<Range>, extents: seq<Expr>, body: Stmt, ring: Expr): Stmt
    requires ranges != []
  {
    Nest(ranges, Scoped(Realize(f, extents + [ring]), InSlot(f, Indexed(f, ranges, body, ring))))
  }

  /** Injection wraps the nest in a semaphore of two slots and each iteration in one slot. */
  lemma {:induction false} InjectedProgram(f: string, ranges: seq<Range>, extents: seq<Expr>, body: Stmt, env: Schedules)
    requires ranges != [] && f in env && env[f].async && env[f].ringBuffer.Defined? && NoRings(body, env)
    ensures Placed(Hoisted(f, ranges, extents, body), env, 0, map[])
    ensures Ringed(Hoisted(f, ranges, extents, body), env, [], map[])
         == Scoped(MakeSemaphore(RingSemaphore(f), 2),
                   Scoped(HoistedStorage(f), RingBody(f, ranges, extents, body, env[f].ringBuffer.extent)))
  {
    hide Nest, InSlot, Indexed, NoRings;
    RingedNest(f, ranges, ranges, extents, body, env, [], map[f := -1]);
  }

  /** Without `async`, injection adds the extent and the coordinate only. */
  lemma {:induction false} InjectedInPlace(f: string, ranges: seq<Range>, extents: seq<Expr>, body: Stmt, env: Schedules)
    requires ranges != [] && f in env && !env[f].async && env[f].ringBuffer.Defined? && NoRings(body, env)
    ensures Placed(Hoisted(f, ranges, extents, body), env, 0, map[])
    ensures var ring := env[f].ringBuffer.extent;
      Ringed(Hoisted(f, ranges, extents, body), env, [], map[])
        == Scoped(HoistedStorage(f), Nest(ranges, Scoped(Realize(f, extents + [ring]), Indexed(f, ranges, body, ring))))
  {
    hide Nest, InSlot, Indexed, NoRings;
    RingedNest(f, ranges, ranges, extents, body, env, [], map[f := -1]);
  }

  lemma {:induction false} NestKeeps(ranges: seq<Range>, body: Stmt, f: string)
    ensures ConsumeNodes(Nest(ranges, body), f) == ConsumeNodes(body, f)
    ensures Forkable(Nest(ranges, body), f) == Forkable(body, f)
    ensures Unforked(Nest(ranges, body), f, false) == Unforked(body, f, false)
  {
    if ranges != [] { NestKeeps(ranges[1..], body, f); }
  }

  lemma {:induction false} RealizeIsTransparent(ranges: seq<Range>, x: string, extents: seq<Expr>, body: Stmt, f: string, env: Env)
    ensures Run(Nest(ranges, Scoped(Realize(x, extents), body)), f, env, 0, false) == Run(Nest(ranges, body), f, env, 0, false)
    decreases |ranges|, 1, 0
  {
    if ranges != [] { RealizeLoop(ranges, x, extents, body, f, env, ranges[0].min); }
  }

  lemma {:induction false} RealizeLoop(ranges: seq<Range>, x: string, extents: seq<Expr>, body: Stmt, f: string, env: Env, lo: int)
    requires ranges != []
    ensures RunLoop(ranges[0].name, lo, ranges[0].min + ranges[0].extent - 1,
                    Nest(ranges[1..], Scoped(Realize(x, extents), body)), f, env, 0, false)
         == RunLoop(ranges[0].name, lo, ranges[0].min + ranges[0].extent - 1, Nest(ranges[1..], body), f, env, 0, false)
    decreases |ranges|, 0, ranges[0].min + ranges[0].extent - lo
  {
    if lo <= ranges[0].min + ranges[0].extent - 1 {
      RealizeIsTransparent(ranges[1..], x, extents, body, f, env[ranges[0].name := lo]);
      RealizeLoop(ranges, x, extents, body, f, env, lo + 1);
    }
  }

  lemma {:induction false} BlockMakeKeeps(first: Stmt, rest: Stmt, f: string, inside: bool)
    ensures Forkable(BlockMake(first, rest), f) == (Forkable(first, f) && Forkable(rest, f))
    ensures Unforked(BlockMake(first, rest), f, inside) == (Unforked(first, f, inside) && Unforked(rest, f, inside))
  {
    if first.Block? { BlockMakeKeeps(first.rest, rest, f, inside); }
  }

  lemma {:induction false} UnforkedInside(s: Stmt, f: string)
    requires Unforked(s, f, true)
    ensures Unforked(s, f, false)
  {
    match s
    case LetStmt(_, _, body) => UnforkedInside(body, f);
    case Scoped(_, body) => UnforkedInside(body, f);
    case For(_, _, _, body) => UnforkedInside(body, f);
    case Block(first, rest) => UnforkedInside(first, f); UnforkedInside(rest, f);
    case IfThenElse(_, first, rest) => UnforkedInside(first, f); UnforkedInside(rest, f);
    case Atomic(_, body) => UnforkedInside(body, f);
    case ProducerConsumer(name, isProducer, body) => UnforkedInside(body, f);
    case Acquire(_, _, body) => UnforkedInside(body, f);
    case _ =>
  }

  /** The injected body can be forked, and its serial trace is one ring iteration after another. */
  lemma {:induction false} RingBodyTrace(f: string, ranges: seq<Range>, extents: seq<Expr>, body: Stmt, ring: Expr, env: Env)
    requires ranges != [] && Sequential(body, f) && Unforked(body, f, true) && ProduceNodes(body, f) == 1
    ensures var s, n := RingBody(f, ranges, extents, body, ring), ConsumeNodes(body, f);
      var t := Run(s, f, env, 0, false);
      && Forkable(s, f) && Unforked(s, f, false) && ConsumeNodes(s, f) == n
      && RingTrace(t, f, n) && Balance(t, RingSemaphore(f)) == 0 && ProduceEnds(t) == Iterations(ranges)
      && forall node: nat :: node < n ==> ConsumeBegins(t, node) == Iterations(ranges)
  {
    hide Nest, UpdateIndices, Sequential, RingTrace, Environments, Iterations, Plain, BlockMake;
    var indexed := Indexed(f, ranges, body, ring);
    var release := Release(RingSemaphore(f), 1);
    IndicesKeepNodes(body, f, Mod(LinearExpr(Loops(ranges)), ring));
    SequentialIsForkable(indexed, f);
    UnforkedInside(indexed, f);
    BlockMakeKeeps(indexed, release, f, false);
    BlockMakeSame(indexed, release, f, env, 0, false);
    NestKeeps(ranges, Scoped(Realize(f, extents + [ring]), InSlot(f, indexed)), f);
    RealizeIsTransparent(ranges, f, extents + [ring], InSlot(f, indexed), f, env);
    NestTrace(ranges, indexed, f, env);
    IterationsAreRing(Environments(ranges, env), indexed, f);
    CountEnvironments(ranges, env);
  }

  /** Each consumed slot is intact: while the consumer is in iteration u, iteration u has been produced
      and no later produce has begun on its slot. */
  ghost predicate SlotsKept(t: seq<Event>, f: string, n: nat, s: State, base: int, ring: int) {
    forall m: nat, u: nat :: Consuming(t, f, n, s, m, u) ==>
      && s.i <= |Producer(t, f, n)|
      && (forall v :: u < v < Begins(Producer(t, f, n)[..s.i]) ==> Slot(base, ring, v) != Slot(base, ring, u))
      && (forall q :: 0 <= q < |t| && t[q].ProduceEnd? && ProduceEnds(t[..q]) <= u ==> s.i > |Producer(t[..q], f, n)|)
  }

  /** A ring of two or more slots around a forked nest is safe in every interleaving: no slot is
      overwritten before it is consumed, nothing hangs, and every run ends with all consume
      semaphores at zero and both slots free. */
  lemma {:induction false} RingNestIsSafe(f: string, ranges: seq<Range>, extents: seq<Expr>, body: Stmt, ring: nat,
                                          producer: Stmt, consumer: Stmt, env: Env, init: Counts, path: seq<State>)
    requires ranges != [] && Sequential(body, f) && Unforked(body, f, true) && ProduceNodes(body, f) == 1
    requires SplitsTrace(producer, consumer, RingBody(f, ranges, extents, body, IntImm(ring)), f)
    requires FreshSemaphores(init, f) && Count(init, RingSemaphore(f)) == 2
    requires IsRun(Run(producer, f, env, 0, false), Run(consumer, f, env, 0, false), init, path)
    ensures var p, c, s, n := Run(producer, f, env, 0, false), Run(consumer, f, env, 0, false), path[|path| - 1], ConsumeNodes(body, f);
      && |path| <= |p| + |c| + 1 && !Stuck(p, c, s)
      && (Finished(p, c, s) ==> Count(s.sem, RingSemaphore(f)) == 2
                                && forall node :: 0 <= node < n ==> Count(s.sem, SemaphoreOf(f, n, node)) == 0)
      && (ring >= 2 ==>
          SlotsKept(Run(RingBody(f, ranges, extents, body, IntImm(ring)), f, env, 0, false), f, n, s, Base(ranges), ring))
  {
    var whole, n := RingBody(f, ranges, extents, body, IntImm(ring)), ConsumeNodes(body, f);
    var t := Run(whole, f, env, 0, false);
    RingBodyTrace(f, ranges, extents, body, IntImm(ring), env);
    var p, c, s := Producer(t, f, n), Consumer(t, f, n), path[|path| - 1];
    assert Run(producer, f, env, 0, false) == p && Run(consumer, f, env, 0, false) == c;
    RunsAreFinite(p, c, init, path);
    RingIsReady(t, f, n, init);
    NeverStuck(t, f, n, init, path);
    if Finished(p, c, s) {
      FinalCounts(t, f, n, init, path);
    }
    if ring >= 2 {
      RingKeepsSlots(t, f, n, init, path, Base(ranges), ring);
    }
  }

  lemma {:induction false} RingKeepsSlots(t: seq<Event>, f: string, n: nat, init: Counts, path: seq<State>, base: int, ring: int)
    requires RingTrace(t, f, n) && FreshSemaphores(init, f) && Count(init, RingSemaphore(f)) == 2 && ring >= 2
    requires IsRun(Producer(t, f, n), Consumer(t, f, n), init, path)
    ensures SlotsKept(t, f, n, path[|path| - 1], base, ring)
  {
    var s := path[|path| - 1];
    forall m: nat, u: nat | Consuming(t, f, n, s, m, u)
      ensures s.i <= |Producer(t, f, n)|
      ensures forall v :: u < v < Begins(Producer(t, f, n)[..s.i]) ==> Slot(base, ring, v) != Slot(base, ring, u)
      ensures forall q :: 0 <= q < |t| && t[q].ProduceEnd? && ProduceEnds(t[..q]) <= u ==> s.i > |Producer(t[..q], f, n)|
    {
      SlotIsKept(t, f, n, init, path, base, ring, m, u);
    }
  }
}
