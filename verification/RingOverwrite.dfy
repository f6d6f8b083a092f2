/** Exactly when a ring around a forked nest is too small. */
module RingOverwrite {
  import opened AsyncIR
  import opened AsyncFork
  import opened TaskPair
  import opened ForkProtocol
  import opened ForkPass
  import opened RingIndex
  import opened RingProtocol
  import opened RingBuffer
  import opened RingNest
  import opened Flatten

  /** A run that lets the producer do `i` events and then the consumer `j`. */
  lemma {:induction false} RunTo(p: seq<Event>, c: seq<Event>, init: Counts, i: nat, j: nat) returns (path: seq<State>)
    requires NonNegative(init) && i <= |p| && j <= |c|
    requires forall k :: 0 <= k < i && p[k].Acquired? ==> Count(init, p[k].sema) + Balance(p[..k], p[k].sema) >= p[k].count
    requires forall k :: 0 <= k < j && c[k].Acquired? ==>
      Count(init, c[k].sema) + Balance(p[..i], c[k].sema) + Balance(c[..k], c[k].sema) >= c[k].count
    ensures IsRun(p, c, init, path) && path[|path| - 1].i == i && path[|path| - 1].j == j
  {
    path := [State(0, 0, init)];
    assert c[..0] == [];
    path := ProducerGoes(p, c, init, path, i);
    path := ConsumerGoes(p, c, init, path, j);
  }

  /** Which serial event the producer's k-th event belongs to. */
  lemma {:induction false} ProducerAt(t: seq<Event>, f: string, n: nat, k: nat) returns (m: nat)
    requires k < |Producer(t, f, n)|
    ensures m < |t| && |Producer(t[..m], f, n)| <= k < |Producer(t[..m + 1], f, n)|
  {
    assert t[..0] == [];
    m := Frontier(t, f, n, k, |Consumer(t, f, n)|, 0);
    PrefixOf(t, if m < |t| then m + 1 else m, ConsumerShares(f, ConsumeSemaphores(f, n)));
    assert t[..|t|] == t;
  }

  lemma {:induction false} ConsumerAt(t: seq<Event>, f: string, n: nat, k: nat) returns (m: nat)
    requires k < |Consumer(t, f, n)|
    ensures m < |t| && |Consumer(t[..m], f, n)| <= k < |Consumer(t[..m + 1], f, n)|
  {
    assert t[..0] == [];
    m := Frontier(t, f, n, |Producer(t, f, n)|, k, 0);
    PrefixOf(t, if m < |t| then m + 1 else m, ProducerShares(f, ConsumeSemaphores(f, n)));
    assert t[..|t|] == t;
  }

  lemma {:induction false} SharesGrow(t: seq<Event>, f: string, n: nat, a: nat, b: nat)
    requires a <= b <= |t|
    ensures Producer(t[..a], f, n) <= Producer(t[..b], f, n) <= Producer(t, f, n)
    ensures Consumer(t[..a], f, n) <= Consumer(t[..b], f, n) <= Consumer(t, f, n)
  {
    assert t[..b][..a] == t[..a];
    var ps, cs := ProducerShares(f, ConsumeSemaphores(f, n)), ConsumerShares(f, ConsumeSemaphores(f, n));
    PrefixOf(t[..b], a, ps); PrefixOf(t, b, ps);
    PrefixOf(t[..b], a, cs); PrefixOf(t, b, cs);
  }

  lemma {:induction false} CountsGrow(t: seq<Event>, a: nat, b: nat)
    requires a <= b <= |t|
    ensures Acquires(t[..a]) <= Acquires(t[..b]) && Begins(t[..a]) <= Begins(t[..b])
  {
    assert t[..b] == t[..a] + t[a..b];
    CountsConcat(t[..a], t[a..b], 0);
  }

  lemma {:induction false} RingEventAt(t: seq<Event>, f: string, n: nat, m: nat)
    requires RingTrace(t, f, n) && m < |t|
    ensures SerialEvent(t[m], f, n) && RingEvent(t[m], f)
  {
  }

  lemma {:induction false} RingPrefix(t: seq<Event>, f: string, n: nat, m: nat)
    requires RingTrace(t, f, n) && m <= |t|
    ensures SerialTrace(t[..m], f, n) && (forall k :: 0 <= k < m ==> RingEvent(t[..m][k], f)) && InOrder(t[..m], f, n)
  {
  }

  /** With two free slots the producer can do everything up to the third acquire without the consumer. */
  lemma {:induction false} ProducerNeedsNobody(t: seq<Event>, f: string, n: nat, init: Counts, q: nat, k: nat)
    requires RingTrace(t, f, n) && Count(init, RingSemaphore(f)) == 2 && q <= |t| && Acquires(t[..q]) <= 2
    requires k < |Producer(t[..q], f, n)|
    ensures k < |Producer(t, f, n)|
    ensures Producer(t, f, n)[k].Acquired? ==>
      Count(init, Producer(t, f, n)[k].sema) + Balance(Producer(t, f, n)[..k], Producer(t, f, n)[k].sema) >= Producer(t, f, n)[k].count
  {
    hide RingTrace, FreshSemaphores;
    SharesGrow(t, f, n, q, q);
    var p := Producer(t, f, n);
    var m := ProducerAt(t, f, n, k);
    if m >= q { SharesGrow(t, f, n, q, m); }
    Within(t, m, ProducerShares(f, ConsumeSemaphores(f, n)), k);
    var o := k - |Producer(t[..m], f, n)|;
    assert SerialEvent(t[m], f, n) && RingEvent(t[m], f) by { RingEventAt(t, f, n, m); }
    WaitsComeFirst(t[m], f, n, o);
    if p[k].Acquired? {
      assert p[..k] == Producer(t[..m], f, n);
      RingPrefix(t, f, n, m);
      ProducerCounts(t[..m], f, n);
      CountsGrow(t, m + 1, q);
      assert t[..m + 1][..m] == t[..m];
    }
  }

  // ---- Overtaking ----

  lemma {:induction false} FirstConsume(t: seq<Event>, node: nat) returns (m: nat)
    requires ConsumeBegins(t, node) > 0
    ensures m < |t| && t[m].ConsumeBegin? && forall i :: 0 <= i < m ==> !t[i].ConsumeBegin?
  {
    if x :| 0 <= x < |t| - 1 && t[x].ConsumeBegin? {
      m := EarliestConsume(t, x);
    } else {
      m := |t| - 1;
      if !t[m].ConsumeBegin? { NoConsume(t, node); }
    }
  }

  lemma {:induction false} EarliestConsume(t: seq<Event>, x: nat) returns (m: nat)
    requires x < |t| && t[x].ConsumeBegin?
    ensures m <= x && t[m].ConsumeBegin? && forall i :: 0 <= i < m ==> !t[i].ConsumeBegin?
  {
    if y :| 0 <= y < x && t[y].ConsumeBegin? { m := EarliestConsume(t, y); } else { m := x; }
  }

  lemma {:induction false} NoConsume(t: seq<Event>, node: nat)
    requires forall i :: 0 <= i < |t| ==> !t[i].ConsumeBegin?
    ensures ConsumeBegins(t, node) == 0
  {
    if t != [] { NoConsume(t[..|t| - 1], node); }
  }

  /** Before its end, an iteration holds its slot. */
  lemma {:induction false} HoldsSlot(t: seq<Event>, f: string, n: nat, m: nat)
    requires Tidy(t, f, 0, n, 1) && 0 < m <= |t| + 1
    ensures Acquires(Iteration(t, f)[..m]) == 1 && Balance(Iteration(t, f)[..m], RingSemaphore(f)) == -1
  {
    var a, v := Acquired(RingSemaphore(f), 1, false), t[..m - 1];
    assert Iteration(t, f)[..m] == [a] + v;
    QuietBalance(v, f);
    BalanceConcat([a], v, RingSemaphore(f));
    BalanceOne(a, RingSemaphore(f));
    OneAcquire(a);
    CountsConcat([a], v, 0);
  }

  lemma {:induction false} IterationCounts(t: seq<Event>, f: string, n: nat)
    requires Tidy(t, f, 0, n, 1)
    ensures Acquires(Iteration(t, f)) == Begins(Iteration(t, f)) == ProduceEnds(Iteration(t, f)) == 1
  {
    var u, r := Iteration(t, f), Released(RingSemaphore(f), 1, false);
    var a := Acquired(RingSemaphore(f), 1, false);
    HoldsSlot(t, f, n, |t| + 1);
    assert u == u[..|t| + 1] + [r] && u[..|t| + 1] == [a] + t;
    OneAcquire(a); OneAcquire(r);
    CountsConcat([a], t, 0);
    CountsConcat([a] + t, [r], 0);
  }

  /** Up to its first consume node the consumer waits for one produce only, and gives no slot back. */
  lemma {:induction false} ConsumerNeedsOneProduce(t: seq<Event>, f: string, n: nat, init: Counts, q: nat, m: nat, k: nat)
    requires RingTrace(t, f, n) && NonNegative(init) && m < q <= |t| && ProduceEnds(t[..q]) >= 1
    requires t[m].ConsumeBegin? && forall i :: 0 <= i < m ==> !t[i].ConsumeBegin?
    requires k < |Consumer(t[..m + 1], f, n)|
    ensures k < |Consumer(t, f, n)|
    ensures var e := Consumer(t, f, n)[k]; e.Acquired? ==>
      Count(init, e.sema) + Balance(Producer(t[..q], f, n), e.sema) + Balance(Consumer(t, f, n)[..k], e.sema) >= e.count
  {
    hide RingTrace;
    SharesGrow(t, f, n, m + 1, m + 1);
    var c := Consumer(t, f, n);
    var r := ConsumerAt(t, f, n, k);
    if r > m { SharesGrow(t, f, n, m + 1, r); }
    Within(t, r, ConsumerShares(f, ConsumeSemaphores(f, n)), k);
    RingEventAt(t, f, n, r);
    WaitsComeFirst(t[r], f, n, k - |Consumer(t[..r], f, n)|);
    if c[k].Acquired? {
      assert r == m && c[..k] == Consumer(t[..m], f, n);
      RingPrefix(t, f, n, m);
      RingPrefix(t, f, n, q);
      NoConsume(t[..m], t[m].node);
      ConsumerBalance(t[..m], f, n, t[m].node);
      ProducerBalance(t[..q], f, n, SemaphoreOf(f, n, t[m].node).index);
    }
  }

  /** The first iteration's consume is under way and the second iteration's produce has begun. */
  ghost predicate Overtaken(t: seq<Event>, f: string, n: nat, s: State) {
    && s.i <= |Producer(t, f, n)| && Begins(Producer(t, f, n)[..s.i]) >= 2
    && exists m: nat :: Consuming(t, f, n, s, m, 0)
  }

  /** Two free slots let the producer finish two iterations before the consumer is done with the first. */
  lemma {:induction false} Overtakes(t0: seq<Event>, t1: seq<Event>, rest: seq<Event>, f: string, n: nat, init: Counts)
      returns (path: seq<State>)
    requires Tidy(t0, f, 0, n, 1) && Tidy(t1, f, 0, n, 1) && n > 0
    requires FreshSemaphores(init, f) && Count(init, RingSemaphore(f)) == 2
    requires RingTrace(Iteration(t0, f) + (Iteration(t1, f) + rest), f, n)
    ensures var t := Iteration(t0, f) + (Iteration(t1, f) + rest);
      IsRun(Producer(t, f, n), Consumer(t, f, n), init, path) && Overtaken(t, f, n, path[|path| - 1])
  {
    hide RingTrace, Tidy, Consuming, FreshSemaphores, Iteration, Balance;
    var t := Iteration(t0, f) + (Iteration(t1, f) + rest);
    TwoBegun(t0, t1, rest, f, n);
    var q := |Iteration(t0, f) + Iteration(t1, f)|;
    var m := FirstHeld(t0, Iteration(t1, f) + rest, f, n);
    RunInvariantsHold(init, f);
    path := RunPast(t, f, n, init, q, m);
    RingPrefix(t, f, n, q);
    ProducerCounts(t[..q], f, n);
    SharesGrow(t, f, n, q, q);
    assert Producer(t, f, n)[..path[|path| - 1].i] == Producer(t[..q], f, n);
    StartedFirst(t, f, n, path[|path| - 1], m);
  }

  lemma {:induction false} RunInvariantsHold(init: Counts, f: string)
    requires FreshSemaphores(init, f)
    ensures NonNegative(init)
  {
  }

  /** The producer alone up to the event at q, then the consumer up to its first consume at m. */
  lemma {:induction false} RunPast(t: seq<Event>, f: string, n: nat, init: Counts, q: nat, m: nat) returns (path: seq<State>)
    requires RingTrace(t, f, n) && NonNegative(init) && Count(init, RingSemaphore(f)) == 2
    requires m < q <= |t| && Acquires(t[..q]) <= 2 && ProduceEnds(t[..q]) >= 1
    requires t[m].ConsumeBegin? && forall i :: 0 <= i < m ==> !t[i].ConsumeBegin?
    ensures IsRun(Producer(t, f, n), Consumer(t, f, n), init, path)
    ensures path[|path| - 1].i == |Producer(t[..q], f, n)| && path[|path| - 1].j == |Consumer(t[..m + 1], f, n)|
  {
    hide RingTrace, IsRun, Balance;
    var i, j := |Producer(t[..q], f, n)|, |Consumer(t[..m + 1], f, n)|;
    SharesGrow(t, f, n, q, q);
    SharesGrow(t, f, n, m, m + 1);
    var p, c := Producer(t, f, n), Consumer(t, f, n);
    assert p[..i] == Producer(t[..q], f, n);
    forall k | 0 <= k < i && p[k].Acquired? ensures Count(init, p[k].sema) + Balance(p[..k], p[k].sema) >= p[k].count {
      ProducerNeedsNobody(t, f, n, init, q, k);
    }
    forall k | 0 <= k < j && c[k].Acquired?
      ensures Count(init, c[k].sema) + Balance(p[..i], c[k].sema) + Balance(c[..k], c[k].sema) >= c[k].count
    {
      ConsumerNeedsOneProduce(t, f, n, init, q, m, k);
    }
    path := RunTo(p, c, init, i, j);
  }

  lemma {:induction false} TwoBegun(t0: seq<Event>, t1: seq<Event>, rest: seq<Event>, f: string, n: nat)
    requires Tidy(t0, f, 0, n, 1) && Tidy(t1, f, 0, n, 1)
    ensures var t, q := Iteration(t0, f) + (Iteration(t1, f) + rest), |Iteration(t0, f) + Iteration(t1, f)|;
      |t0| + 2 <= q <= |t| && Begins(t[..q]) == ProduceEnds(t[..q]) == Acquires(t[..q]) == 2
  {
    hide Tidy;
    var t, two := Iteration(t0, f) + (Iteration(t1, f) + rest), Iteration(t0, f) + Iteration(t1, f);
    assert t[..|two|] == two;
    IterationCounts(t0, f, n);
    IterationCounts(t1, f, n);
    CountsConcat(Iteration(t0, f), Iteration(t1, f), 0);
  }

  /** The first consume of the first iteration, which still holds its slot. */
  lemma {:induction false} FirstHeld(t0: seq<Event>, rest: seq<Event>, f: string, n: nat) returns (m: nat)
    requires Tidy(t0, f, 0, n, 1) && n > 0
    ensures var t := Iteration(t0, f) + rest;
      && m <= |t0| && m + 1 <= |t| && t[m].ConsumeBegin? && (forall i :: 0 <= i < m ==> !t[i].ConsumeBegin?)
      && Acquires(t[..m + 1]) == 1 && Balance(t[..m + 1], RingSemaphore(f)) == -1
  {
    hide Tidy, Balance;
    m := FirstConsumeOf(t0, f, n);
    var t := Iteration(t0, f) + rest;
    assert forall i :: 0 <= i <= |t0| ==> t[i] == Iteration(t0, f)[i];
    assert t[..m + 1] == Iteration(t0, f)[..m + 1];
    HoldsSlot(t0, f, n, m + 1);
  }

  lemma {:induction false} FirstConsumeOf(t: seq<Event>, f: string, n: nat) returns (m: nat)
    requires Tidy(t, f, 0, n, 1) && n > 0
    ensures 0 < m <= |t| && Iteration(t, f)[m].ConsumeBegin? && forall i :: 0 <= i < m ==> !Iteration(t, f)[i].ConsumeBegin?
  {
    assert ConsumeBegins(t, 0) == 1;
    var k := FirstConsume(t, 0);
    m := k + 1;
    forall i | 0 <= i < m ensures !Iteration(t, f)[i].ConsumeBegin? {
      if i > 0 { assert Iteration(t, f)[i] == t[i - 1]; }
    }
  }

  lemma {:induction false} StartedFirst(t: seq<Event>, f: string, n: nat, s: State, m: nat)
    requires RingTrace(t, f, n) && m < |t| && t[m].ConsumeBegin? && forall i :: 0 <= i < m ==> !t[i].ConsumeBegin?
    requires Acquires(t[..m + 1]) == 1 && Balance(t[..m + 1], RingSemaphore(f)) == -1
    requires s.j == |Consumer(t[..m + 1], f, n)|
    ensures Consuming(t, f, n, s, m, 0)
  {
    hide RingTrace;
    RingPrefix(t, f, n, m + 1);
    NoConsume(t[..m], t[m].node);
    SharesGrow(t, f, n, m + 1, m + 1);
    SplitAt(t, m, ConsumerShares(f, ConsumeSemaphores(f, n)));
    ProducerCounts(t[..m + 1], f, n);
    OtherBalance(t[..m + 1], f, n, RingSemaphore(f));
    assert Consumer(t, f, n)[..s.j] == Consumer(t[..m + 1], f, n);
  }

  // ---- The condition ----

  lemma {:induction false} BeginsAtMost(t: seq<Event>, f: string, n: nat, i: nat)
    requires RingTrace(t, f, n) && i <= |Producer(t, f, n)|
    ensures Begins(Producer(t, f, n)[..i]) <= Begins(t)
  {
    assert t[..|t|] == t;
    ProducerCounts(t, f, n);
    var p := Producer(t, f, n);
    assert p[..|p|] == p;
    CountsGrow(p, i, |p|);
  }

  /** A nest of at most one iteration needs no second slot. */
  lemma {:induction false} OneIterationIsKept(t: seq<Event>, f: string, n: nat, init: Counts, path: seq<State>, base: int, ring: int)
    requires RingTrace(t, f, n) && FreshSemaphores(init, f) && Begins(t) <= 1
    requires IsRun(Producer(t, f, n), Consumer(t, f, n), init, path)
    ensures SlotsKept(t, f, n, path[|path| - 1], base, ring)
  {
    var s := path[|path| - 1];
    RunInvariant(Producer(t, f, n), Consumer(t, f, n), init, path, |path| - 1);
    BeginsAtMost(t, f, n, s.i);
    forall m: nat, u: nat, q | Consuming(t, f, n, s, m, u) && 0 <= q < |t| && t[q].ProduceEnd? && ProduceEnds(t[..q]) <= u
      ensures s.i > |Producer(t[..q], f, n)|
    {
      ConsumeAfterProduce(t, f, n, init, path, m, q);
    }
  }

  lemma {:induction false} OvertakenIsLost(t: seq<Event>, f: string, n: nat, s: State, base: int, ring: nat)
    requires Overtaken(t, f, n, s) && ring < 2
    ensures !SlotsKept(t, f, n, s, base, ring)
  {
    var m: nat :| Consuming(t, f, n, s, m, 0);
    assert Slot(base, ring, 1) == Slot(base, ring, 0);
  }

  /** The trace of two or more iterations, cut after the second. */
  lemma {:induction false} TwoIterations(envs: seq<Env>, body: Stmt, f: string)
      returns (t0: seq<Event>, t1: seq<Event>, rest: seq<Event>)
    requires Sequential(body, f) && Unforked(body, f, true) && ProduceNodes(body, f) == 1 && |envs| >= 2
    ensures Tidy(t0, f, 0, ConsumeNodes(body, f), 1) && Tidy(t1, f, 0, ConsumeNodes(body, f), 1)
    ensures Flat(envs, BodyTrace(body, f)) == Iteration(t0, f) + (Iteration(t1, f) + rest)
  {
    hide Tidy, Iteration;
    t0, t1 := Run(body, f, envs[0], 0, false), Run(body, f, envs[1], 0, false);
    rest := Flat(envs[2..], BodyTrace(body, f));
    SequentialIsTidy(body, f, envs[0], 0);
    SequentialIsTidy(body, f, envs[1], 0);
    assert envs[1..][1..] == envs[2..];
  }

  ghost predicate AlwaysKept(p: seq<Event>, c: seq<Event>, init: Counts, t: seq<Event>, f: string, n: nat, base: int, ring: int) {
    forall path :: IsRun(p, c, init, path) ==> SlotsKept(t, f, n, path[|path| - 1], base, ring)
  }

  /** For every injected nest with a consume node: no run loses a slot before it is consumed exactly when
      the ring has two slots or the nest runs at most once.  Otherwise some run overtakes the consumer. */
  lemma {:induction false} RingSufficesIff(f: string, ranges: seq<Range>, extents: seq<Expr>, body: Stmt, ring: nat,
                                           producer: Stmt, consumer: Stmt, env: Env, init: Counts)
    requires ranges != [] && Sequential(body, f) && Unforked(body, f, true) && ProduceNodes(body, f) == 1
    requires ConsumeNodes(body, f) > 0
    requires SplitsTrace(producer, consumer, RingBody(f, ranges, extents, body, IntImm(ring)), f)
    requires FreshSemaphores(init, f) && Count(init, RingSemaphore(f)) == 2
    ensures var p, c := Run(producer, f, env, 0, false), Run(consumer, f, env, 0, false);
      var t, n := Run(RingBody(f, ranges, extents, body, IntImm(ring)), f, env, 0, false), ConsumeNodes(body, f);
      && (AlwaysKept(p, c, init, t, f, n, Base(ranges), ring) <==> ring >= 2 || Iterations(ranges) <= 1)
      && (ring < 2 && Iterations(ranges) >= 2 ==>
            exists path :: IsRun(p, c, init, path) && Overtaken(t, f, n, path[|path| - 1]))
  {
    hide Run, RingBody, RingTrace, SlotsKept, Overtaken;
    var whole, n := RingBody(f, ranges, extents, body, IntImm(ring)), ConsumeNodes(body, f);
    var t := Run(whole, f, env, 0, false);
    RingBodyTrace(f, ranges, extents, body, IntImm(ring), env);
    var p, c := Producer(t, f, n), Consumer(t, f, n);
    assert Run(producer, f, env, 0, false) == p && Run(consumer, f, env, 0, false) == c;
    if ring < 2 && Iterations(ranges) >= 2 {
      var path := OvertakingRun(f, ranges, extents, body, IntImm(ring), env, init);
      OvertakenIsLost(t, f, n, path[|path| - 1], Base(ranges), ring);
    } else {
      forall path | IsRun(p, c, init, path) ensures SlotsKept(t, f, n, path[|path| - 1], Base(ranges), ring) {
        if ring >= 2 {
          RingKeepsSlots(t, f, n, init, path, Base(ranges), ring);
        } else {
          BeginsAreIterations(f, ranges, extents, body, IntImm(ring), env);
          OneIterationIsKept(t, f, n, init, path, Base(ranges), ring);
        }
      }
    }
  }

  /** The injected nest's trace, iteration by iteration. */
  lemma {:induction false} NestIsFlat(f: string, ranges: seq<Range>, extents: seq<Expr>, body: Stmt, ring: Expr, env: Env)
    requires ranges != [] && Sequential(body, f) && Unforked(body, f, true)
    ensures var indexed := Indexed(f, ranges, body, ring);
      && Run(RingBody(f, ranges, extents, body, ring), f, env, 0, false) == Flat(Environments(ranges, env), BodyTrace(indexed, f))
      && Sequential(indexed, f) && Unforked(indexed, f, true) && ProduceNodes(indexed, f) == ProduceNodes(body, f)
      && ConsumeNodes(indexed, f) == ConsumeNodes(body, f) && |Environments(ranges, env)| == Iterations(ranges)
  {
    hide Nest, UpdateIndices, Sequential, Environments, Iterations;
    var indexed := Indexed(f, ranges, body, ring);
    IndicesKeepNodes(body, f, Mod(LinearExpr(Loops(ranges)), ring));
    RealizeIsTransparent(ranges, f, extents + [ring], InSlot(f, indexed), f, env);
    NestTrace(ranges, indexed, f, env);
    CountEnvironments(ranges, env);
  }

  lemma {:induction false} OvertakingRun(f: string, ranges: seq<Range>, extents: seq<Expr>, body: Stmt, ring: Expr, env: Env,
                                         init: Counts) returns (path: seq<State>)
    requires ranges != [] && Sequential(body, f) && Unforked(body, f, true) && ProduceNodes(body, f) == 1
    requires ConsumeNodes(body, f) > 0 && Iterations(ranges) >= 2
    requires FreshSemaphores(init, f) && Count(init, RingSemaphore(f)) == 2
    ensures var t, n := Run(RingBody(f, ranges, extents, body, ring), f, env, 0, false), ConsumeNodes(body, f);
      IsRun(Producer(t, f, n), Consumer(t, f, n), init, path) && Overtaken(t, f, n, path[|path| - 1])
  {
    hide Run, RingBody, RingTrace, Overtaken, Indexed, Tidy, Iteration, Flat;
    NestIsFlat(f, ranges, extents, body, ring, env);
    var indexed := Indexed(f, ranges, body, ring);
    var t0, t1, rest := TwoIterations(Environments(ranges, env), indexed, f);
    IterationsAreRing(Environments(ranges, env), indexed, f);
    path := Overtakes(t0, t1, rest, f, ConsumeNodes(body, f), init);
  }

  lemma {:induction false} BeginsAreIterations(f: string, ranges: seq<Range>, extents: seq<Expr>, body: Stmt, ring: Expr, env: Env)
    requires ranges != [] && Sequential(body, f) && Unforked(body, f, true) && ProduceNodes(body, f) == 1
    ensures Begins(Run(RingBody(f, ranges, extents, body, ring), f, env, 0, false)) == Iterations(ranges)
  {
    hide Run, RingBody, Indexed;
    NestIsFlat(f, ranges, extents, body, ring, env);
    CountIterations(Environments(ranges, env), Indexed(f, ranges, body, ring), f);
  }

  lemma {:induction false} CountIterations(envs: seq<Env>, body: Stmt, f: string)
    requires Sequential(body, f) && Unforked(body, f, true) && ProduceNodes(body, f) == 1
    ensures var t := Flat(envs, BodyTrace(body, f)); Begins(t) == |envs| && Acquires(t) == |envs|
  {
    hide Sequential, Unforked, Tidy;
    if envs != [] {
      var t := Run(body, f, envs[0], 0, false);
      SequentialIsTidy(body, f, envs[0], 0);
      IterationCounts(t, f, ConsumeNodes(body, f));
      CountIterations(envs[1..], body, f);
      CountsConcat(Iteration(t, f), Flat(envs[1..], BodyTrace(body, f)), 0);
    }
  }
}
