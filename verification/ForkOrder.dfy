/** Exactly which produces a forked body makes a consume wait for. */
module ForkOrder {
  import opened AsyncIR
  import opened AsyncFork
  import opened ForkInput
  import opened TaskPair
  import opened ForkProtocol
  import opened ForkPass

  /** Whatever the interleaving, the consume at `m` starts only after the produce that ends at `q` is done. */
  ghost predicate ProducedFirst(p: seq<Event>, c: seq<Event>, t: seq<Event>, f: string, n: nat, init: Counts, q: nat, m: nat)
    requires q <= |t| && m <= |t|
  {
    forall path: seq<State> :: IsRun(p, c, init, path) && path[|path| - 1].j > |Consumer(t[..m], f, n)|
      ==> path[|path| - 1].i > |Producer(t[..q], f, n)|
  }

  /** Some consume up to the one at `m` is, among those of its node, at least as late as the produce at `q`
      is among the produces. */
  ghost predicate WaitedFor(t: seq<Event>, q: nat, m: nat)
    requires q < |t| && m < |t|
  {
    exists k :: 0 <= k <= m && t[k].ConsumeBegin? && ConsumeBegins(t[..k], t[k].node) >= ProduceEnds(t[..q])
  }

  /** A run in which the consume at `m` has started and the produce at `q` has not ended. */
  ghost predicate Overtakes(p: seq<Event>, c: seq<Event>, t: seq<Event>, f: string, n: nat, init: Counts, q: nat, m: nat, path: seq<State>)
    requires q <= |t| && m < |t|
  {
    && IsRun(p, c, init, path)
    && path[|path| - 1].i == |Producer(t[..q], f, n)| && path[|path| - 1].j == |Consumer(t[..m + 1], f, n)|
  }

  lemma {:induction false} ConsumerGrows(t: seq<Event>, f: string, n: nat, a: nat, b: nat)
    requires a <= b <= |t|
    ensures |Consumer(t[..a], f, n)| <= |Consumer(t[..b], f, n)|
  {
    assert t[..b][..a] == t[..a];
    PrefixOf(t[..b], a, ConsumerShares(f, ConsumeSemaphores(f, n)));
  }

  lemma {:induction false} ProduceEndsGrow(t: seq<Event>, a: nat, b: nat)
    requires a <= b <= |t|
    ensures ProduceEnds(t[..a]) <= ProduceEnds(t[..b])
  {
    if a < b {
      ProduceEndsGrow(t, a, b - 1);
      assert t[..b][..b - 1] == t[..b - 1];
    }
  }

  /** The consumer goes past the event at `m`, with the producer standing at `q`. */
  lemma {:induction false} ConsumerPasses(t: seq<Event>, f: string, n: nat, init: Counts, path: seq<State>, q: nat, m: nat)
      returns (longer: seq<State>)
    requires SerialTrace(t, f, n) && FreshSemaphores(init, f) && q <= |t| && m < |t|
    requires IsRun(Producer(t, f, n), Consumer(t, f, n), init, path)
    requires path[|path| - 1].i == |Producer(t[..q], f, n)| && path[|path| - 1].j == |Consumer(t[..m], f, n)|
    requires t[m].ConsumeBegin? ==> ConsumeBegins(t[..m], t[m].node) < ProduceEnds(t[..q])
    ensures Overtakes(Producer(t, f, n), Consumer(t, f, n), t, f, n, init, q, m, longer)
  {
    var p, c, s := Producer(t, f, n), Consumer(t, f, n), path[|path| - 1];
    var cs := ConsumerShares(f, ConsumeSemaphores(f, n));
    ConsumerGrows(t, f, n, m, m + 1);
    PrefixOf(t, q, ProducerShares(f, ConsumeSemaphores(f, n)));
    PrefixOf(t, m + 1, cs);
    assert p[..s.i] == Producer(t[..q], f, n);
    forall k | s.j <= k < |Consumer(t[..m + 1], f, n)| && c[k].Acquired?
      ensures Count(init, c[k].sema) + Balance(p[..s.i], c[k].sema) + Balance(c[..k], c[k].sema) >= c[k].count
    {
      Within(t, m, cs, k);
      assert SerialEvent(t[m], f, n);
      WaitsComeFirst(t[m], f, n, k - s.j);
      assert c[..k] == Consumer(t[..m], f, n);
      ProducerBalance(t[..q], f, n, c[k].sema.index);
      ConsumerBalance(t[..m], f, n, t[m].node);
    }
    longer := ConsumerGoes(p, c, init, path, |Consumer(t[..m + 1], f, n)|);
  }

  /** The producer goes past the event at `m`, with both tasks there. */
  lemma {:induction false} ProducerPasses(t: seq<Event>, f: string, n: nat, init: Counts, path: seq<State>, m: nat)
      returns (longer: seq<State>)
    requires SerialTrace(t, f, n) && FreshSemaphores(init, f) && SeriallyReady(t, init) && m < |t|
    requires IsRun(Producer(t, f, n), Consumer(t, f, n), init, path)
    requires path[|path| - 1].i == |Producer(t[..m], f, n)| && path[|path| - 1].j == |Consumer(t[..m], f, n)|
    ensures IsRun(Producer(t, f, n), Consumer(t, f, n), init, longer)
    ensures longer[|longer| - 1].i == |Producer(t[..m + 1], f, n)| && longer[|longer| - 1].j == |Consumer(t[..m], f, n)|
  {
    var p, c, s := Producer(t, f, n), Consumer(t, f, n), path[|path| - 1];
    var ps := ProducerShares(f, ConsumeSemaphores(f, n));
    SplitAt(t, m, ps);
    PrefixOf(t, m, ConsumerShares(f, ConsumeSemaphores(f, n)));
    assert c[..s.j] == Consumer(t[..m], f, n);
    forall k | s.i <= k < |Producer(t[..m + 1], f, n)| && p[k].Acquired?
      ensures Count(init, p[k].sema) + Balance(p[..k], p[k].sema) + Balance(c[..s.j], p[k].sema) >= p[k].count
    {
      Within(t, m, ps, k);
      assert SerialEvent(t[m], f, n);
      WaitsComeFirst(t[m], f, n, k - s.i);
      assert p[..k] == Producer(t[..m], f, n);
      OtherBalance(t[..m], f, n, p[k].sema);
    }
    longer := ProducerGoes(p, c, init, path, |Producer(t[..m + 1], f, n)|);
  }

  /** Both tasks can follow the serial trace together. */
  lemma {:induction false} SerialRun(t: seq<Event>, f: string, n: nat, init: Counts, m: nat) returns (path: seq<State>)
    requires SerialTrace(t, f, n) && FreshSemaphores(init, f) && SeriallyReady(t, init) && m <= |t|
    ensures IsRun(Producer(t, f, n), Consumer(t, f, n), init, path)
    ensures path[|path| - 1].i == |Producer(t[..m], f, n)| && path[|path| - 1].j == |Consumer(t[..m], f, n)|
  {
    if m == 0 {
      assert t[..0] == [];
      path := [State(0, 0, init)];
    } else {
      path := SerialRun(t, f, n, init, m - 1);
      path := ProducerPasses(t, f, n, init, path, m - 1);
      ProduceEndsGrow(t, m - 1, m);
      if t[m - 1].ConsumeBegin? { assert t[m - 1] == ConsumeBegin(t[m - 1].node); }
      path := ConsumerPasses(t, f, n, init, path, m, m - 1);
    }
  }

  /** From there the consumer goes on alone as long as nothing it starts needs the produce at `q`. */
  lemma {:induction false} ConsumerGoesOn(t: seq<Event>, f: string, n: nat, init: Counts, q: nat, m: nat) returns (path: seq<State>)
    requires SerialTrace(t, f, n) && FreshSemaphores(init, f) && SeriallyReady(t, init)
    requires q <= m < |t| && !WaitedFor(t, q, m)
    ensures Overtakes(Producer(t, f, n), Consumer(t, f, n), t, f, n, init, q, m, path)
    decreases m
  {
    if m == q {
      path := SerialRun(t, f, n, init, q);
    } else {
      assert !WaitedFor(t, q, m - 1);
      path := ConsumerGoesOn(t, f, n, init, q, m - 1);
    }
    path := ConsumerPasses(t, f, n, init, path, q, m);
  }

  lemma {:induction false} StartsAfter(t: seq<Event>, f: string, n: nat, m: nat)
    requires m < |t| && t[m].ConsumeBegin?
    ensures |Consumer(t[..m + 1], f, n)| > |Consumer(t[..m], f, n)|
  {
    SplitAt(t, m, ConsumerShares(f, ConsumeSemaphores(f, n)));
  }

  lemma {:induction false} WaitedForIsFirst(t: seq<Event>, f: string, n: nat, init: Counts, q: nat, m: nat)
    requires SerialTrace(t, f, n) && FreshSemaphores(init, f) && q < |t| && m < |t| && t[q].ProduceEnd? && WaitedFor(t, q, m)
    ensures ProducedFirst(Producer(t, f, n), Consumer(t, f, n), t, f, n, init, q, m)
  {
    hide SerialTrace, FreshSemaphores;
    var k :| 0 <= k <= m && t[k].ConsumeBegin? && ConsumeBegins(t[..k], t[k].node) >= ProduceEnds(t[..q]);
    ConsumerGrows(t, f, n, k, m);
    forall path: seq<State> | IsRun(Producer(t, f, n), Consumer(t, f, n), init, path) && path[|path| - 1].j > |Consumer(t[..m], f, n)|
      ensures path[|path| - 1].i > |Producer(t[..q], f, n)|
    {
      ConsumeAfterProduce(t, f, n, init, path, k, q);
    }
  }

  lemma {:induction false} OvertakesIsNotFirst(p: seq<Event>, c: seq<Event>, t: seq<Event>, f: string, n: nat, init: Counts,
                                               q: nat, m: nat, path: seq<State>)
    requires q <= |t| && m < |t| && t[m].ConsumeBegin? && Overtakes(p, c, t, f, n, init, q, m, path)
    ensures !ProducedFirst(p, c, t, f, n, init, q, m)
  {
    hide IsRun;
    StartsAfter(t, f, n, m);
  }

  /** A consume waits for exactly those produces before it that some consume node, run up to then, has run
      often enough to have met; for any other there is a run in which it starts before the produce ends. */
  lemma {:induction false} ProducedFirstIff(producer: Stmt, consumer: Stmt, body: Stmt, f: string, env: Env, init: Counts, q: nat, m: nat)
    requires Forkable(body, f) && Unforked(body, f, false) && SplitsTrace(producer, consumer, body, f)
    requires FreshSemaphores(init, f) && SeriallyReady(Run(body, f, env, 0, false), init)
    requires q < m < |Run(body, f, env, 0, false)|
    requires Run(body, f, env, 0, false)[q].ProduceEnd? && Run(body, f, env, 0, false)[m].ConsumeBegin?
    ensures var p, c := Run(producer, f, env, 0, false), Run(consumer, f, env, 0, false);
      var t, n := Run(body, f, env, 0, false), ConsumeNodes(body, f);
      && (ProducedFirst(p, c, t, f, n, init, q, m) <==> WaitedFor(t, q, m))
      && (!WaitedFor(t, q, m) ==> exists path :: Overtakes(p, c, t, f, n, init, q, m, path))
  {
    hide Run, ProducedFirst, WaitedFor, Overtakes, Forkable, Unforked, FreshSemaphores, SeriallyReady;
    var n, t := ConsumeNodes(body, f), Run(body, f, env, 0, false);
    RunIsSerial(body, f, env, 0, n);
    var p, c := Producer(t, f, n), Consumer(t, f, n);
    assert Run(producer, f, env, 0, false) == p && Run(consumer, f, env, 0, false) == c;
    if WaitedFor(t, q, m) {
      WaitedForIsFirst(t, f, n, init, q, m);
    } else {
      var path := ConsumerGoesOn(t, f, n, init, q, m);
      OvertakesIsNotFirst(p, c, t, f, n, init, q, m, path);
    }
  }

  lemma {:induction false} ConsumeBeginsGrow(t: seq<Event>, node: nat, a: nat, b: nat)
    requires a <= b <= |t|
    ensures ConsumeBegins(t[..a], node) <= ConsumeBegins(t[..b], node)
  {
    if a < b {
      ConsumeBeginsGrow(t, node, a, b - 1);
      assert t[..b][..b - 1] == t[..b - 1];
    }
  }

  lemma {:induction false} OneNodeTrace(t: seq<Event>, f: string, q: nat, m: nat)
    requires SerialTrace(t, f, 1) && q < |t| && m < |t| && t[m].ConsumeBegin?
    ensures WaitedFor(t, q, m) <==> ConsumeBegins(t[..m], 0) >= ProduceEnds(t[..q])
  {
    assert SerialEvent(t[m], f, 1);
    if WaitedFor(t, q, m) {
      var k :| 0 <= k <= m && t[k].ConsumeBegin? && ConsumeBegins(t[..k], t[k].node) >= ProduceEnds(t[..q]);
      assert SerialEvent(t[k], f, 1);
      ConsumeBeginsGrow(t, 0, k, m);
    }
  }

  /** With one consume node, a consume waits for a produce exactly when the node has run before at least as
      often as produces have ended before that one. */
  lemma {:induction false} OneNodeWaitsIff(body: Stmt, f: string, env: Env, q: nat, m: nat)
    requires Forkable(body, f) && Unforked(body, f, false) && ConsumeNodes(body, f) == 1
    requires q < m < |Run(body, f, env, 0, false)| && Run(body, f, env, 0, false)[m].ConsumeBegin?
    ensures var t := Run(body, f, env, 0, false);
      WaitedFor(t, q, m) <==> ConsumeBegins(t[..m], 0) >= ProduceEnds(t[..q])
  {
    hide Run, Forkable, Unforked, SerialTrace, WaitedFor;
    RunIsSerial(body, f, env, 0, 1);
    OneNodeTrace(Run(body, f, env, 0, false), f, q, m);
  }
}
