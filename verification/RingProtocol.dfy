/** A forked Func whose storage is a ring of slots, one acquired per iteration. */
module RingProtocol {
  import opened AsyncIR
  import opened AsyncFork
  import opened TaskPair
  import opened ForkProtocol
  import opened Flatten
  import opened RingIndex

  /** The semaphore that counts the free slots of `f`'s ring, made with two. */
  function RingSemaphore(f: string): Semaphore { FoldingSemaphore(f, "ring_buffer") }

  function Acquires(t: seq<Event>): nat {
    if t == [] then 0 else Acquires(t[..|t| - 1]) + (if t[|t| - 1].Acquired? then 1 else 0)
  }

  function Begins(t: seq<Event>): nat {
    if t == [] then 0 else Begins(t[..|t| - 1]) + (if t[|t| - 1].ProduceBegin? then 1 else 0)
  }

  /** The only waits are for a slot, and each slot is given back outside the produce node. */
  predicate RingEvent(e: Event, f: string) {
    && (e.Acquired? ==> e == Acquired(RingSemaphore(f), 1, false))
    && (e.Released? && e.sema == RingSemaphore(f) ==> e == Released(RingSemaphore(f), 1, false))
  }

  /** The iterations follow one another: at most one slot is held serially, it is held before the
      produce begins, and a node consumes only what was produced. */
  predicate InOrder(t: seq<Event>, f: string, n: nat) {
    && 0 <= -Balance(t, RingSemaphore(f)) <= 1
    && Begins(t) <= Acquires(t)
    && forall node :: 0 <= node < n ==> ConsumeBegins(t, node) <= ProduceEnds(t)
  }

  ghost predicate RingTrace(t: seq<Event>, f: string, n: nat) {
    && SerialTrace(t, f, n)
    && (forall k :: 0 <= k < |t| ==> RingEvent(t[k], f))
    && (forall m :: 0 <= m <= |t| ==> InOrder(t[..m], f, n))
  }

  lemma {:induction false} CountsConcat(t: seq<Event>, u: seq<Event>, node: nat)
    ensures Acquires(t + u) == Acquires(t) + Acquires(u)
    ensures Begins(t + u) == Begins(t) + Begins(u)
    ensures ProduceEnds(t + u) == ProduceEnds(t) + ProduceEnds(u)
    ensures ConsumeBegins(t + u, node) == ConsumeBegins(t, node) + ConsumeBegins(u, node)
  {
    if u == [] {
      assert t + u == t;
    } else {
      CountsConcat(t, u[..|u| - 1], node);
      assert (t + u)[..|t + u| - 1] == t + u[..|u| - 1];
    }
  }

  /** A ring body run to the end and then again is still in order. */
  lemma {:induction false} RingConcat(t: seq<Event>, u: seq<Event>, f: string, n: nat)
    requires RingTrace(t, f, n) && RingTrace(u, f, n) && Balance(t, RingSemaphore(f)) == 0
    ensures RingTrace(t + u, f, n)
    ensures Balance(t + u, RingSemaphore(f)) == Balance(u, RingSemaphore(f))
  {
    assert t[..|t|] == t && u[..|u|] == u;
    forall m | 0 <= m <= |t + u| ensures InOrder((t + u)[..m], f, n) {
      if m <= |t| {
        assert (t + u)[..m] == t[..m];
      } else {
        var v := u[..m - |t|];
        assert (t + u)[..m] == t + v;
        assert InOrder(t[..|t|], f, n) && InOrder(v, f, n);
        BalanceConcat(t, v, RingSemaphore(f));
        CountsConcat(t, v, 0);
        forall node | 0 <= node < n ensures ConsumeBegins(t + v, node) <= ProduceEnds(t + v) {
          CountsConcat(t, v, node);
        }
      }
    }
    forall k | 0 <= k < |t + u| ensures RingEvent((t + u)[k], f) && SerialEvent((t + u)[k], f, n) {
      if k >= |t| { assert (t + u)[k] == u[k - |t|]; }
    }
    BalanceConcat(t, u, RingSemaphore(f));
  }

  /** Run serially, a ring body never waits. */
  lemma {:induction false} RingIsReady(t: seq<Event>, f: string, n: nat, init: Counts)
    requires RingTrace(t, f, n) && Count(init, RingSemaphore(f)) >= 1
    ensures SeriallyReady(t, init)
  {
    var x := RingSemaphore(f);
    forall m, node | 0 <= m < |t| && t[m] == ConsumeBegin(node)
      ensures ConsumeBegins(t[..m], node) < ProduceEnds(t[..m])
    {
      assert SerialEvent(t[m], f, n);
      assert InOrder(t[..m + 1], f, n);
      assert t[..m + 1][..m] == t[..m];
      assert ConsumeBegins(t[..m + 1], node) <= ProduceEnds(t[..m + 1]);
    }
    forall m | 0 <= m < |t| && t[m].Acquired?
      ensures Count(init, t[m].sema) + Balance(t[..m], t[m].sema) >= t[m].count
    {
      assert RingEvent(t[m], f);
      assert InOrder(t[..m + 1], f, n) && InOrder(t[..m], f, n);
      assert t[..m + 1][..m] == t[..m];
    }
  }

  /** However far the producer is, it has begun no more produces than it has taken slots. */
  lemma {:induction false} ProducerPrefix(t: seq<Event>, f: string, n: nat, i: nat)
    requires RingTrace(t, f, n) && i <= |Producer(t, f, n)|
    ensures Begins(Producer(t, f, n)[..i]) <= -Balance(Producer(t, f, n)[..i], RingSemaphore(f))
  {
    var ps := ProducerShares(f, ConsumeSemaphores(f, n));
    assert t[..0] == [];
    var m := Frontier(t, f, n, i, |Consumer(t, f, n)|, 0);
    PrefixOf(t, if m < |t| then m + 1 else m, ConsumerShares(f, ConsumeSemaphores(f, n)));
    var p := Producer(t, f, n);
    ProducerCounts(t[..m], f, n);
    assert InOrder(t[..m], f, n);
    if m == |t| {
      assert t[..m] == t && p[..i] == p;
    } else {
      Within(t, m, ps, i);
      var before, o := Producer(t[..m], f, n), i - |Producer(t[..m], f, n)|;
      var part := ps(t[m])[..o];
      assert p[..i] == before + part;
      BalanceConcat(before, part, RingSemaphore(f));
      CountsConcat(before, part, 0);
      ShareCounts(t[m], f, n, o);
    }
  }

  /** Strictly inside one event's share nothing has been counted yet. */
  lemma {:induction false} ShareCounts(e: Event, f: string, n: nat, o: nat)
    requires o < |ProducerShare(e, f, ConsumeSemaphores(f, n))|
    ensures Begins(ProducerShare(e, f, ConsumeSemaphores(f, n))[..o]) == 0
    ensures Balance(ProducerShare(e, f, ConsumeSemaphores(f, n))[..o], RingSemaphore(f)) == 0
  {
    var semas := ConsumeSemaphores(f, n);
    var share := ProducerShare(e, f, semas);
    if o > 0 {
      ShareCounts(e, f, n, o - 1);
      assert share[..o][..o - 1] == share[..o - 1];
      assert e.ProduceEnd? && share[o - 1] == Releases(semas)[o - 1];
      ReleasesAreReleases(semas, o - 1);
      ReleasesElement(f, n, o - 1);
    } else {
      assert share[..0] == [];
    }
  }

  lemma {:induction false} ReleasesElement(f: string, n: nat, o: nat)
    requires o < |Releases(ConsumeSemaphores(f, n))|
    ensures Releases(ConsumeSemaphores(f, n))[o].Released? && Releases(ConsumeSemaphores(f, n))[o].sema.ConsumeSemaphore?
  {
    var semas := ConsumeSemaphores(f, n);
    assert semas[..n - 1] == ConsumeSemaphores(f, n - 1);
    if o > 0 { ReleasesElement(f, n - 1, o - 1); }
  }

  lemma {:induction false} ProducerCounts(t: seq<Event>, f: string, n: nat)
    requires SerialTrace(t, f, n) && forall k :: 0 <= k < |t| ==> RingEvent(t[k], f)
    ensures Begins(Producer(t, f, n)) == Begins(t)
    ensures Balance(Producer(t, f, n), RingSemaphore(f)) == -(Acquires(t) as int)
  {
    if t != [] {
      var m := |t| - 1;
      var semas, x := ConsumeSemaphores(f, n), RingSemaphore(f);
      var share := ProducerShare(t[m], f, semas);
      ProducerCounts(t[..m], f, n);
      SplitAt(t, m, ProducerShares(f, semas));
      assert t[..m + 1] == t;
      CountsConcat(Producer(t[..m], f, n), share, 0);
      BalanceConcat(Producer(t[..m], f, n), share, x);
      assert RingEvent(t[m], f) && SerialEvent(t[m], f, n);
      if share != [] {
        var o := |share| - 1;
        ShareCounts(t[m], f, n, o);
        assert share[o] == t[m];
      }
    }
  }

  /** In every interleaving the producer is at most two iterations ahead of the slots given back. */
  lemma {:induction false} TwoIterationsAhead(t: seq<Event>, f: string, n: nat, init: Counts, path: seq<State>)
    requires RingTrace(t, f, n) && FreshSemaphores(init, f) && Count(init, RingSemaphore(f)) == 2
    requires IsRun(Producer(t, f, n), Consumer(t, f, n), init, path)
    ensures path[|path| - 1].i <= |Producer(t, f, n)| && path[|path| - 1].j <= |Consumer(t, f, n)|
    ensures Begins(Producer(t, f, n)[..path[|path| - 1].i])
         <= 2 + Balance(Consumer(t, f, n)[..path[|path| - 1].j], RingSemaphore(f))
  {
    RunInvariant(Producer(t, f, n), Consumer(t, f, n), init, path, |path| - 1);
    ProducerPrefix(t, f, n, path[|path| - 1].i);
    assert Count(path[|path| - 1].sem, RingSemaphore(f)) >= 0;
  }

  /** The consumer has started its u-th run of some node and has not given the slot of iteration u back. */
  ghost predicate Consuming(t: seq<Event>, f: string, n: nat, s: State, m: nat, u: nat) {
    && m < |t| && t[m].ConsumeBegin? && ConsumeBegins(t[..m], t[m].node) == u
    && |Consumer(t[..m], f, n)| < s.j <= |Consumer(t, f, n)|
    && Balance(Consumer(t, f, n)[..s.j], RingSemaphore(f)) <= u
  }

  /** With at least two slots, while the consumer is in iteration u the produce of iteration u is
      finished and no later produce has begun to write the same slot, in any interleaving. */
  lemma {:induction false} SlotIsKept(t: seq<Event>, f: string, n: nat, init: Counts, path: seq<State>,
                                      base: int, ring: int, m: nat, u: nat)
    requires RingTrace(t, f, n) && FreshSemaphores(init, f) && Count(init, RingSemaphore(f)) == 2
    requires IsRun(Producer(t, f, n), Consumer(t, f, n), init, path)
    requires ring >= 2 && Consuming(t, f, n, path[|path| - 1], m, u)
    ensures path[|path| - 1].i <= |Producer(t, f, n)|
    ensures forall v :: u < v < Begins(Producer(t, f, n)[..path[|path| - 1].i]) ==> Slot(base, ring, v) != Slot(base, ring, u)
    ensures forall q :: 0 <= q < |t| && t[q].ProduceEnd? && ProduceEnds(t[..q]) <= u
                        ==> path[|path| - 1].i > |Producer(t[..q], f, n)|
  {
    var s := path[|path| - 1];
    TwoIterationsAhead(t, f, n, init, path);
    var begun := Begins(Producer(t, f, n)[..s.i]);
    forall v | u < v < begun ensures Slot(base, ring, v) != Slot(base, ring, u) {
      SlotsCollideIff(base, ring, v, u);
    }
    forall q | 0 <= q < |t| && t[q].ProduceEnd? && ProduceEnds(t[..q]) <= u ensures s.i > |Producer(t[..q], f, n)| {
      ConsumeAfterProduce(t, f, n, init, path, m, q);
    }
  }

  /** One iteration with no other work in it. */
  function BareIteration(f: string): seq<Event> {
    [Acquired(RingSemaphore(f), 1, false), ProduceBegin, ProduceEnd, ConsumeBegin(0), ConsumeEnd(0),
     Released(RingSemaphore(f), 1, false)]
  }

  lemma {:induction false} BareShares(f: string)
    ensures Producer(BareIteration(f), f, 1)
         == [Acquired(RingSemaphore(f), 1, false), ProduceBegin, Released(ConsumeSemaphore(f, 0), 1, true), ProduceEnd]
    ensures Consumer(BareIteration(f), f, 1)
         == [Acquired(ConsumeSemaphore(f, 0), 1, false), ConsumeBegin(0), ConsumeEnd(0), Released(RingSemaphore(f), 1, false)]
  {
    hide ProducerShares, ConsumerShares, ConsumeSemaphores, Flat;
    var b, semas := BareIteration(f), ConsumeSemaphores(f, 1);
    SharesOfOne(f);
    SharesOfSlot(f, RingSemaphore(f));
    FlatSix(b[0], b[1], b[2], b[3], b[4], b[5], ProducerShares(f, semas));
    FlatSix(b[0], b[1], b[2], b[3], b[4], b[5], ConsumerShares(f, semas));
  }

  /** The producer takes slots and the consumer gives them back. */
  lemma {:induction false} SharesOfSlot(f: string, x: Semaphore)
    ensures var ps, a, r := ProducerShares(f, ConsumeSemaphores(f, 1)), Acquired(x, 1, false), Released(x, 1, false);
      ps(a) == [a] && ps(r) == []
    ensures var cs, a, r := ConsumerShares(f, ConsumeSemaphores(f, 1)), Acquired(x, 1, false), Released(x, 1, false);
      cs(a) == [] && cs(r) == [r]
  {
  }

  lemma {:induction false} TwoBareIterations(f: string)
    ensures var t := BareIteration(f) + BareIteration(f);
            var p, c := Producer(t, f, 1), Consumer(t, f, 1);
            && |p| == 8 && |c| == 8
            && p[..6] == [Acquired(RingSemaphore(f), 1, false), ProduceBegin, Released(ConsumeSemaphore(f, 0), 1, true),
                          ProduceEnd, Acquired(RingSemaphore(f), 1, false), ProduceBegin]
            && c[..2] == [Acquired(ConsumeSemaphore(f, 0), 1, false), ConsumeBegin(0)]
  {
    BareShares(f);
    FlatConcat(BareIteration(f), BareIteration(f), ProducerShares(f, ConsumeSemaphores(f, 1)));
    FlatConcat(BareIteration(f), BareIteration(f), ConsumerShares(f, ConsumeSemaphores(f, 1)));
  }

  /** With a single slot the ring is overwritten: the producer may begin iteration 1 while the
      consumer is still in iteration 0, and both iterations use the same slot. */
  lemma {:induction false} OneSlotIsOverwritten(f: string, init: Counts, base: int) returns (path: seq<State>)
    requires FreshSemaphores(init, f) && Count(init, RingSemaphore(f)) == 2
    ensures var t := BareIteration(f) + BareIteration(f);
      && IsRun(Producer(t, f, 1), Consumer(t, f, 1), init, path)
      && Consuming(t, f, 1, path[|path| - 1], 3, 0)
      && path[|path| - 1].i <= |Producer(t, f, 1)|
      && Begins(Producer(t, f, 1)[..path[|path| - 1].i]) == 2
      && Slot(base, 1, 1) == Slot(base, 1, 0)
  {
    var t := BareIteration(f) + BareIteration(f);
    var p, c := Producer(t, f, 1), Consumer(t, f, 1);
    TwoBareIterations(f);
    path := BareRun(f, init, p, c);
    BarePrefixes(f, t, p, c);
  }

  lemma {:induction false} BareRun(f: string, init: Counts, p: seq<Event>, c: seq<Event>) returns (path: seq<State>)
    requires FreshSemaphores(init, f) && Count(init, RingSemaphore(f)) == 2
    requires |p| >= 6 && |c| >= 2
    requires p[..6] == [Acquired(RingSemaphore(f), 1, false), ProduceBegin, Released(ConsumeSemaphore(f, 0), 1, true), ProduceEnd,
                        Acquired(RingSemaphore(f), 1, false), ProduceBegin]
    requires c[..2] == [Acquired(ConsumeSemaphore(f, 0), 1, false), ConsumeBegin(0)]
    ensures IsRun(p, c, init, path) && path[|path| - 1].i == 6 && path[|path| - 1].j == 2
  {
    var x, y := RingSemaphore(f), ConsumeSemaphore(f, 0);
    assert Count(init, y) == 0;
    var i0 := init[x := 1];
    var i1 := i0[y := 1];
    var i2 := i1[x := 0];
    var i3 := i2[y := 0];
    path := [State(0, 0, init), State(1, 0, i0), State(2, 0, i0), State(3, 0, i1), State(4, 0, i1),
             State(5, 0, i2), State(6, 0, i2), State(6, 1, i3), State(6, 2, i3)];
    forall k | 0 <= k < 6 ensures p[k] == p[..6][k] {}
    forall k | 0 <= k < 2 ensures c[k] == c[..2][k] {}
  }

  lemma {:induction false} BarePrefixes(f: string, t: seq<Event>, p: seq<Event>, c: seq<Event>)
    requires t == BareIteration(f) + BareIteration(f)
    requires |p| >= 6 && |c| >= 2
    requires p[..6] == [Acquired(RingSemaphore(f), 1, false), ProduceBegin, Released(ConsumeSemaphore(f, 0), 1, true), ProduceEnd,
                        Acquired(RingSemaphore(f), 1, false), ProduceBegin]
    requires c[..2] == [Acquired(ConsumeSemaphore(f, 0), 1, false), ConsumeBegin(0)]
    ensures Begins(p[..6]) == 2 && Balance(c[..2], RingSemaphore(f)) == 0
    ensures ConsumeBegins(t[..3], 0) == 0 && |Consumer(t[..3], f, 1)| == 0
  {
    var q := p[..6];
    BeginsTwo(q[0], q[1]); BeginsTwo(q[2], q[3]); BeginsTwo(q[4], q[5]);
    assert q == [q[0], q[1]] + [q[2], q[3]] + [q[4], q[5]];
    CountsConcat([q[0], q[1]] + [q[2], q[3]], [q[4], q[5]], 0);
    CountsConcat([q[0], q[1]], [q[2], q[3]], 0);
    BalanceTwo(c[..2][0], c[..2][1], RingSemaphore(f));
    var b, cs := BareIteration(f), ConsumerShares(f, ConsumeSemaphores(f, 1));
    assert t[..3] == [b[0]] + [b[1]] + [b[2]];
    CountsConcat([b[0]] + [b[1]], [b[2]], 0);
    CountsConcat([b[0]], [b[1]], 0);
    FlatConcat([b[0]] + [b[1]], [b[2]], cs);
    FlatConcat([b[0]], [b[1]], cs);
    FlatOne(b[0], cs); FlatOne(b[1], cs); FlatOne(b[2], cs);
  }

  lemma {:induction false} BeginsTwo(d: Event, e: Event)
    ensures Begins([d, e]) == (if d.ProduceBegin? then 1 else 0) + (if e.ProduceBegin? then 1 else 0)
  {
    assert [d, e][..1] == [d];
    assert Begins([d]) == if d.ProduceBegin? then 1 else 0 by { assert [d][..0] == []; }
  }
}
