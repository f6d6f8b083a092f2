/** What a consumer finds when it reads a forked, ring-buffered Func. */
module RingReads {
  import opened AsyncIR
  import opened AsyncFork
  import opened ForkInput
  import opened TaskPair
  import opened ForkProtocol
  import opened ForkPass
  import opened RingIndex
  import opened RingProtocol
  import opened RingBuffer
  import opened RingNest
  import opened RingOverwrite
  import opened RingSlots
  import opened Flatten

  // ---- Work done inside the produce node ----

  /** Whatever is marked as inside a produce node lies between its begin and its end. */
  predicate Marked(t: seq<Event>) {
    forall o :: 0 <= o < |t| && t[o].Work? && t[o].inside ==> Begins(t[..o]) > ProduceEnds(t[..o])
  }

  lemma {:induction false} MarkedConcat(t: seq<Event>, u: seq<Event>)
    requires Marked(t) && Marked(u) && Begins(t) == ProduceEnds(t)
    ensures Marked(t + u)
  {
    forall o | 0 <= o < |t + u| && (t + u)[o].Work? && (t + u)[o].inside ensures Begins((t + u)[..o]) > ProduceEnds((t + u)[..o]) {
      if o < |t| {
        assert (t + u)[..o] == t[..o];
      } else {
        assert (t + u)[..o] == t + u[..o - |t|];
        CountsConcat(t, u[..o - |t|], 0);
      }
    }
  }

  lemma {:induction false} PlainIsMarked(s: Stmt, f: string, env: Env, k: nat)
    requires Plain(s, f) && Unforked(s, f, true)
    ensures Marked(Run(s, f, env, k, false))
    ensures Marked([ConsumeBegin(k)] + Run(s, f, env, k + 1, false) + [ConsumeEnd(k)])
    ensures Marked([ProduceBegin] + Run(s, f, env, k, true) + [ProduceEnd])
  {
    PlainRun(s, f, env, k, false);
    PlainRun(s, f, env, k + 1, false);
    PlainRun(s, f, env, k, true);
    PlainIsTidy(s, f, env, k, k, true);
    var t := Run(s, f, env, k, true);
    var u := [ProduceBegin] + t + [ProduceEnd];
    forall o | 0 <= o < |u| && u[o].Work? ensures Begins(u[..o]) > ProduceEnds(u[..o]) {
      ProducePrefix(t, f, k, o);
    }
  }

  lemma {:induction false} SequentialIsMarked(s: Stmt, f: string, env: Env, k: nat)
    requires Sequential(s, f) && Unforked(s, f, true)
    ensures Marked(Run(s, f, env, k, false))
  {
    hide Marked, Tidy, Eval;
    match s
    case LetStmt(x, value, body) => SequentialIsMarked(body, f, env[x := Eval(value, env)], k);
    case Scoped(_, body) => SequentialIsMarked(body, f, env, k);
    case Block(first, rest) =>
      SequentialIsMarked(first, f, env, k);
      SequentialIsMarked(rest, f, env, k + ConsumeNodes(first, f));
      SequentialIsTidy(first, f, env, k);
      TidyCloses(Run(first, f, env, k, false), f, k, ConsumeNodes(first, f), ProduceNodes(first, f));
      MarkedConcat(Run(first, f, env, k, false), Run(rest, f, env, k + ConsumeNodes(first, f), false));
    case ProducerConsumer(name, isProducer, body) =>
      if name != f { SequentialIsMarked(body, f, env, k); } else { PlainIsMarked(body, f, env, k); }
    case _ =>
      PlainIsMarked(s, f, env, k);
  }

  lemma {:induction false} TidyCloses(t: seq<Event>, f: string, k: nat, n: nat, p: nat)
    requires Tidy(t, f, k, n, p)
    ensures Begins(t) == ProduceEnds(t) == p
  {
  }

  // ---- Where an event of the nest stands ----

  /** The iteration an event belongs to and its place in it. */
  lemma {:induction false} Locate(envs: seq<Env>, g: Env -> seq<Event>, r: nat) returns (u: nat, o: nat)
    requires r < |Flat(envs, g)|
    ensures u < |envs| && o < |g(envs[u])|
    ensures Flat(envs, g)[r] == g(envs[u])[o] && Flat(envs, g)[..r] == Flat(envs[..u], g) + g(envs[u])[..o]
  {
    var here, rest := g(envs[0]), Flat(envs[1..], g);
    if r < |here| {
      u, o := 0, r;
      assert envs[..0] == [];
      assert Flat(envs, g)[..r] == here[..r];
    } else {
      u, o := Locate(envs[1..], g, r - |here|);
      assert envs[..u + 1][1..] == envs[1..][..u];
      assert Flat(envs[..u + 1], g) == here + Flat(envs[1..][..u], g);
      assert Flat(envs, g)[..r] == here + rest[..r - |here|];
      assert here + Flat(envs[1..][..u], g) + g(envs[u + 1])[..o] == here + (Flat(envs[1..][..u], g) + g(envs[u + 1])[..o]);
      u := u + 1;
    }
  }

  /** What has happened after `u` iterations and the first `o` events of the next. */
  ghost predicate Position(t: seq<Event>, f: string, n: nat, r: nat, u: nat, part: seq<Event>) {
    && r <= |t| && Balance(t[..r], RingSemaphore(f)) == Balance(part, RingSemaphore(f))
    && Begins(t[..r]) == u + Begins(part) && ProduceEnds(t[..r]) == u + ProduceEnds(part)
    && Acquires(t[..r]) == u + Acquires(part)
    && forall node: nat :: node < n ==> ConsumeBegins(t[..r], node) == u + ConsumeBegins(part, node)
  }

  lemma {:induction false} AfterIterations(t: seq<Event>, f: string, n: nat, u: nat, done: seq<Event>, part: seq<Event>)
    requires done + part <= t && Balance(done, RingSemaphore(f)) == 0
    requires Begins(done) == ProduceEnds(done) == Acquires(done) == u
    requires forall node: nat :: node < n ==> ConsumeBegins(done, node) == u
    ensures Position(t, f, n, |done + part|, u, part)
  {
    assert t[..|done + part|] == done + part;
    BalanceConcat(done, part, RingSemaphore(f));
    CountsConcat(done, part, 0);
    forall node: nat | node < n ensures ConsumeBegins(done + part, node) == u + ConsumeBegins(part, node) {
      CountsConcat(done, part, node);
    }
  }

  lemma {:induction false} FindPosition(envs: seq<Env>, body: Stmt, f: string, r: nat) returns (u: nat, o: nat)
    requires Sequential(body, f) && Unforked(body, f, true) && ProduceNodes(body, f) == 1
    requires r < |Flat(envs, BodyTrace(body, f))|
    ensures var t := Flat(envs, BodyTrace(body, f));
      && u < |envs| && o < |Iteration(Run(body, f, envs[u], 0, false), f)| && o <= r
      && t[r] == Iteration(Run(body, f, envs[u], 0, false), f)[o]
      && t[r - o..r] == Iteration(Run(body, f, envs[u], 0, false), f)[..o]
      && Position(t, f, ConsumeNodes(body, f), r, u, Iteration(Run(body, f, envs[u], 0, false), f)[..o])
      && (forall m :: 0 <= m <= o ==> Position(t, f, ConsumeNodes(body, f), r - o + m, u, Iteration(Run(body, f, envs[u], 0, false), f)[..m]))
  {
    hide Sequential, Unforked, RingTrace, Iteration, Position, Flat;
    var n, g := ConsumeNodes(body, f), BodyTrace(body, f);
    u, o := Locate(envs, g, r);
    var t, done, here := Flat(envs, g), Flat(envs[..u], g), g(envs[u]);
    IterationsAreRing(envs[..u], body, f);
    CountIterations(envs[..u], body, f);
    assert |done| == r - o && t[r - o..r] == here[..o];
    forall m | 0 <= m <= o ensures Position(t, f, n, r - o + m, u, here[..m]) {
      assert t[..r - o + m] == t[..r][..r - o + m] == done + here[..m];
      AfterIterations(t, f, n, u, done, here[..m]);
    }
    assert Position(t, f, n, r - o + o, u, here[..o]);
  }

  /** A store made inside the produce node of iteration w. */
  ghost predicate StoreStands(t: seq<Event>, q: nat, w: nat) {
    q < |t| && Begins(t[..q]) == w + 1 && ProduceEnds(t[..q]) == w < ProduceEnds(t)
  }

  lemma {:induction false} FindStore(envs: seq<Env>, body: Stmt, f: string, q: nat) returns (w: nat)
    requires Sequential(body, f) && Unforked(body, f, true) && ProduceNodes(body, f) == 1
    requires var t := Flat(envs, BodyTrace(body, f)); q < |t| && t[q].Work? && t[q].inside
    ensures w < |envs| && Flat(envs, BodyTrace(body, f))[q] in Run(body, f, envs[w], 0, false)
    ensures StoreStands(Flat(envs, BodyTrace(body, f)), q, w)
  {
    hide Sequential, Unforked, RingTrace;
    var o;
    w, o := FindPosition(envs, body, f, q);
    IterationsAreRing(envs, body, f);
    SequentialIsTidy(body, f, envs[w], 0);
    SequentialIsMarked(body, f, envs[w], 0);
    BetweenEnds(Run(body, f, envs[w], 0, false), f, ConsumeNodes(body, f), o);
  }

  lemma {:induction false} BetweenEnds(t: seq<Event>, f: string, n: nat, o: nat)
    requires Tidy(t, f, 0, n, 1) && Marked(t) && o < |Iteration(t, f)| && Iteration(t, f)[o].Work? && Iteration(t, f)[o].inside
    ensures Iteration(t, f)[o] in t && Begins(Iteration(t, f)[..o]) == 1 && ProduceEnds(Iteration(t, f)[..o]) == 0
  {
    var a := Acquired(RingSemaphore(f), 1, false);
    assert Iteration(t, f)[..o] == [a] + t[..o - 1] && Iteration(t, f)[o] == t[o - 1];
    assert TidyPrefix(t[..o - 1], 0, n, 1);
    CountsConcat([a], t[..o - 1], 0);
    OneAcquire(a);
  }

  /** Some consume node has begun in every iteration so far, the current one included. */
  predicate InConsume(t: seq<Event>, n: nat, r: nat)
    requires r <= |t|
  {
    exists node | 0 <= node < n :: ConsumeBegins(t[..r], node) == Acquires(t[..r])
  }

  /** Work done in iteration u after the consume node entered at m has begun. */
  ghost predicate ReadStands(t: seq<Event>, f: string, r: nat, u: nat, m: nat) {
    && m < r < |t| && t[m].ConsumeBegin? && ConsumeBegins(t[..m], t[m].node) == u
    && Begins(t[..r]) <= ProduceEnds(t[..r]) == Acquires(t[..r]) == u + 1 && Balance(t[..r], RingSemaphore(f)) == -1
  }

  lemma {:induction false} FindRead(envs: seq<Env>, body: Stmt, f: string, r: nat) returns (u: nat, m: nat)
    requires Sequential(body, f) && Unforked(body, f, true) && ProduceNodes(body, f) == 1
    requires var t := Flat(envs, BodyTrace(body, f)); r < |t| && t[r].Work? && InConsume(t, ConsumeNodes(body, f), r)
    ensures u < |envs| && Flat(envs, BodyTrace(body, f))[r] in Run(body, f, envs[u], 0, false)
    ensures ReadStands(Flat(envs, BodyTrace(body, f)), f, r, u, m)
  {
    hide Sequential, Unforked, Tidy, Iteration;
    var n, t := ConsumeNodes(body, f), Flat(envs, BodyTrace(body, f));
    var o;
    u, o := FindPosition(envs, body, f, r);
    var here := Run(body, f, envs[u], 0, false);
    SequentialIsTidy(body, f, envs[u], 0);
    InsideIteration(here, f, n, o);
    var node :| 0 <= node < n && ConsumeBegins(t[..r], node) == Acquires(t[..r]);
    var k := ConsumeIn(here, f, n, o, node);
    m := r - o + k;
    assert t[m] == t[r - o..r][k];
    assert Position(t, f, n, m, u, Iteration(here, f)[..k]);
  }

  lemma {:induction false} InsideIteration(t: seq<Event>, f: string, n: nat, o: nat)
    requires Tidy(t, f, 0, n, 1) && o < |Iteration(t, f)| && Iteration(t, f)[o].Work?
    ensures 0 < o <= |t| && Iteration(t, f)[o] in t
    ensures Acquires(Iteration(t, f)[..o]) == 1 && Balance(Iteration(t, f)[..o], RingSemaphore(f)) == -1
  {
    hide Tidy;
    assert Iteration(t, f)[o] == t[o - 1];
    HoldsSlot(t, f, n, o);
  }

  /** In an iteration where `node` has begun, the produce is over, and `node` began for the first time. */
  lemma {:induction false} ConsumeIn(t: seq<Event>, f: string, n: nat, o: nat, node: nat) returns (k: nat)
    requires Tidy(t, f, 0, n, 1) && 0 < o <= |t| && node < n && ConsumeBegins(Iteration(t, f)[..o], node) == 1
    ensures k < o && Iteration(t, f)[..o][k] == ConsumeBegin(node) && ConsumeBegins(Iteration(t, f)[..k], node) == 0
    ensures Begins(Iteration(t, f)[..o]) <= ProduceEnds(Iteration(t, f)[..o]) == 1
  {
    var a, v := Acquired(RingSemaphore(f), 1, false), t[..o - 1];
    assert Iteration(t, f)[..o] == [a] + v && TidyPrefix(v, 0, n, 1);
    OneAcquire(a);
    CountsConcat([a], v, node);
    k := FirstOf(Iteration(t, f)[..o], node);
    assert Iteration(t, f)[..o][..k] == Iteration(t, f)[..k];
  }

  lemma {:induction false} FirstOf(t: seq<Event>, node: nat) returns (k: nat)
    requires ConsumeBegins(t, node) == 1
    ensures k < |t| && t[k] == ConsumeBegin(node) && ConsumeBegins(t[..k], node) == 0
  {
    if t[|t| - 1] == ConsumeBegin(node) {
      k := |t| - 1;
    } else {
      k := FirstOf(t[..|t| - 1], node);
      assert t[..|t| - 1][..k] == t[..k];
    }
  }

  // ---- The stores a read finds ----

  lemma {:induction false} EndsGrow(t: seq<Event>, a: nat, b: nat)
    requires a <= b <= |t|
    ensures ProduceEnds(t[..a]) <= ProduceEnds(t[..b])
  {
    assert t[..b] == t[..a] + t[a..b];
    CountsConcat(t[..a], t[a..b], 0);
  }

  lemma {:induction false} NextEnd(t: seq<Event>, q: nat) returns (e: nat)
    requires q < |t| && ProduceEnds(t[..q]) < ProduceEnds(t)
    ensures q <= e < |t| && t[e].ProduceEnd? && ProduceEnds(t[..e]) == ProduceEnds(t[..q])
    decreases |t| - q
  {
    assert t[..q + 1][..q] == t[..q];
    assert t[..|t|] == t;
    if t[q].ProduceEnd? { e := q; } else { e := NextEnd(t, q + 1); }
  }

  /** Serially, the stores of an iteration come before its consumes and those of later iterations after. */
  lemma {:induction false} SerialOrder(t: seq<Event>, f: string, q: nat, w: nat, r: nat, u: nat, m: nat)
    requires StoreStands(t, q, w) && ReadStands(t, f, r, u, m)
    ensures q < r <==> w <= u
  {
    if r <= q { EndsGrow(t, r, q); }
    if q <= r { CountsGrow(t, q, r); }
  }

  /** The consumer, about to do the work at r, is in iteration u. */
  lemma {:induction false} ReaderConsumes(t: seq<Event>, f: string, n: nat, s: State, r: nat, u: nat, m: nat)
    requires RingTrace(t, f, n) && ReadStands(t, f, r, u, m) && s.j == |Consumer(t[..r], f, n)|
    ensures Consuming(t, f, n, s, m, u)
  {
    hide RingTrace;
    RingPrefix(t, f, n, r);
    RingEventAt(t, f, n, m);
    SharesGrow(t, f, n, m + 1, r);
    SplitAt(t, m, ConsumerShares(f, ConsumeSemaphores(f, n)));
    ProducerCounts(t[..r], f, n);
    OtherBalance(t[..r], f, n, RingSemaphore(f));
    assert Consumer(t, f, n)[..s.j] == Consumer(t[..r], f, n);
  }

  lemma {:induction false} BegunBy(t: seq<Event>, f: string, n: nat, q: nat, i: nat)
    requires RingTrace(t, f, n) && q <= |t| && |Producer(t[..q], f, n)| <= i <= |Producer(t, f, n)|
    ensures Begins(t[..q]) <= Begins(Producer(t, f, n)[..i])
  {
    hide RingTrace;
    SharesGrow(t, f, n, q, q);
    RingPrefix(t, f, n, q);
    ProducerCounts(t[..q], f, n);
    var p := Producer(t, f, n);
    CountsGrow(p, |Producer(t[..q], f, n)|, i);
    assert p[..|Producer(t[..q], f, n)|] == Producer(t[..q], f, n);
  }

  /** While the consumer is in iteration u, a store of iteration w into the slot of u has been made
      exactly when w is not a later iteration. */
  lemma {:induction false} StoreIsMadeIff(t: seq<Event>, f: string, n: nat, init: Counts, path: seq<State>, base: int, ring: int,
                                          q: nat, w: nat, m: nat, u: nat)
    requires RingTrace(t, f, n) && FreshSemaphores(init, f) && Count(init, RingSemaphore(f)) == 2 && ring >= 2
    requires IsRun(Producer(t, f, n), Consumer(t, f, n), init, path) && Consuming(t, f, n, path[|path| - 1], m, u)
    requires StoreStands(t, q, w) && Slot(base, ring, w) == Slot(base, ring, u)
    ensures path[|path| - 1].i > |Producer(t[..q], f, n)| <==> w <= u
  {
    hide RingTrace, Slot;
    var s := path[|path| - 1];
    SlotsCollideIff(base, ring, w, u);
    if w <= u {
      var e := NextEnd(t, q);
      RingPrefix(t, f, n, |t|);
      assert t[..|t|] == t;
      ConsumeAfterProduce(t, f, n, init, path, m, e);
      SharesGrow(t, f, n, q, e);
    } else {
      TwoIterationsAhead(t, f, n, init, path);
      if s.i > |Producer(t[..q], f, n)| { BegunBy(t, f, n, q, s.i); }
    }
  }

  /** What each task does for a store inside the produce node and for a read outside it. */
  lemma {:induction false} OwnShares(t: seq<Event>, f: string, n: nat, q: nat)
    requires q < |t| && t[q].Work? && !t[q].leaf.Store?
    ensures t[q].inside ==> |Producer(t[..q], f, n)| < |Producer(t, f, n)| && Producer(t, f, n)[|Producer(t[..q], f, n)|] == t[q]
    ensures !t[q].inside ==> |Consumer(t[..q], f, n)| < |Consumer(t, f, n)| && Consumer(t, f, n)[|Consumer(t[..q], f, n)|] == t[q]
  {
    SplitAt(t, q, ProducerShares(f, ConsumeSemaphores(f, n)));
    SplitAt(t, q, ConsumerShares(f, ConsumeSemaphores(f, n)));
  }

  /** The producer has performed its event for the serial event at q. */
  predicate Performed(t: seq<Event>, f: string, n: nat, s: State, q: nat)
    requires q <= |t|
  {
    s.i > |Producer(t[..q], f, n)|
  }

  /** The consumer's next event is the work at r, which reads `f` at last coordinate `y`. */
  ghost predicate AboutToRead(t: seq<Event>, f: string, n: nat, s: State, r: nat, y: int) {
    && r < |t| && t[r].Work? && !t[r].inside && LeafReadsFrom(t[r].leaf, f, t[r].env, y)
    && InConsume(t, n, r) && s.j == |Consumer(t[..r], f, n)|
  }

  /** Serially, the event at q is a store to `f` at last coordinate `y` inside the produce node. */
  predicate ProducesAt(t: seq<Event>, f: string, q: int, y: int) {
    0 <= q < |t| && t[q].Work? && t[q].inside && StoresTo(t[q].leaf, f, t[q].env, y)
  }

  lemma {:induction false} SlotOfEvent(f: string, ranges: seq<Range>, body: Stmt, ring: nat, env: Env, v: nat, e: Event, y: int)
    requires ranges != [] && DistinctNames(ranges) && Avoids(body, ranges) && ring > 0 && !HidesRead(body, f)
    requires v < |Environments(ranges, env)| && e.Work?
    requires e in Run(Indexed(f, ranges, body, IntImm(ring)), f, Environments(ranges, env)[v], 0, false)
    requires LeafReadsFrom(e.leaf, f, e.env, y) || StoresTo(e.leaf, f, e.env, y)
    ensures y == Slot(Base(ranges), ring, v)
  {
    hide LeafReadsFrom, Run, Indexed;
    AccessesGoToSlot(f, ranges, body, ring, env, v);
    var t := Run(Indexed(f, ranges, body, IntImm(ring)), f, Environments(ranges, env)[v], 0, false);
    var i :| 0 <= i < |t| && t[i] == e;
    assert AccessAt(t[i], f, Slot(Base(ranges), ring, v), true);
  }

  /** In every interleaving, when the consumer reads a ring-buffered Func, the stores the producer has made
      at the coordinate read are exactly those that come before the read in the serial program. */
  lemma {:induction false} ReadFindsSerialStores(f: string, ranges: seq<Range>, extents: seq<Expr>, body: Stmt, ring: nat,
                                                 producer: Stmt, consumer: Stmt, env: Env, init: Counts, path: seq<State>,
                                                 r: nat, y: int)
    requires ranges != [] && Sequential(body, f) && Unforked(body, f, true) && ProduceNodes(body, f) == 1
    requires DistinctNames(ranges) && Avoids(body, ranges) && !HidesRead(body, f) && ring >= 2
    requires SplitsTrace(producer, consumer, RingBody(f, ranges, extents, body, IntImm(ring)), f)
    requires FreshSemaphores(init, f) && Count(init, RingSemaphore(f)) == 2
    requires IsRun(Run(producer, f, env, 0, false), Run(consumer, f, env, 0, false), init, path)
    requires AboutToRead(Run(RingBody(f, ranges, extents, body, IntImm(ring)), f, env, 0, false), f, ConsumeNodes(body, f),
                         path[|path| - 1], r, y)
    ensures var t, n := Run(RingBody(f, ranges, extents, body, IntImm(ring)), f, env, 0, false), ConsumeNodes(body, f);
      var p, c, s := Run(producer, f, env, 0, false), Run(consumer, f, env, 0, false), path[|path| - 1];
      && s.j < |c| && c[s.j] == t[r]
      && forall q :: ProducesAt(t, f, q, y) ==>
           && |Producer(t[..q], f, n)| < |p| && p[|Producer(t[..q], f, n)|] == t[q]
           && (Performed(t, f, n, s, q) <==> q < r)
  {
    hide Run, RingBody, RingTrace, Indexed, HidesRead, Unforked, ReadStands, StoreStands, Consuming, LeafReadsFrom,
         InConsume, Environments, DistinctNames, Avoids, Nest, Sequential, BodyTrace, Flat, SlotsKept, LastIs, Loops, Balance, Begins;
    var t, n := Run(RingBody(f, ranges, extents, body, IntImm(ring)), f, env, 0, false), ConsumeNodes(body, f);
    var indexed, envs := Indexed(f, ranges, body, IntImm(ring)), Environments(ranges, env);
    NestIsFlat(f, ranges, extents, body, IntImm(ring), env);
    RingBodyTrace(f, ranges, extents, body, IntImm(ring), env);
    var u, m := FindRead(envs, indexed, f, r);
    SlotOfEvent(f, ranges, body, ring, env, u, t[r], y);
    ReaderConsumes(t, f, n, path[|path| - 1], r, u, m);
    OwnReads(t, f, n, r, y);
    forall q | ProducesAt(t, f, q, y)
      ensures |Producer(t[..q], f, n)| < |Producer(t, f, n)| && Producer(t, f, n)[|Producer(t[..q], f, n)|] == t[q]
      ensures Performed(t, f, n, path[|path| - 1], q) <==> q < r
    {
      var w := FindStore(envs, indexed, f, q);
      SlotOfEvent(f, ranges, body, ring, env, w, t[q], y);
      OwnShares(t, f, n, q);
      SerialOrder(t, f, q, w, r, u, m);
      StoreIsMadeIff(t, f, n, init, path, Base(ranges), ring, q, w, m, u);
    }
  }

  lemma {:induction false} OwnReads(t: seq<Event>, f: string, n: nat, r: nat, y: int)
    requires r < |t| && t[r].Work? && !t[r].inside && LeafReadsFrom(t[r].leaf, f, t[r].env, y)
    ensures |Consumer(t[..r], f, n)| < |Consumer(t, f, n)| && Consumer(t, f, n)[|Consumer(t[..r], f, n)|] == t[r]
  {
    OwnShares(t, f, n, r);
  }
}
