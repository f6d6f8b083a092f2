/** What the two halves of a forked body do together, in every interleaving. */
module ForkProtocol {
  import opened AsyncIR
  import opened AsyncFork
  import opened ForkInput
  import opened TaskPair
  import opened Flatten

  /** The semaphores `f.semaphore_0 .. f.semaphore_{n-1}`, one per consume node. */
  function ConsumeSemaphores(f: string, n: nat): (semas: seq<Semaphore>)
    ensures |semas| == n && forall i :: 0 <= i < n ==> semas[i] == ConsumeSemaphore(f, i)
  {
    if n == 0 then [] else ConsumeSemaphores(f, n - 1) + [ConsumeSemaphore(f, n - 1)]
  }

  /** The semaphore the i-th consume node waits on. */
  function SemaphoreOf(f: string, n: nat, node: nat): Semaphore
    requires node < n
  {
    ConsumeSemaphore(f, n - 1 - node)
  }

  /** Events a forkable body with `n` consume nodes leaves before the fork's semaphores exist. */
  predicate SerialEvent(e: Event, f: string, n: nat) {
    match e
    case Acquired(x, _, inside) => IsFoldingSemaphore(x, f) && !inside
    case Released(x, _, inside) => !x.ConsumeSemaphore? && (inside ==> !IsFoldingSemaphore(x, f))
    case ConsumeBegin(node) => node < n
    case _ => true
  }

  predicate SerialTrace(t: seq<Event>, f: string, n: nat) {
    forall k :: 0 <= k < |t| ==> SerialEvent(t[k], f, n)
  }

  function ProduceEnds(t: seq<Event>): nat {
    if t == [] then 0 else ProduceEnds(t[..|t| - 1]) + (if t[|t| - 1].ProduceEnd? then 1 else 0)
  }

  function ConsumeBegins(t: seq<Event>, node: nat): nat {
    if t == [] then 0 else ConsumeBegins(t[..|t| - 1], node) + (if t[|t| - 1] == ConsumeBegin(node) then 1 else 0)
  }

  /** Run serially, the body never waits: each consume follows its produce, and the folding
      semaphore always covers the next iteration. */
  ghost predicate SeriallyReady(t: seq<Event>, init: Counts) {
    && (forall m, node :: 0 <= m < |t| && t[m] == ConsumeBegin(node) ==> ConsumeBegins(t[..m], node) < ProduceEnds(t[..m]))
    && (forall m :: 0 <= m < |t| && t[m].Acquired? ==> Count(init, t[m].sema) + Balance(t[..m], t[m].sema) >= t[m].count)
  }

  /** The fork's own semaphores start at zero. */
  ghost predicate FreshSemaphores(init: Counts, f: string) {
    NonNegative(init) && forall i :: Count(init, ConsumeSemaphore(f, i)) == 0
  }

  // ---- Where the two halves stand in the serial trace ----

  lemma {:induction false} SplitAt(t: seq<Event>, m: nat, g: Event -> seq<Event>)
    requires m < |t|
    ensures Flat(t[..m + 1], g) == Flat(t[..m], g) + g(t[m])
    ensures Flat(t, g) == Flat(t[..m + 1], g) + Flat(t[m + 1..], g)
  {
    assert t[..m + 1] == t[..m] + [t[m]];
    FlatConcat(t[..m], [t[m]], g);
    FlatOne(t[m], g);
    assert t == t[..m + 1] + t[m + 1..];
    FlatConcat(t[..m + 1], t[m + 1..], g);
  }

  lemma {:induction false} PrefixOf(t: seq<Event>, m: nat, g: Event -> seq<Event>)
    requires m <= |t|
    ensures Flat(t[..m], g) <= Flat(t, g)
  {
    assert t == t[..m] + t[m..];
    FlatConcat(t[..m], t[m..], g);
  }

  lemma {:induction false} BalanceOne(e: Event, x: Semaphore)
    ensures Balance([e], x) == Delta(e, x)
  {
    assert [e][..0] == [];
  }

  lemma {:induction false} BalanceTwo(d: Event, e: Event, x: Semaphore)
    ensures Balance([d, e], x) == Delta(d, x) + Delta(e, x)
  {
    assert [d, e][..1] == [d];
    BalanceOne(d, x);
  }

  lemma {:induction false} ReleasesCount(semas: seq<Semaphore>, x: Semaphore)
    ensures Balance(Releases(semas), x) == multiset(semas)[x]
  {
    if semas != [] {
      var m := |semas| - 1;
      var r := Released(semas[m], 1, true);
      ReleasesCount(semas[..m], x);
      BalanceConcat([r], Releases(semas[..m]), x);
      BalanceOne(r, x);
      assert semas == semas[..m] + [semas[m]];
    }
  }

  lemma {:induction false} SemaphoresOnce(f: string, n: nat, x: Semaphore)
    ensures multiset(ConsumeSemaphores(f, n))[x] == if x.ConsumeSemaphore? && x.func == f && x.index < n then 1 else 0
  {
    if n > 0 {
      SemaphoresOnce(f, n - 1, x);
      assert multiset(ConsumeSemaphores(f, n)) == multiset(ConsumeSemaphores(f, n - 1)) + multiset([ConsumeSemaphore(f, n - 1)]);
    }
  }

  lemma {:induction false} ReleasesBalance(f: string, n: nat, x: Semaphore)
    ensures Balance(Releases(ConsumeSemaphores(f, n)), x)
         == if x.ConsumeSemaphore? && x.func == f && x.index < n then 1 else 0
  {
    ReleasesCount(ConsumeSemaphores(f, n), x);
    SemaphoresOnce(f, n, x);
  }

  lemma {:induction false} ProducerShareBalance(e: Event, f: string, n: nat, i: nat)
    requires SerialEvent(e, f, n) && i < n
    ensures Balance(ProducerShare(e, f, ConsumeSemaphores(f, n)), ConsumeSemaphore(f, i)) == if e.ProduceEnd? then 1 else 0
  {
    var x := ConsumeSemaphore(f, i);
    BalanceOne(e, x);
    if e.ProduceEnd? {
      ReleasesBalance(f, n, x);
      BalanceConcat(Releases(ConsumeSemaphores(f, n)), [e], x);
    }
  }

  lemma {:induction false} ConsumerShareBalance(e: Event, f: string, n: nat, node: nat)
    requires SerialEvent(e, f, n) && node < n
    ensures Balance(ConsumerShare(e, f, ConsumeSemaphores(f, n)), SemaphoreOf(f, n, node))
         == if e == ConsumeBegin(node) then -1 else 0
  {
    var x := SemaphoreOf(f, n, node);
    BalanceOne(e, x);
    if e.ConsumeBegin? {
      var a := Acquired(ConsumeSemaphore(f, n - 1 - e.node), 1, false);
      assert ConsumerShare(e, f, ConsumeSemaphores(f, n)) == [a, e];
      BalanceTwo(a, e, x);
    }
  }

  /** The producer releases each consume semaphore once per finished produce, and never takes one. */
  lemma {:induction false} ProducerBalance(t: seq<Event>, f: string, n: nat, i: nat)
    requires SerialTrace(t, f, n) && i < n
    ensures Balance(ProducerTrace(t, f, ConsumeSemaphores(f, n)), ConsumeSemaphore(f, i)) == ProduceEnds(t)
  {
    if t != [] {
      var m := |t| - 1;
      var semas := ConsumeSemaphores(f, n);
      ProducerBalance(t[..m], f, n, i);
      SplitAt(t, m, ProducerShares(f, semas));
      assert t[..m + 1] == t;
      BalanceConcat(ProducerTrace(t[..m], f, semas), ProducerShare(t[m], f, semas), ConsumeSemaphore(f, i));
      ProducerShareBalance(t[m], f, n, i);
    }
  }

  /** The consumer takes each consume semaphore once per run of its node. */
  lemma {:induction false} ConsumerBalance(t: seq<Event>, f: string, n: nat, node: nat)
    requires SerialTrace(t, f, n) && node < n
    ensures Balance(ConsumerTrace(t, f, ConsumeSemaphores(f, n)), SemaphoreOf(f, n, node)) == -(ConsumeBegins(t, node) as int)
  {
    if t != [] {
      var m := |t| - 1;
      var semas := ConsumeSemaphores(f, n);
      ConsumerBalance(t[..m], f, n, node);
      SplitAt(t, m, ConsumerShares(f, semas));
      assert t[..m + 1] == t;
      BalanceConcat(ConsumerTrace(t[..m], f, semas), ConsumerShare(t[m], f, semas), SemaphoreOf(f, n, node));
      ConsumerShareBalance(t[m], f, n, node);
    }
  }

  /** Every other semaphore is used by the two halves together exactly as in the serial body. */
  lemma {:induction false} OtherBalance(t: seq<Event>, f: string, n: nat, x: Semaphore)
    requires SerialTrace(t, f, n) && !x.ConsumeSemaphore?
    ensures Balance(ProducerTrace(t, f, ConsumeSemaphores(f, n)), x)
          + Balance(ConsumerTrace(t, f, ConsumeSemaphores(f, n)), x) == Balance(t, x)
  {
    if t != [] {
      var m := |t| - 1;
      var semas := ConsumeSemaphores(f, n);
      OtherBalance(t[..m], f, n, x);
      SplitAt(t, m, ProducerShares(f, semas));
      SplitAt(t, m, ConsumerShares(f, semas));
      assert t[..m + 1] == t;
      BalanceConcat(ProducerTrace(t[..m], f, semas), ProducerShare(t[m], f, semas), x);
      BalanceConcat(ConsumerTrace(t[..m], f, semas), ConsumerShare(t[m], f, semas), x);
      ShareBalance(t[m], f, n, x);
    }
  }

  lemma {:induction false} ShareBalance(e: Event, f: string, n: nat, x: Semaphore)
    requires SerialEvent(e, f, n) && !x.ConsumeSemaphore?
    ensures Balance(ProducerShare(e, f, ConsumeSemaphores(f, n)), x)
          + Balance(ConsumerShare(e, f, ConsumeSemaphores(f, n)), x) == Delta(e, x)
  {
    var semas := ConsumeSemaphores(f, n);
    BalanceOne(e, x);
    if e.ProduceEnd? {
      ReleasesBalance(f, n, x);
      BalanceConcat(Releases(semas), [e], x);
    } else if e.ConsumeBegin? {
      var a := Acquired(semas[n - 1 - e.node], 1, false);
      assert ConsumerShare(e, f, semas) == [a] + [e];
      BalanceConcat([a], [e], x);
      BalanceOne(a, x);
    }
  }

  // ---- No interleaving gets stuck ----

  function Producer(t: seq<Event>, f: string, n: nat): seq<Event> { ProducerTrace(t, f, ConsumeSemaphores(f, n)) }

  function Consumer(t: seq<Event>, f: string, n: nat): seq<Event> { ConsumerTrace(t, f, ConsumeSemaphores(f, n)) }

  /** The last point of the serial trace that both tasks have passed. */
  lemma {:induction false} Frontier(t: seq<Event>, f: string, n: nat, i: nat, j: nat, from: nat) returns (m: nat)
    requires from <= |t| && |Producer(t[..from], f, n)| <= i && |Consumer(t[..from], f, n)| <= j
    ensures from <= m <= |t| && |Producer(t[..m], f, n)| <= i && |Consumer(t[..m], f, n)| <= j
    ensures m < |t| ==> |Producer(t[..m + 1], f, n)| > i || |Consumer(t[..m + 1], f, n)| > j
    decreases |t| - from
  {
    if from < |t| && |Producer(t[..from + 1], f, n)| <= i && |Consumer(t[..from + 1], f, n)| <= j {
      m := Frontier(t, f, n, i, j, from + 1);
    } else {
      m := from;
    }
  }

  /** Inside one event's share, the task stands at a definite offset. */
  lemma {:induction false} Within(t: seq<Event>, m: nat, g: Event -> seq<Event>, i: nat)
    requires m < |t| && |Flat(t[..m], g)| <= i < |Flat(t[..m + 1], g)|
    ensures i < |Flat(t, g)| && i - |Flat(t[..m], g)| < |g(t[m])|
    ensures Flat(t, g)[i] == g(t[m])[i - |Flat(t[..m], g)|]
    ensures Flat(t, g)[..i] == Flat(t[..m], g) + g(t[m])[..i - |Flat(t[..m], g)|]
  {
    SplitAt(t, m, g);
  }

  lemma {:induction false} ReleasesAreReleases(semas: seq<Semaphore>, o: nat)
    requires o < |Releases(semas)|
    ensures Releases(semas)[o].Released? && Releases(semas)[o].inside
  {
    if o > 0 { ReleasesAreReleases(semas[..|semas| - 1], o - 1); }
  }

  /** Only the first event of a share can wait. */
  lemma {:induction false} WaitsComeFirst(e: Event, f: string, n: nat, o: nat)
    requires SerialEvent(e, f, n)
    ensures o < |ProducerShare(e, f, ConsumeSemaphores(f, n))| && ProducerShare(e, f, ConsumeSemaphores(f, n))[o].Acquired?
            ==> o == 0 && ProducerShare(e, f, ConsumeSemaphores(f, n)) == [e]
    ensures o < |ConsumerShare(e, f, ConsumeSemaphores(f, n))| && ConsumerShare(e, f, ConsumeSemaphores(f, n))[o].Acquired?
            ==> o == 0 && e.ConsumeBegin?
                && ConsumerShare(e, f, ConsumeSemaphores(f, n))[o] == Acquired(SemaphoreOf(f, n, e.node), 1, false)
  {
    var semas := ConsumeSemaphores(f, n);
    if e.ProduceEnd? && o < |Releases(semas)| {
      ReleasesAreReleases(semas, o);
    }
  }

  lemma {:induction false} ConsumerNeverFolds(t: seq<Event>, f: string, n: nat, x: Semaphore)
    requires SerialTrace(t, f, n) && !x.ConsumeSemaphore?
    ensures NeverAcquires(Consumer(t, f, n), x)
  {
    if t != [] {
      ConsumerNeverFolds(t[1..], f, n, x);
      var share := ConsumerShare(t[0], f, ConsumeSemaphores(f, n));
      assert Consumer(t, f, n) == share + Consumer(t[1..], f, n);
      assert SerialEvent(t[0], f, n);
    }
  }

  lemma {:induction false} ProducerNeverConsumes(t: seq<Event>, f: string, n: nat, x: Semaphore)
    requires SerialTrace(t, f, n) && x.ConsumeSemaphore?
    ensures NeverAcquires(Producer(t, f, n), x)
  {
    if t != [] {
      ProducerNeverConsumes(t[1..], f, n, x);
      var share := ProducerShare(t[0], f, ConsumeSemaphores(f, n));
      assert Producer(t, f, n) == share + Producer(t[1..], f, n);
      assert SerialEvent(t[0], f, n);
      forall o | 0 <= o < |share| ensures !(share[o].Acquired? && share[o].sema == x) {
        WaitsComeFirst(t[0], f, n, o);
      }
    }
  }

  lemma {:induction false} BalancePrefixGrows(t: seq<Event>, u: seq<Event>, x: Semaphore)
    requires t <= u && NeverAcquires(u, x)
    ensures Balance(t, x) <= Balance(u, x)
  {
    assert u[..|t|] == t && u[..|u|] == u;
    BalanceGrows(u, |t|, |u|, x);
  }

  lemma {:induction false} NeverAcquiresPrefix(t: seq<Event>, m: nat, x: Semaphore)
    requires m <= |t| && NeverAcquires(t, x)
    ensures NeverAcquires(t[..m], x)
  {
  }

  /** If the serial body never waits then, whatever the interleaving has done so far, one of the two
      tasks can go on. */
  lemma {:induction false} NeverStuck(t: seq<Event>, f: string, n: nat, init: Counts, path: seq<State>)
    requires SerialTrace(t, f, n) && FreshSemaphores(init, f) && SeriallyReady(t, init)
    requires IsRun(Producer(t, f, n), Consumer(t, f, n), init, path)
    ensures !Stuck(Producer(t, f, n), Consumer(t, f, n), path[|path| - 1])
  {
    var p, c, s := Producer(t, f, n), Consumer(t, f, n), path[|path| - 1];
    var ps, cs := ProducerShares(f, ConsumeSemaphores(f, n)), ConsumerShares(f, ConsumeSemaphores(f, n));
    RunInvariant(p, c, init, path, |path| - 1);
    assert t[..0] == [];
    var m := Frontier(t, f, n, s.i, s.j, 0);
    if m == |t| {
      assert t[..m] == t;
    } else if |Producer(t[..m + 1], f, n)| > s.i {
      Within(t, m, ps, s.i);
      WaitsComeFirst(t[m], f, n, s.i - |Producer(t[..m], f, n)|);
      if p[s.i].Acquired? {
        ProducerCanFold(t, f, n, init, m, s);
      }
      assert Step(p, c, s, State(s.i + 1, s.j, After(p[s.i], s.sem)));
    } else {
      Within(t, m, cs, s.j);
      WaitsComeFirst(t[m], f, n, s.j - |Consumer(t[..m], f, n)|);
      if c[s.j].Acquired? {
        ConsumerCanConsume(t, f, n, init, m, s);
      }
      assert Step(p, c, s, State(s.i, s.j + 1, After(c[s.j], s.sem)));
    }
  }

  lemma {:induction false} ProducerCanFold(t: seq<Event>, f: string, n: nat, init: Counts, m: nat, s: State)
    requires SerialTrace(t, f, n) && SeriallyReady(t, init)
    requires m < |t| && t[m].Acquired?
    requires Consistent(Producer(t, f, n), Consumer(t, f, n), init, s)
    requires s.i == |Producer(t[..m], f, n)| && s.j >= |Consumer(t[..m], f, n)|
    ensures Count(s.sem, t[m].sema) >= t[m].count
  {
    var p, c, x := Producer(t, f, n), Consumer(t, f, n), t[m].sema;
    PrefixOf(t, m, ProducerShares(f, ConsumeSemaphores(f, n)));
    PrefixOf(t, m, ConsumerShares(f, ConsumeSemaphores(f, n)));
    assert SerialEvent(t[m], f, n);
    assert p[..s.i] == Producer(t[..m], f, n);
    ConsumerNeverFolds(t, f, n, x);
    NeverAcquiresPrefix(c, s.j, x);
    BalancePrefixGrows(Consumer(t[..m], f, n), c[..s.j], x);
    OtherBalance(t[..m], f, n, x);
  }

  lemma {:induction false} ConsumerCanConsume(t: seq<Event>, f: string, n: nat, init: Counts, m: nat, s: State)
    requires SerialTrace(t, f, n) && SeriallyReady(t, init) && FreshSemaphores(init, f)
    requires m < |t| && t[m].ConsumeBegin?
    requires Consistent(Producer(t, f, n), Consumer(t, f, n), init, s)
    requires s.i >= |Producer(t[..m], f, n)| && s.j == |Consumer(t[..m], f, n)|
    ensures t[m].node < n && Count(s.sem, SemaphoreOf(f, n, t[m].node)) >= 1
  {
    assert SerialEvent(t[m], f, n);
    var p, c, x := Producer(t, f, n), Consumer(t, f, n), SemaphoreOf(f, n, t[m].node);
    PrefixOf(t, m, ProducerShares(f, ConsumeSemaphores(f, n)));
    PrefixOf(t, m, ConsumerShares(f, ConsumeSemaphores(f, n)));
    assert c[..s.j] == Consumer(t[..m], f, n);
    ProducerNeverConsumes(t, f, n, x);
    NeverAcquiresPrefix(p, s.i, x);
    BalancePrefixGrows(Producer(t[..m], f, n), p[..s.i], x);
    ProducerBalance(t[..m], f, n, x.index);
    ConsumerBalance(t[..m], f, n, t[m].node);
    assert t[m] == ConsumeBegin(t[m].node);
  }

  /** When both tasks are done, each consume semaphore holds the produces its node did not run for,
      and every other semaphore is where the serial body would have left it. */
  lemma {:induction false} FinalCounts(t: seq<Event>, f: string, n: nat, init: Counts, path: seq<State>)
    requires SerialTrace(t, f, n) && FreshSemaphores(init, f)
    requires IsRun(Producer(t, f, n), Consumer(t, f, n), init, path)
    requires Finished(Producer(t, f, n), Consumer(t, f, n), path[|path| - 1])
    ensures forall node :: 0 <= node < n ==>
      Count(path[|path| - 1].sem, SemaphoreOf(f, n, node)) == ProduceEnds(t) - ConsumeBegins(t, node)
    ensures forall x: Semaphore :: !x.ConsumeSemaphore? ==>
      Count(path[|path| - 1].sem, x) == Count(init, x) + Balance(t, x)
  {
    var p, c, s := Producer(t, f, n), Consumer(t, f, n), path[|path| - 1];
    RunInvariant(p, c, init, path, |path| - 1);
    assert p[..s.i] == p && c[..s.j] == c;
    forall node | 0 <= node < n
      ensures Count(s.sem, SemaphoreOf(f, n, node)) == ProduceEnds(t) - ConsumeBegins(t, node)
    {
      ProducerBalance(t, f, n, SemaphoreOf(f, n, node).index);
      ConsumerBalance(t, f, n, node);
    }
    forall x: Semaphore | !x.ConsumeSemaphore? ensures Count(s.sem, x) == Count(init, x) + Balance(t, x) {
      OtherBalance(t, f, n, x);
    }
  }

  // ---- No consume starts early ----

  predicate NeverReleases(t: seq<Event>, x: Semaphore) {
    forall k :: 0 <= k < |t| ==> !(t[k].Released? && t[k].sema == x)
  }

  lemma {:induction false} BalanceShrinks(t: seq<Event>, m: nat, n: nat, x: Semaphore)
    requires m <= n <= |t| && NeverReleases(t, x)
    ensures Balance(t[..m], x) >= Balance(t[..n], x)
  {
    if m < n {
      BalanceShrinks(t, m, n - 1, x);
      assert t[..n][..n - 1] == t[..n - 1];
    }
  }

  lemma {:induction false} ConsumerNeverReleases(t: seq<Event>, f: string, n: nat, x: Semaphore)
    requires SerialTrace(t, f, n) && x.ConsumeSemaphore?
    ensures NeverReleases(Consumer(t, f, n), x)
  {
    if t != [] {
      ConsumerNeverReleases(t[1..], f, n, x);
      var share := ConsumerShare(t[0], f, ConsumeSemaphores(f, n));
      assert Consumer(t, f, n) == share + Consumer(t[1..], f, n);
      assert SerialEvent(t[0], f, n);
    }
  }

  /** In every interleaving, once a consume node has started for the k-th time, the producer has
      finished all its work up to the end of its k-th produce. */
  lemma {:induction false} ConsumeAfterProduce(t: seq<Event>, f: string, n: nat, init: Counts, path: seq<State>, m: nat, q: nat)
    requires SerialTrace(t, f, n) && FreshSemaphores(init, f)
    requires IsRun(Producer(t, f, n), Consumer(t, f, n), init, path)
    requires m < |t| && t[m].ConsumeBegin?
    requires path[|path| - 1].j > |Consumer(t[..m], f, n)|
    requires q < |t| && t[q].ProduceEnd? && ProduceEnds(t[..q]) <= ConsumeBegins(t[..m], t[m].node)
    ensures path[|path| - 1].i > |Producer(t[..q], f, n)|
  {
    var p, c, s := Producer(t, f, n), Consumer(t, f, n), path[|path| - 1];
    RunInvariant(p, c, init, path, |path| - 1);
    assert SerialEvent(t[m], f, n);
    var x := SemaphoreOf(f, n, t[m].node);
    if s.i <= |Producer(t[..q], f, n)| {
      ReleasedBefore(t, f, n, q, s.i, t[m].node);
      TakenBy(t, f, n, m, s.j);
      assert false;
    }
  }

  /** Up to the q-th event the producer has released at most the produces that came before. */
  lemma {:induction false} ReleasedBefore(t: seq<Event>, f: string, n: nat, q: nat, i: nat, node: nat)
    requires SerialTrace(t, f, n) && q < |t| && node < n && i <= |Producer(t[..q], f, n)|
    ensures i <= |Producer(t, f, n)| && Balance(Producer(t, f, n)[..i], SemaphoreOf(f, n, node)) <= ProduceEnds(t[..q])
  {
    var p, x := Producer(t, f, n), SemaphoreOf(f, n, node);
    PrefixOf(t, q, ProducerShares(f, ConsumeSemaphores(f, n)));
    ProducerNeverConsumes(t, f, n, x);
    BalanceGrows(p, i, |Producer(t[..q], f, n)|, x);
    assert p[..|Producer(t[..q], f, n)|] == Producer(t[..q], f, n);
    ProducerBalance(t[..q], f, n, x.index);
  }

  /** Once past the m-th event, a consume, the consumer has taken one more than the consumes before it. */
  lemma {:induction false} TakenBy(t: seq<Event>, f: string, n: nat, m: nat, j: nat)
    requires SerialTrace(t, f, n) && m < |t| && t[m].ConsumeBegin? && t[m].node < n
    requires |Consumer(t[..m], f, n)| < j <= |Consumer(t, f, n)|
    ensures Balance(Consumer(t, f, n)[..j], SemaphoreOf(f, n, t[m].node)) <= -1 - ConsumeBegins(t[..m], t[m].node)
  {
    var c, cs, x := Consumer(t, f, n), ConsumerShares(f, ConsumeSemaphores(f, n)), SemaphoreOf(f, n, t[m].node);
    var taken := |Consumer(t[..m], f, n)| + 1;
    SplitAt(t, m, cs);
    Within(t, m, cs, taken - 1);
    ConsumerBalance(t[..m], f, n, t[m].node);
    assert c[..taken] == Consumer(t[..m], f, n) + [Acquired(x, 1, false)];
    BalanceConcat(Consumer(t[..m], f, n), [Acquired(x, 1, false)], x);
    BalanceOne(Acquired(x, 1, false), x);
    ConsumerNeverReleases(t, f, n, x);
    BalanceShrinks(c, taken, j, x);
  }

  // ---- Exactly when an unfolded fork can hang ----

  /** Some run from `path` on goes as far as it can. */
  lemma {:induction false} RunToTheEnd(p: seq<Event>, c: seq<Event>, init: Counts, path: seq<State>) returns (whole: seq<State>)
    requires IsRun(p, c, init, path) && NonNegative(init)
    ensures IsRun(p, c, init, whole) && Blocked(p, c, whole[|whole| - 1])
    decreases |p| + |c| + 1 - |path|
  {
    RunsAreFinite(p, c, init, path);
    var s := path[|path| - 1];
    if s' :| Step(p, c, s, s') {
      RunsAreFinite(p, c, init, path + [s']);
      whole := RunToTheEnd(p, c, init, path + [s']);
    } else {
      whole := path;
    }
  }

  lemma {:induction false} ConsumeBeginsGrow(t: seq<Event>, m: nat, k: nat, node: nat)
    requires m <= k <= |t|
    ensures ConsumeBegins(t[..m], node) <= ConsumeBegins(t[..k], node)
  {
    if m < k {
      ConsumeBeginsGrow(t, m, k - 1, node);
      assert t[..k][..k - 1] == t[..k - 1];
    }
  }

  predicate NoWaits(t: seq<Event>) { forall k :: 0 <= k < |t| ==> !t[k].Acquired? }

  /** Without folding semaphores, the fork can never hang exactly when no consume node runs more
      often than the producer produces. */
  lemma {:induction false} NeverHangsIff(t: seq<Event>, f: string, n: nat, init: Counts)
    requires SerialTrace(t, f, n) && FreshSemaphores(init, f) && NoWaits(t)
    ensures (forall path :: IsRun(Producer(t, f, n), Consumer(t, f, n), init, path)
                            ==> !Stuck(Producer(t, f, n), Consumer(t, f, n), path[|path| - 1]))
       <==> (forall node :: 0 <= node < n ==> ConsumeBegins(t, node) <= ProduceEnds(t))
  {
    var p, c := Producer(t, f, n), Consumer(t, f, n);
    if forall node :: 0 <= node < n ==> ConsumeBegins(t, node) <= ProduceEnds(t) {
      forall path | IsRun(p, c, init, path) ensures !Stuck(p, c, path[|path| - 1]) {
        EnoughProduces(t, f, n, init, path);
      }
    } else {
      var node :| 0 <= node < n && ConsumeBegins(t, node) > ProduceEnds(t);
      var path := TooFewProduces(t, f, n, init, node);
      assert IsRun(p, c, init, path) && Stuck(p, c, path[|path| - 1]);
    }
  }

  lemma {:induction false} TooFewProduces(t: seq<Event>, f: string, n: nat, init: Counts, node: nat) returns (path: seq<State>)
    requires SerialTrace(t, f, n) && FreshSemaphores(init, f)
    requires node < n && ConsumeBegins(t, node) > ProduceEnds(t)
    ensures IsRun(Producer(t, f, n), Consumer(t, f, n), init, path)
    ensures Stuck(Producer(t, f, n), Consumer(t, f, n), path[|path| - 1])
  {
    var p, c := Producer(t, f, n), Consumer(t, f, n);
    path := RunToTheEnd(p, c, init, [State(0, 0, init)]);
    RunInvariant(p, c, init, path, |path| - 1);
    if Finished(p, c, path[|path| - 1]) {
      FinalCounts(t, f, n, init, path);
    }
  }

  lemma {:induction false} FreshIsNonNegative(init: Counts, f: string)
    requires FreshSemaphores(init, f)
    ensures NonNegative(init)
  {
  }

  lemma {:induction false} EnoughProduces(t: seq<Event>, f: string, n: nat, init: Counts, path: seq<State>)
    requires SerialTrace(t, f, n) && FreshSemaphores(init, f) && NoWaits(t)
    requires IsRun(Producer(t, f, n), Consumer(t, f, n), init, path)
    requires forall node :: 0 <= node < n ==> ConsumeBegins(t, node) <= ProduceEnds(t)
    ensures !Stuck(Producer(t, f, n), Consumer(t, f, n), path[|path| - 1])
  {
    hide ProducerShare, ConsumerShare, ConsumeSemaphores, Balance, SerialEvent, Count;
    var p, c, s := Producer(t, f, n), Consumer(t, f, n), path[|path| - 1];
    var ps, cs := ProducerShares(f, ConsumeSemaphores(f, n)), ConsumerShares(f, ConsumeSemaphores(f, n));
    FreshIsNonNegative(init, f);
    RunInvariant(p, c, init, path, |path| - 1);
    assert t[..0] == [];
    if s.i < |p| {
      var m := Frontier(t, f, n, s.i, |c|, 0);
      PrefixOf(t, if m < |t| then m + 1 else m, cs);
      assert t[..|t|] == t;
      Within(t, m, ps, s.i);
      WaitsComeFirst(t[m], f, n, s.i - |Producer(t[..m], f, n)|);
      assert Step(p, c, s, State(s.i + 1, s.j, After(p[s.i], s.sem)));
    } else if s.j < |c| {
      ConsumerGoesOn(t, f, n, init, path);
    }
  }

  /** With the producer done, the consumer can always take its next step. */
  lemma {:induction false} ConsumerGoesOn(t: seq<Event>, f: string, n: nat, init: Counts, path: seq<State>)
    requires SerialTrace(t, f, n) && FreshSemaphores(init, f) && NoWaits(t)
    requires IsRun(Producer(t, f, n), Consumer(t, f, n), init, path)
    requires forall node :: 0 <= node < n ==> ConsumeBegins(t, node) <= ProduceEnds(t)
    requires path[|path| - 1].i == |Producer(t, f, n)| && path[|path| - 1].j < |Consumer(t, f, n)|
    ensures !Stuck(Producer(t, f, n), Consumer(t, f, n), path[|path| - 1])
  {
    hide ProducerShare, ConsumerShare, ConsumeSemaphores, Balance;
    var p, c, s := Producer(t, f, n), Consumer(t, f, n), path[|path| - 1];
    var ps, cs := ProducerShares(f, ConsumeSemaphores(f, n)), ConsumerShares(f, ConsumeSemaphores(f, n));
    RunInvariant(p, c, init, path, |path| - 1);
    assert t[..0] == [];
    var m := Frontier(t, f, n, |p|, s.j, 0);
    PrefixOf(t, if m < |t| then m + 1 else m, ps);
    assert t[..|t|] == t;
    Within(t, m, cs, s.j);
    WaitsComeFirst(t[m], f, n, s.j - |Consumer(t[..m], f, n)|);
    if c[s.j].Acquired? {
      assert SerialEvent(t[m], f, n);
      var x := SemaphoreOf(f, n, t[m].node);
      assert p[..s.i] == p && c[..s.j] == Consumer(t[..m], f, n) + [] == Consumer(t[..m], f, n);
      EnoughReleased(t, f, n, m);
      assert Count(s.sem, x) == Count(init, x) + Balance(p, x) + Balance(Consumer(t[..m], f, n), x);
    }
    assert Step(p, c, s, State(s.i, s.j + 1, After(c[s.j], s.sem)));
  }

  /** The producer's releases in all exceed the consumer's acquires so far. */
  lemma {:induction false} EnoughReleased(t: seq<Event>, f: string, n: nat, m: nat)
    requires SerialTrace(t, f, n) && m < |t| && t[m].ConsumeBegin? && t[m].node < n && ConsumeBegins(t, t[m].node) <= ProduceEnds(t)
    ensures var x := SemaphoreOf(f, n, t[m].node); Balance(Producer(t, f, n), x) + Balance(Consumer(t[..m], f, n), x) >= 1
  {
    ProducerBalance(t, f, n, SemaphoreOf(f, n, t[m].node).index);
    ConsumerBalance(t[..m], f, n, t[m].node);
    ConsumeBeginsGrow(t, m + 1, |t|, t[m].node);
    assert t[..m + 1][..m] == t[..m] && t[..|t|] == t;
  }

  /** A produce node, and a loop that runs the consume node twice. */
  function ConsumedTwice(f: string, x: string): Stmt {
    Block(ProducerConsumer(f, true, NoOp), For(x, IntImm(0), IntImm(1), ProducerConsumer(f, false, NoOp)))
  }

  lemma {:induction false} ConsumedTwiceTrace(f: string, x: string, env: Env)
    ensures Run(ConsumedTwice(f, x), f, env, 0, false)
         == [ProduceBegin, ProduceEnd, ConsumeBegin(0), ConsumeEnd(0), ConsumeBegin(0), ConsumeEnd(0)]
    ensures ConsumeNodes(ConsumedTwice(f, x), f) == 1
  {
    var produce, node := ProducerConsumer(f, true, NoOp), ProducerConsumer(f, false, NoOp);
    var loop := For(x, IntImm(0), IntImm(1), node);
    assert ConsumeNodes(NoOp, f) == 0 && ConsumeNodes(produce, f) == 0 && ConsumeNodes(node, f) == 1 && ConsumeNodes(loop, f) == 1;
    assert Run(node, f, env[x := 0], 0, false) == Run(node, f, env[x := 1], 0, false) == [ConsumeBegin(0), ConsumeEnd(0)];
    assert RunLoop(x, 2, 1, node, f, env, 0, false) == [];
    assert RunLoop(x, 1, 1, node, f, env, 0, false) == [ConsumeBegin(0), ConsumeEnd(0)];
    assert RunLoop(x, 0, 1, node, f, env, 0, false) == [ConsumeBegin(0), ConsumeEnd(0)] + [ConsumeBegin(0), ConsumeEnd(0)];
    assert Run(loop, f, env, 0, false) == RunLoop(x, 0, 1, node, f, env, 0, false);
    assert Run(produce, f, env, 0, false) == [ProduceBegin, ProduceEnd];
    assert Run(Block(produce, loop), f, env, 0, false) == Run(produce, f, env, 0, false) + Run(loop, f, env, 0, false);
  }

  /** What each task does for the markers of a body with one consume node. */
  lemma {:induction false} SharesOfOne(f: string)
    ensures var ps, y := ProducerShares(f, ConsumeSemaphores(f, 1)), ConsumeSemaphore(f, 0);
      && ps(ProduceBegin) == [ProduceBegin] && ps(ProduceEnd) == [Released(y, 1, true), ProduceEnd]
      && ps(ConsumeBegin(0)) == [] && ps(ConsumeEnd(0)) == []
    ensures var cs, y := ConsumerShares(f, ConsumeSemaphores(f, 1)), ConsumeSemaphore(f, 0);
      && cs(ProduceBegin) == [] && cs(ProduceEnd) == []
      && cs(ConsumeBegin(0)) == [Acquired(y, 1, false), ConsumeBegin(0)] && cs(ConsumeEnd(0)) == [ConsumeEnd(0)]
  {
    var semas := ConsumeSemaphores(f, 1);
    assert semas == [ConsumeSemaphore(f, 0)];
    assert Releases(semas) == [Released(ConsumeSemaphore(f, 0), 1, true)] by { assert semas[..0] == []; }
  }

  lemma {:induction false} ConsumedTwiceTasks(f: string)
    ensures var t := [ProduceBegin, ProduceEnd, ConsumeBegin(0), ConsumeEnd(0), ConsumeBegin(0), ConsumeEnd(0)];
      var a := Acquired(ConsumeSemaphore(f, 0), 1, false);
      && Producer(t, f, 1) == [ProduceBegin, Released(ConsumeSemaphore(f, 0), 1, true), ProduceEnd]
      && Consumer(t, f, 1) == [a, ConsumeBegin(0), ConsumeEnd(0), a, ConsumeBegin(0), ConsumeEnd(0)]
  {
    hide ProducerShares, ConsumerShares, ConsumeSemaphores, Flat;
    SharesOfOne(f);
    var ps, cs := ProducerShares(f, ConsumeSemaphores(f, 1)), ConsumerShares(f, ConsumeSemaphores(f, 1));
    FlatSix(ProduceBegin, ProduceEnd, ConsumeBegin(0), ConsumeEnd(0), ConsumeBegin(0), ConsumeEnd(0), ps);
    FlatSix(ProduceBegin, ProduceEnd, ConsumeBegin(0), ConsumeEnd(0), ConsumeBegin(0), ConsumeEnd(0), cs);
  }

  /** One produce and two consumes: the run in which the producer is done and the consumer waits for ever. */
  lemma {:induction false} SecondConsumeHangs(f: string, x: string, env: Env, init: Counts) returns (path: seq<State>)
    requires FreshSemaphores(init, f)
    ensures var t := Run(ConsumedTwice(f, x), f, env, 0, false);
      var p, c := Producer(t, f, 1), Consumer(t, f, 1);
      && IsRun(p, c, init, path) && Stuck(p, c, path[|path| - 1])
      && path[|path| - 1].i == |p| && path[|path| - 1].j == 3
  {
    hide Producer, Consumer, Run, ConsumedTwice;
    ConsumedTwiceTrace(f, x, env);
    ConsumedTwiceTasks(f);
    var y := ConsumeSemaphore(f, 0);
    assert Count(init, y) == 0;
    var one := init[y := 1];
    var none := one[y := 0];
    path := [State(0, 0, init), State(1, 0, init), State(2, 0, one), State(3, 0, one),
             State(3, 1, none), State(3, 2, none), State(3, 3, none)];
  }
}
