/** Two tasks running side by side, synchronised by counting semaphores.  Each task is the fixed
    sequence of events it performs, because no bound or condition reads storage. */
module TaskPair {
  import opened AsyncIR

  type Counts = map<Semaphore, int>

  function Count(sem: Counts, x: Semaphore): int { if x in sem then sem[x] else 0 }

  /** How far each task has got, and the value of every semaphore. */
  datatype State = State(i: nat, j: nat, sem: Counts)

  predicate Ready(e: Event, sem: Counts) { e.Acquired? ==> Count(sem, e.sema) >= e.count }

  function After(e: Event, sem: Counts): Counts {
    match e
    case Acquired(x, n, _) => sem[x := Count(sem, x) - n]
    case Released(x, n, _) => sem[x := Count(sem, x) + n]
    case _ => sem
  }

  /** One task performs its next event; an acquire waits until the count suffices. */
  predicate Step(p: seq<Event>, c: seq<Event>, s: State, s': State) {
    || (s.i < |p| && Ready(p[s.i], s.sem) && s' == State(s.i + 1, s.j, After(p[s.i], s.sem)))
    || (s.j < |c| && Ready(c[s.j], s.sem) && s' == State(s.i, s.j + 1, After(c[s.j], s.sem)))
  }

  /** Any interleaving, from both tasks at their start. */
  ghost predicate IsRun(p: seq<Event>, c: seq<Event>, init: Counts, path: seq<State>) {
    && |path| > 0 && path[0] == State(0, 0, init)
    && forall k :: 0 <= k < |path| - 1 ==> Step(p, c, path[k], path[k + 1])
  }

  predicate Finished(p: seq<Event>, c: seq<Event>, s: State) { s.i == |p| && s.j == |c| }

  ghost predicate Blocked(p: seq<Event>, c: seq<Event>, s: State) { forall s' :: !Step(p, c, s, s') }

  ghost predicate Stuck(p: seq<Event>, c: seq<Event>, s: State) { !Finished(p, c, s) && Blocked(p, c, s) }

  /** What an event adds to a semaphore. */
  function Delta(e: Event, x: Semaphore): int {
    match e
    case Acquired(y, n, _) => if x == y then -(n as int) else 0
    case Released(y, n, _) => if x == y then n else 0
    case _ => 0
  }

  function Balance(t: seq<Event>, x: Semaphore): int {
    if t == [] then 0 else Balance(t[..|t| - 1], x) + Delta(t[|t| - 1], x)
  }

  /** Semaphore values are determined by how far the tasks have got, and never negative. */
  ghost predicate Consistent(p: seq<Event>, c: seq<Event>, init: Counts, s: State) {
    && s.i <= |p| && s.j <= |c|
    && forall x :: Count(s.sem, x) == Count(init, x) + Balance(p[..s.i], x) + Balance(c[..s.j], x)
  }

  ghost predicate NonNegative(sem: Counts) { forall x :: Count(sem, x) >= 0 }

  lemma {:induction false} AfterDelta(e: Event, sem: Counts, x: Semaphore)
    ensures Count(After(e, sem), x) == Count(sem, x) + Delta(e, x)
  {
  }

  lemma {:induction false} RunInvariant(p: seq<Event>, c: seq<Event>, init: Counts, path: seq<State>, k: nat)
    requires IsRun(p, c, init, path) && k < |path| && NonNegative(init)
    ensures Consistent(p, c, init, path[k]) && NonNegative(path[k].sem)
    ensures path[k].i + path[k].j == k
  {
    if k > 0 {
      RunInvariant(p, c, init, path, k - 1);
      var s, s' := path[k - 1], path[k - 1 + 1];
      assert Step(p, c, s, s');
      forall x
        ensures Count(s'.sem, x) == Count(init, x) + Balance(p[..s'.i], x) + Balance(c[..s'.j], x) >= 0
      {
        if s'.i == s.i + 1 {
          AfterDelta(p[s.i], s.sem, x);
          assert p[..s'.i][..s.i] == p[..s.i];
        } else {
          AfterDelta(c[s.j], s.sem, x);
          assert c[..s'.j][..s.j] == c[..s.j];
        }
      }
    } else {
      assert p[..0] == [] && c[..0] == [];
    }
  }

  /** The producer goes on alone while each acquire it comes to is covered. */
  lemma {:induction false} ProducerGoes(p: seq<Event>, c: seq<Event>, init: Counts, path: seq<State>, i: nat) returns (longer: seq<State>)
    requires IsRun(p, c, init, path) && NonNegative(init) && path[|path| - 1].i <= i <= |p| && path[|path| - 1].j <= |c|
    requires forall k :: path[|path| - 1].i <= k < i && p[k].Acquired? ==>
      Count(init, p[k].sema) + Balance(p[..k], p[k].sema) + Balance(c[..path[|path| - 1].j], p[k].sema) >= p[k].count
    ensures IsRun(p, c, init, longer) && longer[|longer| - 1].i == i && longer[|longer| - 1].j == path[|path| - 1].j
    decreases i
  {
    longer := path;
    if path[|path| - 1].i < i {
      longer := ProducerGoes(p, c, init, path, i - 1);
      RunInvariant(p, c, init, longer, |longer| - 1);
      var s := longer[|longer| - 1];
      longer := longer + [State(i, s.j, After(p[i - 1], s.sem))];
    }
  }

  /** And so does the consumer. */
  lemma {:induction false} ConsumerGoes(p: seq<Event>, c: seq<Event>, init: Counts, path: seq<State>, j: nat) returns (longer: seq<State>)
    requires IsRun(p, c, init, path) && NonNegative(init) && path[|path| - 1].i <= |p| && path[|path| - 1].j <= j <= |c|
    requires forall k :: path[|path| - 1].j <= k < j && c[k].Acquired? ==>
      Count(init, c[k].sema) + Balance(p[..path[|path| - 1].i], c[k].sema) + Balance(c[..k], c[k].sema) >= c[k].count
    ensures IsRun(p, c, init, longer) && longer[|longer| - 1].j == j && longer[|longer| - 1].i == path[|path| - 1].i
    decreases j
  {
    longer := path;
    if path[|path| - 1].j < j {
      longer := ConsumerGoes(p, c, init, path, j - 1);
      RunInvariant(p, c, init, longer, |longer| - 1);
      var s := longer[|longer| - 1];
      longer := longer + [State(s.i, j, After(c[j - 1], s.sem))];
    }
  }

  /** Every run is finite. */
  lemma {:induction false} RunsAreFinite(p: seq<Event>, c: seq<Event>, init: Counts, path: seq<State>)
    requires IsRun(p, c, init, path) && NonNegative(init)
    ensures |path| <= |p| + |c| + 1
  {
    RunInvariant(p, c, init, path, |path| - 1);
  }

  predicate NeverAcquires(t: seq<Event>, x: Semaphore) {
    forall k :: 0 <= k < |t| ==> !(t[k].Acquired? && t[k].sema == x)
  }

  lemma {:induction false} BalanceConcat(t: seq<Event>, u: seq<Event>, x: Semaphore)
    ensures Balance(t + u, x) == Balance(t, x) + Balance(u, x)
  {
    if u == [] {
      assert t + u == t;
    } else {
      BalanceConcat(t, u[..|u| - 1], x);
      assert (t + u)[..|t + u| - 1] == t + u[..|u| - 1];
    }
  }

  /** A task that never acquires `x` only ever adds to it. */
  lemma {:induction false} BalanceGrows(t: seq<Event>, m: nat, n: nat, x: Semaphore)
    requires m <= n <= |t| && NeverAcquires(t, x)
    ensures Balance(t[..m], x) <= Balance(t[..n], x)
  {
    if m < n {
      BalanceGrows(t, m, n - 1, x);
      assert t[..n][..n - 1] == t[..n - 1];
    }
  }
}
