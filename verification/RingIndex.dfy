/** Ring buffering: which slot of the ring each iteration of the enclosing loops uses. */
module RingIndex {
  import opened AsyncIR
  import opened Arithmetic

  /** A loop on the stack of enclosing loops: its variable and the expression of its extent. */
  datatype Loop = Loop(name: string, extent: Expr)

  /** A loop with constant bounds. */
  datatype Range = Range(name: string, min: int, extent: nat)

  function Extent(min: Expr, max: Expr): Expr { Add(Sub(max, min), IntImm(1)) }

  function Max(r: Range): Expr { IntImm(r.min + r.extent - 1) }

  function Loops(ranges: seq<Range>): seq<Loop> {
    if ranges == [] then []
    else [Loop(ranges[0].name, Extent(IntImm(ranges[0].min), Max(ranges[0])))] + Loops(ranges[1..])
  }

  /** The value of the linear combination of the loop variables, after `acc` for the loops outside. */
  function Linear(loops: seq<Loop>, env: Env, acc: int): int {
    if loops == [] then acc
    else Linear(loops[1..], env, acc * Eval(loops[0].extent, env) + Eval(Variable(loops[0].name), env))
  }

  lemma {:induction false} LinearStep(loops: seq<Loop>, env: Env, acc: int, k: nat)
    requires k < |loops|
    ensures Linear(loops[..k + 1], env, acc)
         == Linear(loops[..k], env, acc) * Eval(loops[k].extent, env) + Eval(Variable(loops[k].name), env)
  {
    if k == 0 {
      assert loops[..1][1..] == [] && loops[..0] == [];
    } else {
      var acc' := acc * Eval(loops[0].extent, env) + Eval(Variable(loops[0].name), env);
      LinearStep(loops[1..], env, acc', k - 1);
      assert loops[..k + 1][1..] == loops[1..][..k] && loops[..k][1..] == loops[1..][..k - 1];
    }
  }

  /** The expression of the linear combination. */
  function LinearExpr(loops: seq<Loop>): Expr
    requires loops != []
  {
    var last := loops[|loops| - 1];
    if |loops| == 1 then Variable(last.name)
    else Add(Mul(LinearExpr(loops[..|loops| - 1]), last.extent), Variable(last.name))
  }

  lemma {:induction false} LinearExprValue(loops: seq<Loop>, env: Env)
    requires loops != []
    ensures Eval(LinearExpr(loops), env) == Linear(loops, env, 0)
  {
    var n := |loops| - 1;
    LinearStep(loops, env, 0, n);
    assert loops[..n + 1] == loops;
    if n == 0 {
      assert loops[..0] == [];
    } else {
      LinearExprValue(loops[..n], env);
      var rest := LinearExpr(loops[..n]);
      assert Eval(Mul(rest, loops[n].extent), env) == Eval(rest, env) * Eval(loops[n].extent, env);
    }
  }

  /** The index built for a Realize node from the loops inside its hoisted storage. */
  method BuildIndex(loops: seq<Loop>, first: nat, ringBuffer: Expr) returns (index: Expr)
    requires first < |loops|
    ensures index == Mod(LinearExpr(loops[first..]), ringBuffer)
  {
    ghost var inner := loops[first..];
    var loopIndex := first;
    var current := Variable(loops[loopIndex].name);
    loopIndex := loopIndex + 1;
    while loopIndex < |loops|
      invariant first < loopIndex <= |loops|
      invariant current == LinearExpr(inner[..loopIndex - first])
    {
      assert inner[..loopIndex + 1 - first][..loopIndex - first] == inner[..loopIndex - first];
      assert inner[loopIndex - first] == loops[loopIndex];
      current := Add(Mul(current, loops[loopIndex].extent), Variable(loops[loopIndex].name));
      loopIndex := loopIndex + 1;
    }
    assert inner[..|loops| - first] == inner;
    index := Mod(current, ringBuffer);
  }

  // ---- One step per iteration ----

  function Iterations(ranges: seq<Range>): nat {
    if ranges == [] then 1 else ranges[0].extent * Iterations(ranges[1..])
  }

  /** The environments of the nest's iterations, in the order they run. */
  function Environments(ranges: seq<Range>, env: Env): (r: seq<Env>)
    decreases |ranges|, 1, 0
  {
    if ranges == [] then [env] else From(ranges, env, 0)
  }

  /** The iterations of the outermost loop from its i-th on. */
  function From(ranges: seq<Range>, env: Env, i: nat): seq<Env>
    requires ranges != []
    decreases |ranges|, 0, if i < ranges[0].extent then ranges[0].extent - i else 0
  {
    if i >= ranges[0].extent then []
    else Environments(ranges[1..], env[ranges[0].name := ranges[0].min + i]) + From(ranges, env, i + 1)
  }

  /** The linear index of the first iteration. */
  function Base(ranges: seq<Range>): int {
    if ranges == [] then 0 else ranges[0].min * Iterations(ranges[1..]) + Base(ranges[1..])
  }

  predicate DistinctNames(ranges: seq<Range>) {
    forall i, j :: 0 <= i < j < |ranges| ==> ranges[i].name != ranges[j].name
  }

  predicate Binds(e: Env, ranges: seq<Range>, env: Env) {
    forall x :: x in env && (forall i :: 0 <= i < |ranges| ==> ranges[i].name != x) ==> x in e && e[x] == env[x]
  }

  lemma {:induction false} ExtentValue(r: Range, env: Env)
    ensures Eval(Extent(IntImm(r.min), Max(r)), env) == r.extent
  {
    assert Eval(Sub(Max(r), IntImm(r.min)), env) == r.extent - 1;
  }

  lemma {:induction false} LinearShift(ranges: seq<Range>, env: Env, acc: int)
    ensures Linear(Loops(ranges), env, acc) == acc * Iterations(ranges) + Linear(Loops(ranges), env, 0)
  {
    if ranges != [] {
      var loops, rest := Loops(ranges), ranges[1..];
      assert loops[1..] == Loops(rest);
      var n, v := ranges[0].extent, Eval(Variable(ranges[0].name), env);
      ExtentValue(ranges[0], env);
      LinearShift(rest, env, acc * n + v);
      LinearShift(rest, env, v);
      Distribute(acc * n, v, Iterations(rest));
      assert acc * n * Iterations(rest) == acc * (n * Iterations(rest));
    }
  }

  /** The index of the t-th iteration is the first index plus t, whatever the loops' lower bounds. */
  lemma {:induction false} IndexAdvancesByOne(ranges: seq<Range>, env: Env, t: nat)
    requires DistinctNames(ranges) && t < |Environments(ranges, env)|
    ensures Linear(Loops(ranges), Environments(ranges, env)[t], 0) == Base(ranges) + t
    ensures Binds(Environments(ranges, env)[t], ranges, env)
    ensures |Environments(ranges, env)| == Iterations(ranges)
    decreases |ranges|, 1, 0
  {
    if ranges != [] { IndexFrom(ranges, env, 0, t); }
  }

  lemma {:induction false} IndexFrom(ranges: seq<Range>, env: Env, i: nat, t: nat)
    requires ranges != [] && DistinctNames(ranges) && i <= ranges[0].extent
    requires t < |From(ranges, env, i)|
    ensures Linear(Loops(ranges), From(ranges, env, i)[t], 0) == Base(ranges) + i * Iterations(ranges[1..]) + t
    ensures Binds(From(ranges, env, i)[t], ranges, env)
    ensures |From(ranges, env, i)| == (ranges[0].extent - i) * Iterations(ranges[1..])
    decreases |ranges|, 0, ranges[0].extent - i
  {
    var rest, x := ranges[1..], ranges[0].name;
    var env' := env[x := ranges[0].min + i];
    var inner := Environments(rest, env');
    CountFrom(ranges, env, i);
    if t < |inner| {
      assert From(ranges, env, i)[t] == inner[t];
      FirstLoop(ranges, env, i, t);
    } else {
      CountEnvironments(rest, env');
      CountFrom(ranges, env, i + 1);
      IndexFrom(ranges, env, i + 1, t - |inner|);
      Distribute(i, 1, Iterations(rest));
    }
  }

  lemma {:induction false} FirstLoop(ranges: seq<Range>, env: Env, i: nat, t: nat)
    requires ranges != [] && DistinctNames(ranges)
    requires t < |Environments(ranges[1..], env[ranges[0].name := ranges[0].min + i])|
    ensures var e := Environments(ranges[1..], env[ranges[0].name := ranges[0].min + i])[t];
            && Linear(Loops(ranges), e, 0) == Base(ranges) + i * Iterations(ranges[1..]) + t
            && Binds(e, ranges, env)
    decreases |ranges|, 0, 0
  {
    var rest, x, v := ranges[1..], ranges[0].name, ranges[0].min + i;
    var e := Environments(rest, env[x := v])[t];
    assert DistinctNames(rest);
    IndexAdvancesByOne(rest, env[x := v], t);
    assert forall k :: 0 <= k < |rest| ==> rest[k] == ranges[k + 1];
    assert x in e && e[x] == v;
    assert Loops(ranges)[1..] == Loops(rest);
    LinearShift(rest, e, v);
    Distribute(ranges[0].min, i, Iterations(rest));
    assert Linear(Loops(ranges), e, 0) == Linear(Loops(rest), e, v);
  }

  lemma {:induction false} CountEnvironments(ranges: seq<Range>, env: Env)
    ensures |Environments(ranges, env)| == Iterations(ranges)
    decreases |ranges|, 1, 0
  {
    if ranges != [] { CountFrom(ranges, env, 0); }
  }

  lemma {:induction false} CountFrom(ranges: seq<Range>, env: Env, i: nat)
    requires ranges != [] && i <= ranges[0].extent
    ensures |From(ranges, env, i)| == (ranges[0].extent - i) * Iterations(ranges[1..])
    decreases |ranges|, 0, ranges[0].extent - i
  {
    if i < ranges[0].extent {
      CountEnvironments(ranges[1..], env[ranges[0].name := ranges[0].min + i]);
      CountFrom(ranges, env, i + 1);
      Distribute(1, ranges[0].extent - (i + 1), Iterations(ranges[1..]));
    }
  }

  /** The ring slot of the t-th iteration of a nest whose first index is `base`. */
  function Slot(base: int, ring: int, t: int): int {
    if ring > 0 then (base + t) % ring else 0
  }

  /** Iterations share a slot exactly when their distance is a multiple of the ring's extent, so any
      `ring` consecutive iterations use different slots. */
  lemma {:induction false} SlotsCollideIff(base: int, ring: int, t: int, u: int)
    requires ring > 0
    ensures Slot(base, ring, t) == Slot(base, ring, u) <==> (t - u) % ring == 0
    ensures u < t < u + ring ==> Slot(base, ring, t) != Slot(base, ring, u)
  {
    var a, b := base + t, base + u;
    var qa, qb := a / ring, b / ring;
    assert a == qa * ring + a % ring && b == qb * ring + b % ring;
    var d := (t - u) / ring;
    assert t - u == d * ring + (t - u) % ring;
    if a % ring == b % ring {
      Distribute(qa, qb, ring);
      Multiple(qa - qb, ring);
    }
    if (t - u) % ring == 0 {
      Distribute(qb, d, ring);
      Remainder(a, qb + d, b % ring, ring);
    }
    if u < t < u + ring { Remainder(t - u, 0, t - u, ring); }
  }
}
