/** The dependency subgraphs of a tuple reduction: reachability by Warshall's algorithm, then only the largest sets. */
module Subgraphs {

  // ---- Reachability ----

  /** A walk along dependencies, of at least one step. */
  predicate Walk(deps: seq<set<int>>, p: seq<int>) {
    |p| >= 2 && forall i :: 0 <= i < |p| - 1 ==> 0 <= p[i] < |deps| && p[i + 1] in deps[p[i]]
  }

  predicate Joins(deps: seq<set<int>>, p: seq<int>, i: int, j: int) { Walk(deps, p) && p[0] == i && p[|p| - 1] == j }

  ghost predicate Reaches(deps: seq<set<int>>, i: int, j: int) { exists p: seq<int> :: Joins(deps, p, i, j) }

  /** Only nodes below `k` come between the ends. */
  predicate Below(p: seq<int>, k: int) { forall i :: 0 < i < |p| - 1 ==> p[i] < k }

  lemma {:induction false} OneStep(deps: seq<set<int>>, i: int, j: int)
    requires 0 <= i < |deps| && j in deps[i]
    ensures Reaches(deps, i, j)
  {
    assert Joins(deps, [i, j], i, j);
  }

  lemma {:induction false} Compose(deps: seq<set<int>>, i: int, k: int, j: int)
    requires Reaches(deps, i, k) && Reaches(deps, k, j)
    ensures Reaches(deps, i, j)
  {
    var p: seq<int> :| Joins(deps, p, i, k);
    var q: seq<int> :| Joins(deps, q, k, j);
    var r := p + q[1..];
    forall m | 0 <= m < |r| - 1 ensures 0 <= r[m] < |deps| && r[m + 1] in deps[r[m]] {
      if m >= |p| - 1 { assert r[m] == q[m - (|p| - 1)] && r[m + 1] == q[m + 1 - (|p| - 1)]; }
    }
    assert Joins(deps, r, i, j);
  }

  /** The sets know every walk that stays below `k`. */
  ghost predicate Knows(deps: seq<set<int>>, d: seq<set<int>>, k: int) {
    |d| == |deps| && forall p: seq<int> :: Walk(deps, p) && Below(p, k) ==> p[|p| - 1] in d[p[0]]
  }

  ghost predicate Sound(deps: seq<set<int>>, d: seq<set<int>>) {
    |d| == |deps| && forall i, j :: 0 <= i < |d| && j in d[i] ==> Reaches(deps, i, j)
  }

  function FirstAt(p: seq<int>, k: int, from: nat): (r: nat)
    requires from <= |p| && exists i :: from <= i < |p| && p[i] == k
    ensures from <= r < |p| && p[r] == k && forall i :: from <= i < r ==> p[i] != k
    decreases |p| - from
  {
    if p[from] == k then from else FirstAt(p, k, from + 1)
  }

  function LastAt(p: seq<int>, k: int, to: nat): (r: nat)
    requires to < |p| && exists i :: 0 <= i <= to && p[i] == k
    ensures r <= to && p[r] == k && forall i :: r < i <= to ==> p[i] != k
  {
    if p[to] == k then to else LastAt(p, k, to - 1)
  }

  /** One round of the outer loop lets walks pass through `k`: the part before its first visit and the part
      after its last are known already. */
  lemma {:induction false} ThroughK(deps: seq<set<int>>, d: seq<set<int>>, d': seq<set<int>>, k: nat)
    requires Knows(deps, d, k) && k < |deps| == |d'|
    requires forall i :: 0 <= i < |d| ==> d'[i] == if k in d[i] then d[i] + d[k] else d[i]
    ensures Knows(deps, d', k + 1)
  {
    forall p: seq<int> | Walk(deps, p) && Below(p, k + 1) ensures p[|p| - 1] in d'[p[0]] {
      if Below(p, k) {
        assert p[|p| - 1] in d[p[0]];
      } else {
        var w :| 0 < w < |p| - 1 && p[w] >= k;
        var a, b := FirstAt(p, k, 1), LastAt(p, k, |p| - 2);
        FirstPiece(deps, p, k, a);
        LastPiece(deps, p, k, b);
      }
    }
  }

  lemma {:induction false} FirstPiece(deps: seq<set<int>>, p: seq<int>, k: int, a: nat)
    requires Walk(deps, p) && Below(p, k + 1) && 1 <= a < |p| && p[a] == k && forall i :: 1 <= i < a ==> p[i] != k
    ensures var q := p[..a + 1]; Walk(deps, q) && Below(q, k) && q[0] == p[0] && q[|q| - 1] == k
  {
  }

  lemma {:induction false} LastPiece(deps: seq<set<int>>, p: seq<int>, k: int, b: nat)
    requires Walk(deps, p) && Below(p, k + 1) && 1 <= b <= |p| - 2 && p[b] == k && forall i :: b < i <= |p| - 2 ==> p[i] != k
    ensures var q := p[b..]; Walk(deps, q) && Below(q, k) && q[0] == k && q[|q| - 1] == p[|p| - 1]
  {
    var q := p[b..];
    forall i | 0 <= i < |q| - 1 ensures 0 <= q[i] < |deps| && q[i + 1] in deps[q[i]] && (i > 0 ==> q[i] < k) {
      assert q[i] == p[b + i] && q[i + 1] == p[b + i + 1];
    }
  }

  lemma {:induction false} StillSound(deps: seq<set<int>>, d: seq<set<int>>, d': seq<set<int>>, k: nat)
    requires Sound(deps, d) && k < |d| == |d'|
    requires forall i :: 0 <= i < |d| ==> d'[i] == if k in d[i] then d[i] + d[k] else d[i]
    ensures Sound(deps, d')
  {
    forall i, j | 0 <= i < |d'| && j in d'[i] ensures Reaches(deps, i, j) {
      if j !in d[i] { Compose(deps, i, k, j); }
    }
  }

  /** Closes the relation: each set becomes exactly what its node reaches. */
  method Close(deps: seq<set<int>>) returns (d: array<set<int>>)
    ensures fresh(d) && d.Length == |deps|
    ensures forall i, j :: 0 <= i < |deps| ==> (j in d[i] <==> Reaches(deps, i, j))
  {
    d := new set<int>[|deps|](i requires 0 <= i < |deps| => deps[i]);
    Start(deps, d[..]);
    for k := 0 to |deps|
      invariant Knows(deps, d[..], k) && Sound(deps, d[..])
    {
      ghost var was := d[..];
      for i := 0 to |deps|
        invariant forall m :: 0 <= m < |deps| ==> d[m] == if m < i && k in was[m] then was[m] + was[k] else was[m]
      {
        if k in d[i] {
          d[i] := d[i] + d[k];
        }
      }
      ThroughK(deps, was, d[..], k);
      StillSound(deps, was, d[..], k);
    }
    AllWalks(deps, d[..]);
  }

  lemma {:induction false} Start(deps: seq<set<int>>, d: seq<set<int>>)
    requires d == deps
    ensures Knows(deps, d, 0) && Sound(deps, d)
  {
    forall p: seq<int> | Walk(deps, p) && Below(p, 0) ensures p[|p| - 1] in d[p[0]] {
      if |p| > 2 { LongWalk(deps, p); }
    }
    forall i, j | 0 <= i < |d| && j in d[i] ensures Reaches(deps, i, j) { OneStep(deps, i, j); }
  }

  /** A walk of two steps or more passes through some node. */
  lemma {:induction false} LongWalk(deps: seq<set<int>>, p: seq<int>)
    requires Walk(deps, p) && |p| > 2
    ensures !Below(p, 0)
  {
    assert p[1] >= 0;
  }

  lemma {:induction false} AllWalks(deps: seq<set<int>>, d: seq<set<int>>)
    requires Knows(deps, d, |deps|) && Sound(deps, d)
    ensures forall i, j :: 0 <= i < |deps| ==> (j in d[i] <==> Reaches(deps, i, j))
  {
    forall i, j | 0 <= i < |deps| && Reaches(deps, i, j) ensures j in d[i] {
      var p: seq<int> :| Joins(deps, p, i, j);
      assert Below(p, |deps|);
    }
  }

  // ---- Keeping the largest sets ----

  predicate IsSubsetOf(a: set<int>, b: set<int>) { a <= b }

  /** Set `j` makes set `i` superfluous: it is larger, or as large and earlier. */
  predicate Dominates(d: seq<set<int>>, j: int, i: int)
    requires 0 <= i < |d| && 0 <= j < |d|
  {
    (|d[j]| > |d[i]| || (|d[j]| == |d[i]| && j < i)) && IsSubsetOf(d[i], d[j])
  }

  /** What is kept of the sets: the nonempty ones nothing dominates. */
  ghost predicate Kept(d: seq<set<int>>, s: seq<set<int>>) {
    |s| == |d| && forall i :: 0 <= i < |d| ==>
      s[i] == if d[i] != {} && forall j :: 0 <= j < |d| ==> !Dominates(d, j, i) then d[i] else {}
  }

  method KeepMaximal(d: array<set<int>>) returns (subgraphs: seq<set<int>>)
    ensures Kept(d[..], subgraphs)
  {
    subgraphs := [];
    for i := 0 to d.Length
      invariant |subgraphs| == i
      invariant forall m :: 0 <= m < i ==>
        subgraphs[m] == if d[m] != {} && forall j :: 0 <= j < d.Length ==> !Dominates(d[..], j, m) then d[m] else {}
    {
      var maximal := d[i] != {};
      if maximal {
        for j := 0 to d.Length
          invariant maximal && forall m :: 0 <= m < j ==> !Dominates(d[..], m, i)
        {
          var canDominate := |d[j]| > |d[i]| || (|d[j]| == |d[i]| && j < i);
          if canDominate && IsSubsetOf(d[i], d[j]) {
            assert Dominates(d[..], j, i);
            maximal := false;
            break;
          }
        }
      }
      subgraphs := subgraphs + [if maximal then d[i] else {}];
    }
  }

  lemma {:induction false} SubsetSize(a: set<int>, b: set<int>)
    requires a <= b
    ensures |a| <= |b| && (|a| == |b| ==> a == b)
  {
    assert b == a + (b - a);
  }

  /** The kept sets form an antichain. */
  lemma {:induction false} Antichain(d: seq<set<int>>, s: seq<set<int>>, i: int, j: int)
    requires Kept(d, s) && 0 <= i < |s| && 0 <= j < |s| && i != j && s[i] != {} && s[j] != {}
    ensures !(s[i] <= s[j])
  {
    if s[i] <= s[j] {
      OneDominates(d, i, j);
    }
  }

  lemma {:induction false} OneDominates(d: seq<set<int>>, i: int, j: int)
    requires 0 <= i < |d| && 0 <= j < |d| && i != j && d[i] <= d[j]
    ensures Dominates(d, j, i) || Dominates(d, i, j)
  {
    SubsetSize(d[i], d[j]);
  }

  /** Larger, or an equal one before it. */
  lemma {:induction false} DominatesIff(d: seq<set<int>>, j: int, i: int)
    requires 0 <= i < |d| && 0 <= j < |d|
    ensures Dominates(d, j, i) <==> d[i] < d[j] || (d[i] == d[j] && j < i)
  {
    if d[i] <= d[j] { SubsetSize(d[i], d[j]); }
  }

  /** A kept set is a largest one, at the lowest index that has it. */
  lemma {:induction false} KeptIsMaximal(d: seq<set<int>>, s: seq<set<int>>, i: int)
    requires Kept(d, s) && 0 <= i < |d|
    ensures s[i] != {} <==>
      d[i] != {} && (forall j :: 0 <= j < |d| ==> !(d[i] < d[j])) && forall j :: 0 <= j < i ==> d[j] != d[i]
    ensures s[i] != {} ==> s[i] == d[i]
  {
    hide Dominates;
    forall j | 0 <= j < |d| ensures Dominates(d, j, i) <==> d[i] < d[j] || (d[i] == d[j] && j < i) { DominatesIff(d, j, i); }
    if d[i] != {} && (forall j :: 0 <= j < |d| ==> !(d[i] < d[j])) && forall j :: 0 <= j < i ==> d[j] != d[i] {
      assert forall j :: 0 <= j < |d| ==> !Dominates(d, j, i);
    }
    if s[i] != {} {
      forall j | 0 <= j < |d| ensures !(d[i] < d[j]) { assert !Dominates(d, j, i); }
      forall j | 0 <= j < i ensures d[j] != d[i] { assert !Dominates(d, j, i); }
    }
  }

  function Union(d: seq<set<int>>): (r: set<int>)
    ensures forall i :: 0 <= i < |d| ==> d[i] <= r
  {
    if d == [] then {} else Union(d[..|d| - 1]) + d[|d| - 1]
  }

  /** Every set lies inside a kept one. */
  lemma {:induction false} Covered(d: seq<set<int>>, s: seq<set<int>>, i: int) returns (k: int)
    requires Kept(d, s) && 0 <= i < |d| && d[i] != {}
    ensures 0 <= k < |s| && d[i] <= s[k]
    decreases |Union(d)| - |d[i]|, i
  {
    if j :| 0 <= j < |d| && Dominates(d, j, i) {
      SubsetSize(d[i], Union(d));
      SubsetSize(d[j], Union(d));
      assert d[j] != {};
      k := Covered(d, s, j);
    } else {
      k := i;
    }
  }

  /** The subgraphs cover every dependency set with maximal sets of what its node reaches. */
  method ComputeSubgraphs(dependencies: seq<set<int>>) returns (subgraphs: seq<set<int>>)
    ensures |subgraphs| == |dependencies|
    ensures forall i, j :: 0 <= i < |subgraphs| && j in subgraphs[i] ==> Reaches(dependencies, i, j)
    ensures forall i, j :: 0 <= i < |subgraphs| && subgraphs[i] != {} && Reaches(dependencies, i, j) ==> j in subgraphs[i]
    ensures forall i, j :: 0 <= i < j < |subgraphs| && subgraphs[i] != {} && subgraphs[j] != {} ==>
      !(subgraphs[i] <= subgraphs[j]) && !(subgraphs[j] <= subgraphs[i])
    ensures forall i :: 0 <= i < |dependencies| && dependencies[i] != {} ==>
      exists k :: 0 <= k < |subgraphs| && dependencies[i] <= subgraphs[k]
  {
    var d := Close(dependencies);
    subgraphs := KeepMaximal(d);
    forall i, j | 0 <= i < j < |subgraphs| && subgraphs[i] != {} && subgraphs[j] != {}
      ensures !(subgraphs[i] <= subgraphs[j]) && !(subgraphs[j] <= subgraphs[i])
    {
      Antichain(d[..], subgraphs, i, j);
      Antichain(d[..], subgraphs, j, i);
    }
    forall i | 0 <= i < |dependencies| && dependencies[i] != {}
      ensures exists k :: 0 <= k < |subgraphs| && dependencies[i] <= subgraphs[k]
    {
      forall j | j in dependencies[i] ensures j in d[i] { OneStep(dependencies, i, j); }
      var k := Covered(d[..], subgraphs, i);
    }
  }
}
