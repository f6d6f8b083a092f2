/** Mapping every element of a sequence to a sequence and joining the results. */
module Flatten {

  function Flat<A, B>(t: seq<A>, g: A -> seq<B>): seq<B> {
    if t == [] then [] else g(t[0]) + Flat(t[1..], g)
  }

  lemma {:induction false} FlatConcat<A, B>(t: seq<A>, u: seq<A>, g: A -> seq<B>)
    ensures Flat(t + u, g) == Flat(t, g) + Flat(u, g)
  {
    if t == [] {
      assert t + u == u;
    } else {
      FlatConcat(t[1..], u, g);
      assert (t + u)[1..] == t[1..] + u;
    }
  }

  lemma {:induction false} FlatOne<A, B>(a: A, g: A -> seq<B>)
    ensures Flat([a], g) == g(a)
  {
  }

  lemma {:induction false} FlatSix<A, B>(a: A, b: A, c: A, d: A, e: A, h: A, g: A -> seq<B>)
    ensures Flat([a, b, c, d, e, h], g) == g(a) + g(b) + g(c) + g(d) + g(e) + g(h)
  {
    assert [a, b, c, d, e, h] == [a] + [b] + [c] + [d] + [e] + [h];
    FlatConcat([a] + [b] + [c] + [d] + [e], [h], g);
    FlatConcat([a] + [b] + [c] + [d], [e], g);
    FlatConcat([a] + [b] + [c], [d], g);
    FlatConcat([a] + [b], [c], g);
    FlatConcat([a], [b], g);
    FlatOne(a, g); FlatOne(b, g); FlatOne(c, g); FlatOne(d, g); FlatOne(e, g); FlatOne(h, g);
  }

  lemma {:induction false} FlatSandwich<A, B>(a: A, t: seq<A>, b: A, g: A -> seq<B>)
    ensures Flat([a] + t + [b], g) == g(a) + Flat(t, g) + g(b)
  {
    FlatConcat([a] + t, [b], g);
    FlatConcat([a], t, g);
    FlatOne(a, g);
    FlatOne(b, g);
  }

  /** A function that keeps every element of `t` as it is, or drops every one, does so to all of `t`. */
  lemma {:induction false} FlatUniform<A>(t: seq<A>, g: A -> seq<A>, keep: bool)
    requires forall i :: 0 <= i < |t| ==> g(t[i]) == if keep then [t[i]] else []
    ensures Flat(t, g) == if keep then t else []
  {
    if t != [] {
      FlatUniform(t[1..], g, keep);
      assert t == [t[0]] + t[1..];
    }
  }
}
