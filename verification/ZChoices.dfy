/** Which token is chosen at each position: the longest match with one of the last positions that hash alike, unless
    the next byte has a longer one. */
module ZChoices {
  import opened Bits
  import opened Deflate
  import opened ZEncoder

  // ---- Where tokens start ----

  function Width(t: Token): nat { if t.Match? then t.len else 1 }

  function Total(ts: seq<Token>): nat { if ts == [] then 0 else Total(ts[..|ts| - 1]) + Width(ts[|ts| - 1]) }

  function StartsOf(ts: seq<Token>): (r: seq<nat>)
    ensures |r| == |ts|
  {
    if ts == [] then [] else var k := |ts| - 1; StartsOf(ts[..k]) + [Total(ts[..k])]
  }

  lemma {:induction false} StartsAppend(ts: seq<Token>, t: Token)
    ensures StartsOf(ts + [t]) == StartsOf(ts) + [Total(ts)] && Total(ts + [t]) == Total(ts) + Width(t)
  {
    assert (ts + [t])[..|ts|] == ts;
  }

  /** The token starts that hash to `h`, in order; the last three bytes are not looked up. */
  function Same(data: seq<byte>, starts: seq<nat>, h: nat): seq<nat> {
    if starts == [] then []
    else
      var k := |starts| - 1;
      Same(data, starts[..k], h) + if starts[k] + 3 < |data| && Bucket(data, starts[k]) == h then [starts[k]] else []
  }

  /** The last `n`, or all if there are fewer. */
  function Last(s: seq<nat>, n: nat): seq<nat> { if |s| <= n then s else s[|s| - n..] }

  // ---- The choice ----

  /** No recent position that hashes alike has a match of more than `len` bytes. */
  ghost predicate NoneLonger(data: seq<byte>, starts: seq<nat>, i: nat, quality: nat, len: nat)
    requires i + 3 <= |data|
  {
    forall p <- Last(Same(data, starts, Bucket(data, i)), quality), m: nat :: m >= 3 && Reaches(data, p, i, 32768, m) ==> m <= len
  }

  /** Some earlier position has a match of `m` bytes or more at `i`. */
  ghost predicate SomeMatch(data: seq<byte>, starts: seq<nat>, i: nat, m: nat)
    requires i + 3 <= |data|
  {
    exists p <- Same(data, starts, Bucket(data, i)) :: Reaches(data, p, i, 32768, m)
  }

  /** The token that starts at the last of the starts. */
  ghost predicate Chosen(data: seq<byte>, starts: seq<nat>, t: Token, quality: nat)
    requires starts != []
  {
    var k, i := |starts| - 1, starts[|starts| - 1];
    i + 3 < |data| ==>
      match t
      case Match(len, dist) => NoneLonger(data, starts[..k], i, quality, len) && NoneLonger(data, starts, i + 1, quality, len)
      case Literal(_) =>
        forall p <- Last(Same(data, starts[..k], Bucket(data, i)), quality), m: nat ::
          m >= 3 && Reaches(data, p, i, 32768, m) ==> SomeMatch(data, starts, i + 1, m + 1)
      case EndOfBlock => false
  }

  ghost predicate AllChosen(data: seq<byte>, ts: seq<Token>, quality: nat) {
    ts == [] ||
      var k := |ts| - 1;
      AllChosen(data, ts[..k], quality) && Chosen(data, StartsOf(ts), ts[k], quality)
  }

  // ---- The lists ----

  /** The lists hold the last positions of each hash, at least `quality` of them where there are as many. */
  ghost predicate Holds(lists: seq<seq<nat>>, data: seq<byte>, starts: seq<nat>, quality: nat) {
    |lists| == ZHASH && forall h :: 0 <= h < ZHASH ==> HoldsAt(lists[h], Same(data, starts, h), quality)
  }

  predicate HoldsAt(list: seq<nat>, same: seq<nat>, quality: nat) {
    |list| <= |same| && list == same[|same| - |list|..] && (|list| >= quality || list == same)
  }

  lemma {:induction false} NothingHeld(lists: seq<seq<nat>>, data: seq<byte>, quality: nat)
    requires |lists| == ZHASH && forall h :: 0 <= h < ZHASH ==> lists[h] == []
    ensures Holds(lists, data, StartsOf([]), quality) && AllChosen(data, [], quality) && Total([]) == 0
  {
  }

  lemma {:induction false} EnterHolds(list: seq<nat>, same: seq<nat>, quality: nat, i: nat)
    requires HoldsAt(list, same, quality) && quality > 0
    ensures HoldsAt((if |list| == 2 * quality then list[quality..] else list) + [i], same + [i], quality)
  {
    var kept := if |list| == 2 * quality then list[quality..] else list;
    assert kept == same[|same| - |kept|..];
    assert (same + [i])[|same| - |kept|..] == kept + [i];
  }

  lemma {:induction false} HoldsRecent(list: seq<nat>, same: seq<nat>, quality: nat)
    requires HoldsAt(list, same, quality)
    ensures forall p <- Last(same, quality) :: p in list
    ensures forall p <- list :: p in same
  {
    forall p <- Last(same, quality) ensures p in list {
      var j :| 0 <= j < |Last(same, quality)| && Last(same, quality)[j] == p;
      if |same| > quality { assert same[|same| - quality + j] == p == list[|list| - quality + j]; }
    }
  }

  /** Entering the position a token starts at. */
  lemma {:induction false} Entered(lists: seq<seq<nat>>, lists': seq<seq<nat>>, data: seq<byte>, starts: seq<nat>, i: nat, quality: nat)
    requires Holds(lists, data, starts, quality) && quality > 0 && i + 3 < |data| && |lists'| == ZHASH
    requires var h := Bucket(data, i);
      && (forall k :: 0 <= k < ZHASH && k != h ==> lists'[k] == lists[k])
      && lists'[h] == (if |lists[h]| == 2 * quality then lists[h][quality..] else lists[h]) + [i]
    ensures Holds(lists', data, starts + [i], quality)
  {
    hide HoldsAt, Bucket;
    var h := Bucket(data, i);
    assert (starts + [i])[..|starts|] == starts;
    forall k | 0 <= k < ZHASH ensures HoldsAt(lists'[k], Same(data, starts + [i], k), quality) {
      if k == h {
        EnterHolds(lists[h], Same(data, starts, h), quality, i);
      } else {
        assert Same(data, starts, k) + [] == Same(data, starts, k);
      }
    }
  }

  // ---- What a search says of the token ----

  /** The search's result: a match at least as long as any listed at `i`, and not shorter than one listed at the next
      byte; or for any listed match a longer one listed there. */
  ghost predicate Searched(data: seq<byte>, list: seq<nat>, next: seq<nat>, i: nat, found: bool, best: nat) {
    if found then
      && (forall p <- list, m: nat :: m >= 3 && Reaches(data, p, i, 32768, m) ==> m <= best)
      && forall p <- next :: !Reaches(data, p, i + 1, 32768, best + 1)
    else
      forall p <- list, m: nat :: m >= 3 && Reaches(data, p, i, 32768, m) ==> exists q <- next :: Reaches(data, q, i + 1, 32768, m + 1)
  }

  lemma {:induction false} SearchChooses(data: seq<byte>, lists: seq<seq<nat>>, lists': seq<seq<nat>>, starts: seq<nat>, i: nat,
                                         quality: nat, found: bool, best: nat, t: Token)
    requires i + 3 < |data| && Holds(lists, data, starts, quality) && Holds(lists', data, starts + [i], quality) && best >= 3
    requires Searched(data, lists[Bucket(data, i)], lists'[Bucket(data, i + 1)], i, found, best)
    requires if found then t.Match? && t.len == best else t.Literal?
    ensures Chosen(data, starts + [i], t, quality)
  {
    hide HoldsAt, Reaches, Same, Last, Bucket;
    var all := starts + [i];
    assert all[..|starts|] == starts;
    var h, h' := Bucket(data, i), Bucket(data, i + 1);
    HoldsRecent(lists[h], Same(data, starts, h), quality);
    HoldsRecent(lists'[h'], Same(data, all, h'), quality);
    if found {
      var next := i + 1;
      forall p <- Last(Same(data, all, h'), quality), m: nat | m >= 3 && Reaches(data, p, next, 32768, m) ensures m <= best {
        if m > best { Shorter(data, p, next, best + 1, m); }
      }
    }
  }

  lemma {:induction false} Shorter(data: seq<byte>, p: nat, i: nat, m: nat, n: nat)
    requires Reaches(data, p, i, 32768, n) && m <= n
    ensures Reaches(data, p, i, 32768, m)
  {
    AgreeShorter(data, p, i, m, n);
  }

  /** The last three bytes are literals in any case. */
  lemma {:induction false} TailChooses(data: seq<byte>, starts: seq<nat>, i: nat, t: Token, quality: nat)
    requires i + 3 >= |data|
    ensures Chosen(data, starts + [i], t, quality)
  {
  }

  lemma {:induction false} ChosenNext(data: seq<byte>, ts: seq<Token>, t: Token, quality: nat)
    requires AllChosen(data, ts, quality) && Chosen(data, StartsOf(ts) + [Total(ts)], t, quality)
    ensures AllChosen(data, ts + [t], quality)
  {
    hide Chosen;
    StartsAppend(ts, t);
    assert (ts + [t])[..|ts|] == ts;
  }
}
