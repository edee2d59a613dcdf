/** Sequence vocabulary shared by the models: order-preserving filtering,
    first positions and first-occurrence de-duplication. */
module Seqs {
  predicate NoDuplicates<T(==)>(xs: seq<T>) {
    forall i, j :: 0 <= i < j < |xs| ==> xs[i] != xs[j]
  }

  /** `r` is `xs` with some elements left out and the rest in their original order. */
  predicate Embeds<T(==)>(r: seq<T>, xs: seq<T>)
    decreases |xs|
  {
    if |r| == 0 then true
    else if |xs| == 0 then false
    else (r[0] == xs[0] && Embeds(r[1..], xs[1..])) || Embeds(r, xs[1..])
  }

  /** A list comprehension `[x for x in xs if keep(x)]`: exactly the kept
      elements, in their original order. */
  function Filter<T(==,!new)>(xs: seq<T>, keep: T -> bool): (r: seq<T>)
    ensures |r| <= |xs|
    ensures forall x :: x in r <==> x in xs && keep(x)
    ensures Embeds(r, xs)
  {
    if |xs| == 0 then []
    else
      var rest := Filter(xs[1..], keep);
      assert forall x :: x in xs <==> x == xs[0] || x in xs[1..];
      if keep(xs[0]) then
        assert ([xs[0]] + rest)[1..] == rest;
        [xs[0]] + rest
      else rest
  }

  /** A slice of a concatenation that lies inside its right part. */
  lemma SliceRight<T>(a: seq<T>, b: seq<T>, lo: nat, hi: nat)
    requires |a| <= lo <= hi <= |a| + |b|
    ensures (a + b)[lo..hi] == b[lo - |a|..hi - |a|]
  {
  }

  /** A slice of a concatenation that lies inside its left part. */
  lemma SliceLeft<T>(a: seq<T>, b: seq<T>, lo: nat, hi: nat)
    requires lo <= hi <= |a|
    ensures (a + b)[lo..hi] == a[lo..hi]
  {
  }

  /** Index of the first occurrence of `x` in `xs`. */
  function Position<T(==)>(xs: seq<T>, x: T): (k: nat)
    requires x in xs
    ensures k < |xs| && xs[k] == x && x !in xs[..k]
  {
    if xs[0] == x then 0
    else
      var k := 1 + Position(xs[1..], x);
      assert xs[..k] == [xs[0]] + xs[1..][..k - 1];
      k
  }

  /** Appending an element does not move the first occurrences before it. */
  lemma PositionAppend<T>(init: seq<T>, x: T, y: T)
    requires y in init
    ensures Position(init + [x], y) == Position(init, y)
  {
    var xs := init + [x];
    var k := Position(init, y);
    assert xs[..k] == init[..k];
    PositionAt(xs, y, k);
  }

  /** The first occurrence is the only one with no occurrence before it. */
  lemma PositionAt<T>(xs: seq<T>, x: T, k: nat)
    requires k < |xs| && xs[k] == x && x !in xs[..k]
    ensures Position(xs, x) == k
  {
  }

  /** `list(dict.fromkeys(xs))` (quark_client.py:947): every value once, at the
      place of its first occurrence. */
  function Dedup<T(==,!new)>(xs: seq<T>): (r: seq<T>)
    ensures forall x :: x in r <==> x in xs
    ensures NoDuplicates(r)
    ensures forall i, j :: 0 <= i < j < |r| ==> Position(xs, r[i]) < Position(xs, r[j])
    decreases |xs|
  {
    if |xs| == 0 then []
    else
      var init := xs[..|xs| - 1];
      var x := xs[|xs| - 1];
      assert xs == init + [x];
      var d := Dedup(init);
      assert forall i :: 0 <= i < |d| ==> Position(xs, d[i]) == Position(init, d[i]) by {
        forall i | 0 <= i < |d| {
          PositionAppend(init, x, d[i]);
        }
      }
      if x in d then d
      else
        assert Position(xs, x) == |init|;
        d + [x]
  }

  /** Embedding in a duplicate-free sequence leaves no duplicates. */
  lemma {:induction false} EmbedsNoDuplicates<T>(r: seq<T>, xs: seq<T>)
    requires Embeds(r, xs) && NoDuplicates(xs)
    ensures NoDuplicates(r)
    ensures forall x :: x in r ==> x in xs
    decreases |xs|
  {
    if |r| > 0 {
      assert |xs| > 0;
      assert NoDuplicates(xs[1..]);
      if r[0] == xs[0] && Embeds(r[1..], xs[1..]) {
        EmbedsNoDuplicates(r[1..], xs[1..]);
        assert r == [r[0]] + r[1..];
        assert forall k :: 0 < k < |r| ==> r[k] in xs[1..];
        assert forall k :: 0 < k < |r| ==> r[k] != xs[0];
      } else {
        EmbedsNoDuplicates(r, xs[1..]);
      }
    }
  }

  /** A duplicate-free sequence of positions in `1..n` has at most `n` entries. */
  lemma {:induction false} DistinctPositionsBounded(ks: seq<nat>, n: nat)
    requires NoDuplicates(ks)
    requires forall k :: k in ks ==> 1 <= k <= n
    ensures |ks| <= n
    decreases n
  {
    if |ks| > 0 {
      assert ks[0] in ks;
    }
    if n > 0 {
      var rest := Filter(ks, (k: nat) => k != n);
      EmbedsNoDuplicates(rest, ks);
      DistinctPositionsBounded(rest, n - 1);
      FilterDropCount(ks, n);
      NoDuplicatesOnce(ks, n);
    }
  }

  /** Filtering keeps every element that passes the test as often as it
      occurs, and no other element. */
  lemma {:induction false} FilterCounts<T(!new)>(xs: seq<T>, keep: T -> bool)
    ensures forall x :: multiset(Filter(xs, keep))[x] == if keep(x) then multiset(xs)[x] else 0
    decreases |xs|
  {
    if |xs| > 0 {
      FilterCounts(xs[1..], keep);
      assert xs == [xs[0]] + xs[1..];
      assert multiset(xs) == multiset([xs[0]]) + multiset(xs[1..]);
    }
  }

  /** Filtering out a value drops exactly its occurrences. */
  lemma {:induction false} FilterDropCount(ks: seq<nat>, n: nat)
    ensures |Filter(ks, (k: nat) => k != n)| == |ks| - multiset(ks)[n]
    decreases |ks|
  {
    if |ks| > 0 {
      FilterDropCount(ks[1..], n);
      assert ks == [ks[0]] + ks[1..];
      assert multiset(ks)[n] == multiset([ks[0]])[n] + multiset(ks[1..])[n];
    }
  }

  /** A value occurs at most once in a duplicate-free sequence. */
  lemma {:induction false} NoDuplicatesOnce<T>(xs: seq<T>, x: T)
    requires NoDuplicates(xs)
    ensures multiset(xs)[x] <= 1
    decreases |xs|
  {
    if |xs| > 0 {
      assert NoDuplicates(xs[1..]);
      NoDuplicatesOnce(xs[1..], x);
      assert xs == [xs[0]] + xs[1..];
      assert multiset(xs)[x] == multiset([xs[0]])[x] + multiset(xs[1..])[x];
      if xs[0] == x {
        assert x !in xs[1..];
      }
    }
  }

  /** Filtering with a test every element passes keeps the sequence. */
  lemma {:induction false} FilterKeepsEvery<T(!new)>(xs: seq<T>, keep: T -> bool)
    requires forall x :: x in xs ==> keep(x)
    ensures Filter(xs, keep) == xs
    decreases |xs|
  {
    if |xs| > 0 {
      FilterKeepsEvery(xs[1..], keep);
    }
  }

  /** Filtering with a test no element passes leaves nothing. */
  lemma {:induction false} FilterDropsEvery<T(!new)>(xs: seq<T>, keep: T -> bool)
    requires forall x :: x in xs ==> !keep(x)
    ensures Filter(xs, keep) == []
    decreases |xs|
  {
    if |xs| > 0 {
      FilterDropsEvery(xs[1..], keep);
    }
  }

  /** A duplicate-free sequence is its own `dict.fromkeys`. */
  lemma {:induction false} DedupKeepsDistinct<T(!new)>(xs: seq<T>)
    requires NoDuplicates(xs)
    ensures Dedup(xs) == xs
    decreases |xs|
  {
    if |xs| > 0 {
      var init := xs[..|xs| - 1];
      var x := xs[|xs| - 1];
      assert NoDuplicates(init);
      DedupKeepsDistinct(init);
      assert x !in init;
      DedupAppend(init, x);
      assert xs == init + [x];
    }
  }

  /** Appending a value already seen changes nothing; a new value goes last. */
  lemma DedupAppend<T(!new)>(xs: seq<T>, x: T)
    ensures x in xs ==> Dedup(xs + [x]) == Dedup(xs)
    ensures x !in xs ==> Dedup(xs + [x]) == Dedup(xs) + [x]
  {
    assert (xs + [x])[..|xs|] == xs;
  }

  /** A duplicate-free sequence has as many elements as its set. */
  lemma {:induction false} DistinctCount<T>(xs: seq<T>)
    requires NoDuplicates(xs)
    ensures |set x | x in xs| == |xs|
    decreases |xs|
  {
    if |xs| > 0 {
      var rest := xs[1..];
      assert NoDuplicates(rest);
      DistinctCount(rest);
      assert (set x | x in xs) == {xs[0]} + (set x | x in rest);
      assert xs[0] !in rest;
    }
  }

  /** Two tests that agree on every element filter alike. */
  lemma {:induction false} FilterAgree<T(!new)>(xs: seq<T>, a: T -> bool, b: T -> bool)
    requires forall x :: x in xs ==> a(x) == b(x)
    ensures Filter(xs, a) == Filter(xs, b)
    decreases |xs|
  {
    if |xs| > 0 {
      FilterAgree(xs[1..], a, b);
    }
  }
}
