/**
 * Tours of the Traveling Salesman Problem. A tour is a sequence of city
 * indices read cyclically: after the last city the tour returns to the first.
 * This module holds what both solvers share: segment reversal, the
 * permutation predicate, the cyclic tour length (total_distance) and the
 * exact change a segment reversal makes to it, and the random permutations
 * that random.shuffle and random.sample(range(n), n) produce, driven by an
 * explicit sequence of choices.
 */
module Tours {

  type Tour = seq<int>

  /** The errors the solvers raise through Python's standard library. */
  datatype Failure =
    | SampleLargerThanPopulation  // random.sample(population, k) with k > len(population)
    | EmptySequence               // min() of an empty sequence

  datatype Result<T> = Ok(value: T) | Err(failure: Failure)

  // ---------------------------------------------------------------------------
  // Permutations
  // ---------------------------------------------------------------------------

  /** The indices 0, 1, ..., n - 1, that is list(range(n)). */
  function Iota(n: nat): seq<int>
  {
    seq(n, k => k)
  }

  /** t visits each of the cities 0 .. n - 1 exactly once. */
  predicate IsPermutation(t: seq<int>, n: nat)
  {
    multiset(t) == multiset(Iota(n))
  }

  lemma {:induction false} IotaCount(n: nat, x: int)
    ensures multiset(Iota(n))[x] == if 0 <= x < n then 1 else 0
  {
    if n > 0 {
      assert Iota(n) == Iota(n - 1) + [n - 1];
      IotaCount(n - 1, x);
    }
  }

  /** A permutation of 0 .. n - 1 has length n, only valid indices, and no repeats. */
  lemma PermutationFacts(t: seq<int>, n: nat)
    requires IsPermutation(t, n)
    ensures |t| == n
    ensures forall k :: 0 <= k < |t| ==> 0 <= t[k] < n
    ensures forall x :: multiset(t)[x] <= 1
  {
    assert |t| == |multiset(t)| == |multiset(Iota(n))| == |Iota(n)|;
    forall k | 0 <= k < |t|
      ensures 0 <= t[k] < n
    {
      assert t[k] in multiset(t);
      IotaCount(n, t[k]);
    }
    forall x
      ensures multiset(t)[x] <= 1
    {
      IotaCount(n, x);
    }
  }

  /** Every entry of t names one of the n cities. */
  predicate InRange(t: seq<int>, n: nat)
  {
    forall k :: 0 <= k < |t| ==> 0 <= t[k] < n
  }

  /** Rearranging a tour keeps its entries valid city indices. */
  lemma InRangeRearranged(s: seq<int>, t: seq<int>, n: nat)
    requires multiset(s) == multiset(t) && InRange(t, n)
    ensures InRange(s, n)
  {
    forall k | 0 <= k < |s|
      ensures 0 <= s[k] < n
    {
      assert s[k] in multiset(t);
      var m :| 0 <= m < |t| && t[m] == s[k];
    }
  }

  // ---------------------------------------------------------------------------
  // Segment reversal
  // ---------------------------------------------------------------------------

  /** s read back to front. */
  function Reverse(s: seq<int>): seq<int>
  {
    if s == [] then [] else [s[|s| - 1]] + Reverse(s[..|s| - 1])
  }

  lemma {:induction false} ReverseIndex(s: seq<int>)
    ensures |Reverse(s)| == |s|
    ensures forall k :: 0 <= k < |s| ==> Reverse(s)[k] == s[|s| - 1 - k]
  {
    if s != [] {
      ReverseIndex(s[..|s| - 1]);
    }
  }

  lemma {:induction false} ReverseMultiset(s: seq<int>)
    ensures multiset(Reverse(s)) == multiset(s)
  {
    if s != [] {
      ReverseMultiset(s[..|s| - 1]);
      assert s == s[..|s| - 1] + [s[|s| - 1]];
    }
  }

  /**
   * The list after `s[lo:hi] = reversed(s[lo:hi])`: positions lo .. hi - 1
   * hold that segment back to front, every other position keeps its city.
   */
  function ReverseRange(s: seq<int>, lo: nat, hi: nat): (r: seq<int>)
    requires lo <= hi <= |s|
    ensures |r| == |s|
  {
    seq(|s|, k requires 0 <= k < |s| => if lo <= k < hi then s[lo + hi - 1 - k] else s[k])
  }

  /** ReverseRange is the slice assignment: the part before, the slice reversed, the part after. */
  lemma ReverseRangeSplices(s: seq<int>, lo: nat, hi: nat)
    requires lo <= hi <= |s|
    ensures ReverseRange(s, lo, hi) == s[..lo] + Reverse(s[lo..hi]) + s[hi..]
  {
    ReverseIndex(s[lo..hi]);
  }

  /** Reversing a segment only rearranges the tour. */
  lemma ReverseRangeMultiset(s: seq<int>, lo: nat, hi: nat)
    requires lo <= hi <= |s|
    ensures multiset(ReverseRange(s, lo, hi)) == multiset(s)
  {
    ReverseRangeSplices(s, lo, hi);
    ReverseMultiset(s[lo..hi]);
    assert s == s[..lo] + s[lo..hi] + s[hi..];
  }

  // ---------------------------------------------------------------------------
  // Tour length
  // ---------------------------------------------------------------------------

  /** A distance between two cities, given by their indices. */
  type Weight = (int, int) -> real

  ghost predicate Symmetric(w: Weight)
  {
    forall a, b :: w(a, b) == w(b, a)
  }

  /**
   * The position after k on a cyclic tour of n cities, Python's (k + 1) % n
   * (SuccIsMod), written without the modulo.
   */
  function Succ(k: nat, n: nat): nat
    requires k < n
  {
    if k + 1 < n then k + 1 else 0
  }

  lemma SuccIsMod(k: nat, n: nat)
    requires k < n
    ensures Succ(k, n) == (k + 1) % n
  {
  }

  /** The first n terms of total_distance's sum: the edges t[k] -> t[(k + 1) % |t|] for k < n. */
  function EdgeSum(t: seq<int>, w: Weight, n: nat): real
    requires n <= |t|
  {
    if n == 0 then 0.0 else EdgeSum(t, w, n - 1) + w(t[n - 1], t[Succ(n - 1, |t|)])
  }

  /** total_distance: the |t| edges of the tour, the closing edge included. */
  function TotalDistance(t: seq<int>, w: Weight): real
  {
    EdgeSum(t, w, |t|)
  }

  /** The length of the open path through s: its consecutive edges, without a closing edge. */
  function PathLength(s: seq<int>, w: Weight): real
  {
    if |s| <= 1 then 0.0 else PathLength(s[..|s| - 1], w) + w(s[|s| - 2], s[|s| - 1])
  }

  /** Joining two paths adds the one edge that links them. */
  lemma {:induction false} PathLengthConcat(a: seq<int>, b: seq<int>, w: Weight)
    requires a != [] && b != []
    ensures PathLength(a + b, w) == PathLength(a, w) + w(a[|a| - 1], b[0]) + PathLength(b, w)
  {
    if |b| == 1 {
      assert (a + b)[..|a + b| - 1] == a;
    } else {
      var b' := b[..|b| - 1];
      assert (a + b)[..|a + b| - 1] == a + b';
      PathLengthConcat(a, b', w);
    }
  }

  /** With a symmetric distance, a path costs the same walked backwards. */
  lemma {:induction false} PathLengthReverse(s: seq<int>, w: Weight)
    requires Symmetric(w)
    ensures PathLength(Reverse(s), w) == PathLength(s, w)
  {
    if |s| == 1 {
      assert Reverse(s) == [s[0]] + Reverse([]);
    } else if |s| >= 2 {
      var s' := s[..|s| - 1];
      PathLengthReverse(s', w);
      ReverseIndex(s');
      assert Reverse(s) == [s[|s| - 1]] + Reverse(s');
      PathLengthConcat([s[|s| - 1]], Reverse(s'), w);
      assert Reverse(s')[0] == s[|s| - 2];
      assert PathLength([s[|s| - 1]], w) == 0.0;
      var x, y := s[|s| - 2], s[|s| - 1];
      assert w(y, x) == w(x, y);
      assert PathLength(s, w) == PathLength(s', w) + w(s[|s| - 2], s[|s| - 1]);
    }
  }

  lemma {:induction false} PrefixEdgeSum(t: seq<int>, w: Weight, n: nat)
    requires n < |t|
    ensures EdgeSum(t, w, n) == PathLength(t[..n + 1], w)
  {
    if n > 0 {
      PrefixEdgeSum(t, w, n - 1);
      assert t[..n + 1] == t[..n] + [t[n]];
      PathLengthConcat(t[..n], [t[n]], w);
    }
  }

  /** The cyclic sum is the open path that returns to the first city. */
  lemma ClosedTour(t: seq<int>, w: Weight)
    requires t != []
    ensures TotalDistance(t, w) == PathLength(t + [t[0]], w)
  {
    PrefixEdgeSum(t, w, |t| - 1);
    assert t[..|t|] == t;
    PathLengthConcat(t, [t[0]], w);
  }

  /**
   * Cutting the closed tour after positions i and j: the path up to i, the
   * edge t[i]-t[i+1], the path i+1 .. j, the edge t[j]-t[(j+1) % n], and the
   * path from j+1 back round to t[0].
   */
  lemma {:induction false} CutTour(t: seq<int>, w: Weight, i: nat, j: nat)
    requires i < j < |t|
    ensures
      TotalDistance(t, w)
        == PathLength(t[..i + 1], w) + w(t[i], t[i + 1]) + PathLength(t[i + 1..j + 1], w)
           + w(t[j], t[Succ(j, |t|)]) + PathLength(t[j + 1..] + [t[0]], w)
  {
    var p, s, q := t[..i + 1], t[i + 1..j + 1], t[j + 1..] + [t[0]];
    assert t + [t[0]] == (p + s) + q;
    assert (p + s)[|p + s| - 1] == t[j] && q[0] == t[Succ(j, |t|)];
    ClosedTour(t, w);
    PathLengthConcat(p + s, q, w);
    PathLengthConcat(p, s, w);
  }

  /**
   * The 2-opt exchange: reversing positions i + 1 .. j replaces the edges
   * A-B and C-D by A-C and B-D (A, B, C, D = t[i], t[i+1], t[j], t[(j+1) % n])
   * and changes nothing else, so the tour length moves by exactly that
   * difference. When j = n - 1 the edge C-D is the closing edge.
   */
  lemma ReversalDelta(t: seq<int>, w: Weight, i: nat, j: nat)
    requires Symmetric(w)
    requires i < j < |t|
    ensures
      var A, B, C, D := t[i], t[i + 1], t[j], t[Succ(j, |t|)];
      TotalDistance(ReverseRange(t, i + 1, j + 1), w)
        == TotalDistance(t, w) - (w(A, B) + w(C, D)) + (w(A, C) + w(B, D))
  {
    var r := ReverseRange(t, i + 1, j + 1);
    var s := t[i + 1..j + 1];
    ReverseRangeSplices(t, i + 1, j + 1);
    ReverseIndex(s);
    assert r[..i + 1] == t[..i + 1];
    assert r[i + 1..j + 1] == Reverse(s);
    assert r[j + 1..] + [r[0]] == t[j + 1..] + [t[0]];
    assert r[i + 1] == t[j] && r[j] == t[i + 1] && r[i] == t[i];
    assert r[Succ(j, |t|)] == t[Succ(j, |t|)];
    CutTour(t, w, i, j);
    CutTour(r, w, i, j);
    PathLengthReverse(s, w);
  }

  /** The cyclic sum is the open path plus the closing edge from the last city to the first. */
  lemma ClosingEdge(t: seq<int>, w: Weight)
    requires t != []
    ensures TotalDistance(t, w) == PathLength(t, w) + w(t[|t| - 1], t[0])
  {
    ClosedTour(t, w);
    PathLengthConcat(t, [t[0]], w);
  }

  /** The tour length does not depend on which city the cyclic tour starts from. */
  lemma TotalDistanceRotate(t: seq<int>, w: Weight, k: nat)
    requires k <= |t|
    ensures TotalDistance(t[k..] + t[..k], w) == TotalDistance(t, w)
  {
    var a, b := t[..k], t[k..];
    if a == [] {
      assert b + a == t;
    } else if b == [] {
      assert b + a == t;
    } else {
      assert a + b == t;
      ClosingEdge(t, w);
      ClosingEdge(b + a, w);
      PathLengthConcat(a, b, w);
      PathLengthConcat(b, a, w);
      assert (b + a)[0] == b[0] && (b + a)[|b + a| - 1] == a[|a| - 1];
      assert t[0] == a[0] && t[|t| - 1] == b[|b| - 1];
    }
  }

  /** With a symmetric distance, the tour length is the same travelled the other way round. */
  lemma TotalDistanceReverse(t: seq<int>, w: Weight)
    requires Symmetric(w)
    ensures TotalDistance(Reverse(t), w) == TotalDistance(t, w)
  {
    ReverseIndex(t);
    if t != [] {
      var r := Reverse(t);
      ClosingEdge(t, w);
      ClosingEdge(r, w);
      PathLengthReverse(t, w);
      assert r[0] == t[|t| - 1] && r[|r| - 1] == t[0];
      assert w(t[0], t[|t| - 1]) == w(t[|t| - 1], t[0]);
    }
  }

  // ---------------------------------------------------------------------------
  // Random permutations
  // ---------------------------------------------------------------------------

  /**
   * A choice sequence for drawing all n cities: the m-th draw picks one of
   * the n - m cities still in the pool.
   */
  predicate PicksFit(picks: seq<nat>, n: nat)
  {
    |picks| == n && forall m :: 0 <= m < n ==> picks[m] < n - m
  }

  /** Draws the whole pool without replacement, the m-th draw taking pool position picks[m]. */
  function Draw(pool: seq<int>, picks: seq<nat>): (r: seq<int>)
    requires PicksFit(picks, |pool|)
    ensures |r| == |pool| && multiset(r) == multiset(pool)
    decreases |picks|
  {
    if picks == [] then []
    else
      var k := picks[0];
      var rest := pool[..k] + pool[k + 1..];
      assert pool == pool[..k] + [pool[k]] + pool[k + 1..];
      [pool[k]] + Draw(rest, picks[1..])
  }

  /** list(range(n)) after random.shuffle, equally random.sample(range(n), n). */
  function RandomPermutation(n: nat, picks: seq<nat>): (r: seq<int>)
    requires PicksFit(picks, n)
    ensures |r| == n && IsPermutation(r, n)
  {
    Draw(Iota(n), picks)
  }
}
