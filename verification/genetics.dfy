/**
 * The genetic solver of solver_genetics.py: segment-reversal mutation, order
 * crossover into a child list pre-filled with -1, random initial population,
 * and an elitist generational loop. The distance is any function of two
 * city indices (the source's Euclidean distance with math.sqrt is not
 * modelled); every random draw is an input.
 */
module Genetics {
  import opened Tours

  // ---------------------------------------------------------------------------
  // Mutation
  // ---------------------------------------------------------------------------

  /**
   * mutate(tour) with the sorted sample (i, j): a copy of the tour whose
   * positions i .. j are reversed. The argument is a value and is not changed.
   */
  function Mutate(t: Tour, i: nat, j: nat): (r: Tour)
    requires i < j < |t|
    ensures |r| == |t| && multiset(r) == multiset(t)
  {
    ReverseRangeMultiset(t, i, j + 1);
    ReverseRange(t, i, j + 1)
  }

  /** The mutated copy is the tour before i, the slice i .. j reversed, and the tour after j. */
  lemma MutateSplices(t: Tour, i: nat, j: nat)
    requires i < j < |t|
    ensures Mutate(t, i, j) == t[..i] + Reverse(t[i..j + 1]) + t[j + 1..]
  {
    ReverseRangeSplices(t, i, j + 1);
  }

  /** Mutating twice with the same draw gives the tour back. */
  lemma MutateInvolution(t: Tour, i: nat, j: nat)
    requires i < j < |t|
    ensures Mutate(Mutate(t, i, j), i, j) == t
  {
    var r := Mutate(t, i, j);
    var rr := Mutate(r, i, j);
    forall k | 0 <= k < |t|
      ensures rr[k] == t[k]
    {
      if i <= k <= j {
        assert rr[k] == r[i + j - k];
      }
    }
  }

  /** A mutated permutation is still a permutation. */
  lemma MutatePermutation(t: Tour, n: nat, i: nat, j: nat)
    requires i < j < |t| && IsPermutation(t, n)
    ensures IsPermutation(Mutate(t, i, j), n)
  {
  }

  // ---------------------------------------------------------------------------
  // Crossover
  // ---------------------------------------------------------------------------

  /** The cities of s that are not in seg, in the order of s. */
  function Remaining(s: seq<int>, seg: seq<int>): (r: seq<int>)
    ensures |r| <= |s|
  {
    if s == [] then []
    else Remaining(s[..|s| - 1], seg) + (if s[|s| - 1] in seg then [] else [s[|s| - 1]])
  }

  lemma {:induction false} RemainingConcat(a: seq<int>, b: seq<int>, seg: seq<int>)
    ensures Remaining(a + b, seg) == Remaining(a, seg) + Remaining(b, seg)
    decreases |b|
  {
    if b == [] {
      assert a + b == a;
    } else {
      var b' := b[..|b| - 1];
      assert (a + b)[..|a + b| - 1] == a + b';
      RemainingConcat(a, b', seg);
    }
  }

  /** Each city of s outside seg appears in Remaining as often as in s; seg's cities not at all. */
  lemma {:induction false} RemainingMultiset(s: seq<int>, seg: seq<int>, x: int)
    ensures multiset(Remaining(s, seg))[x] == if x in seg then 0 else multiset(s)[x]
  {
    if s != [] {
      var s', last := s[..|s| - 1], s[|s| - 1];
      RemainingMultiset(s', seg, x);
      assert s == s' + [last];
      var tail := if last in seg then [] else [last];
      assert Remaining(s, seg) == Remaining(s', seg) + tail;
      assert multiset(Remaining(s, seg)) == multiset(Remaining(s', seg)) + multiset(tail);
      assert multiset(s) == multiset(s') + multiset{last};
    }
  }

  /**
   * The k-th slot that crossover fills, counting cyclically from j + 1 and
   * skipping the copied segment i .. j; Slot(n - (j - i + 1)) is i again.
   */
  function Slot(n: nat, i: nat, j: nat, m: nat): (q: nat)
    requires i <= j < n && m <= n - (j - i + 1)
    ensures q < n
  {
    if j + 1 + m < n then j + 1 + m else j + 1 + m - n
  }

  /** Which slot position q (outside i .. j) is: the inverse of Slot. */
  function Offset(n: nat, i: nat, j: nat, q: nat): (m: nat)
    requires i <= j < n && q < n && !(i <= q <= j)
    ensures m < n - (j - i + 1)
    ensures Slot(n, i, j, m) == q
  {
    if q > j then q - j - 1 else q + n - j - 1
  }

  lemma SlotOffset(n: nat, i: nat, j: nat, m: nat)
    requires i <= j < n && m < n - (j - i + 1)
    ensures !(i <= Slot(n, i, j, m) <= j)
    ensures Offset(n, i, j, Slot(n, i, j, m)) == m
  {
  }

  /** position = (position + 1) % N moves from one slot to the next. */
  lemma SlotStep(n: nat, i: nat, j: nat, m: nat)
    requires i <= j < n && m < n - (j - i + 1)
    ensures Slot(n, i, j, m + 1) == Succ(Slot(n, i, j, m), n)
  {
  }

  /**
   * The child list while crossover runs: seg at positions i .. j, the cities
   * of rem in the first |rem| slots from j + 1 on, -1 in the slots not yet filled.
   */
  function Layout(n: nat, i: nat, j: nat, seg: seq<int>, rem: seq<int>): (c: seq<int>)
    requires i <= j < n && |seg| == j - i + 1 && |rem| <= n - |seg|
    ensures |c| == n
  {
    seq(n, q requires 0 <= q < n =>
      if i <= q <= j then seg[q - i]
      else if Offset(n, i, j, q) < |rem| then rem[Offset(n, i, j, q)]
      else -1)
  }

  /** Writing the next city into the next free slot extends the layout by that city. */
  lemma LayoutAppend(n: nat, i: nat, j: nat, seg: seq<int>, rem: seq<int>, x: int)
    requires i <= j < n && |seg| == j - i + 1 && |rem| < n - |seg|
    ensures Layout(n, i, j, seg, rem)[Slot(n, i, j, |rem|) := x] == Layout(n, i, j, seg, rem + [x])
  {
    SlotOffset(n, i, j, |rem|);
  }

  /** A city (never -1) is in the child exactly when it is in the segment or already placed. */
  lemma LayoutMember(n: nat, i: nat, j: nat, seg: seq<int>, rem: seq<int>, x: int)
    requires i <= j < n && |seg| == j - i + 1 && |rem| <= n - |seg|
    requires x >= 0
    ensures x in Layout(n, i, j, seg, rem) <==> x in seg || x in rem
  {
    var c := Layout(n, i, j, seg, rem);
    if x in seg {
      var k :| 0 <= k < |seg| && seg[k] == x;
      assert c[i + k] == x;
    } else if x in rem {
      var m :| 0 <= m < |rem| && rem[m] == x;
      SlotOffset(n, i, j, m);
      assert c[Slot(n, i, j, m)] == x;
    }
  }

  /** Both parents visit each of the n cities exactly once. */
  predicate Parents(tour1: Tour, tour2: Tour)
  {
    IsPermutation(tour1, |tour1|) && IsPermutation(tour2, |tour1|)
  }

  /**
   * For permutation parents, the cities of tour2 outside the copied segment
   * and the segment together are tour2's cities, so exactly the free slots
   * are filled.
   */
  lemma RemainingFill(tour1: Tour, tour2: Tour, i: nat, j: nat)
    requires i <= j < |tour1| && Parents(tour1, tour2)
    ensures multiset(Remaining(tour2, tour1[i..j + 1])) + multiset(tour1[i..j + 1]) == multiset(tour2)
    ensures |Remaining(tour2, tour1[i..j + 1])| == |tour1| - (j - i + 1)
  {
    var n, seg := |tour1|, tour1[i..j + 1];
    var rem := Remaining(tour2, seg);
    PermutationFacts(tour1, n);
    PermutationFacts(tour2, n);
    assert tour1 == tour1[..i] + seg + tour1[j + 1..];
    forall x
      ensures multiset(rem)[x] + multiset(seg)[x] == multiset(tour2)[x]
    {
      RemainingMultiset(tour2, seg, x);
      if x in seg {
        IotaCount(n, x);
        assert multiset(tour1)[x] >= multiset(seg)[x];
      }
    }
    assert multiset(rem) + multiset(seg) == multiset(tour2);
    assert |multiset(rem)| + |multiset(seg)| == |multiset(tour2)|;
  }

  /**
   * The child crossover(tour1, tour2) builds with the sorted sample (i, j),
   * for permutation parents: tour1[i..j] in place, and from (j + 1) % N on,
   * cyclically, tour2's other cities in tour2's order.
   */
  function CrossoverChild(tour1: Tour, tour2: Tour, i: nat, j: nat): (c: Tour)
    requires i < j < |tour1| && Parents(tour1, tour2)
    ensures |c| == |tour1|
  {
    RemainingFill(tour1, tour2, i, j);
    Layout(|tour1|, i, j, tour1[i..j + 1], Remaining(tour2, tour1[i..j + 1]))
  }

  /** child[i:j+1] = tour1[i:j+1]: the segment is copied verbatim. */
  lemma CrossoverKeepsSegment(tour1: Tour, tour2: Tour, i: nat, j: nat)
    requires i < j < |tour1| && Parents(tour1, tour2)
    ensures CrossoverChild(tour1, tour2, i, j)[i..j + 1] == tour1[i..j + 1]
  {
    var c := CrossoverChild(tour1, tour2, i, j);
    forall q | i <= q <= j
      ensures c[q] == tour1[q]
    {
    }
  }

  /**
   * The fill order: the child read from position j + 1 round to i - 1 is
   * tour2 with the segment's cities removed.
   */
  lemma CrossoverFillOrder(tour1: Tour, tour2: Tour, i: nat, j: nat)
    requires i < j < |tour1| && Parents(tour1, tour2)
    ensures var c := CrossoverChild(tour1, tour2, i, j);
      c[j + 1..] + c[..i] == Remaining(tour2, tour1[i..j + 1])
  {
    var n, seg := |tour1|, tour1[i..j + 1];
    var c := CrossoverChild(tour1, tour2, i, j);
    var rem := Remaining(tour2, seg);
    RemainingFill(tour1, tour2, i, j);
    var around := c[j + 1..] + c[..i];
    forall m | 0 <= m < |rem|
      ensures around[m] == rem[m]
    {
      if m < n - j - 1 {
        assert around[m] == c[j + 1 + m];
        assert Offset(n, i, j, j + 1 + m) == m;
      } else {
        assert around[m] == c[m - (n - j - 1)];
        assert Offset(n, i, j, m - (n - j - 1)) == m;
      }
    }
  }

  /** Crossover of two permutations is a permutation: no -1 is left and no city repeats. */
  lemma CrossoverPermutation(tour1: Tour, tour2: Tour, i: nat, j: nat)
    requires i < j < |tour1| && Parents(tour1, tour2)
    ensures IsPermutation(CrossoverChild(tour1, tour2, i, j), |tour1|)
    ensures -1 !in CrossoverChild(tour1, tour2, i, j)
  {
    var c := CrossoverChild(tour1, tour2, i, j);
    ChildMultiset(tour1, tour2, i, j);
    PermutationFacts(c, |tour1|);
  }

  /** The child holds exactly the cities of tour2: the segment's and the remaining ones. */
  lemma ChildMultiset(tour1: Tour, tour2: Tour, i: nat, j: nat)
    requires i < j < |tour1| && Parents(tour1, tour2)
    ensures multiset(CrossoverChild(tour1, tour2, i, j)) == multiset(tour2)
  {
    var c, seg := CrossoverChild(tour1, tour2, i, j), tour1[i..j + 1];
    var rest := Remaining(tour2, seg);
    assert c[j + 1..] + c[..i] == rest by {
      CrossoverFillOrder(tour1, tour2, i, j);
    }
    assert c[i..j + 1] == seg by {
      CrossoverKeepsSegment(tour1, tour2, i, j);
    }
    assert multiset(rest) + multiset(seg) == multiset(tour2) by {
      RemainingFill(tour1, tour2, i, j);
    }
    SplitMultiset(c, i, j + 1, rest, seg, tour2);
  }

  /** A sequence cut into a middle part and the wrapped-around rest has the cities of both parts. */
  lemma SplitMultiset(c: seq<int>, lo: nat, hi: nat, rest: seq<int>, middle: seq<int>, whole: seq<int>)
    requires lo <= hi <= |c|
    requires c[hi..] + c[..lo] == rest && c[lo..hi] == middle
    requires multiset(rest) + multiset(middle) == multiset(whole)
    ensures multiset(c) == multiset(whole)
  {
    assert c == c[..lo] + c[lo..hi] + c[hi..];
  }

  /**
   * Two identical parents do not give that parent back: the fill restarts
   * with tour2[0] at position j + 1.
   */
  lemma IdenticalParentsExample()
    ensures Parents([0, 1, 2, 3], [0, 1, 2, 3])
    ensures CrossoverChild([0, 1, 2, 3], [0, 1, 2, 3], 1, 2) == [3, 1, 2, 0]
  {
    assert Iota(4) == [0, 1, 2, 3];
    var seg := [0, 1, 2, 3][1..3];
    assert seg == [1, 2];
    assert Remaining([0, 1, 2, 3], seg) == [0, 3] by {
      assert [0, 1, 2, 3][..3] == [0, 1, 2];
      assert [0, 1, 2][..2] == [0, 1];
      assert [0, 1][..1] == [0];
      assert [0][..0] == [];
    }
  }

  /**
   * crossover(tour1, tour2) with the sorted sample (i, j): a child list of
   * -1s gets tour1[i..j]; then every city of tour2 not yet in the child goes
   * into the slot at `position`, which starts at (j + 1) % N and moves on
   * cyclically.
   */
  method Crossover(tour1: Tour, tour2: Tour, i: nat, j: nat) returns (child: Tour)
    requires i < j < |tour1|
    ensures |child| == |tour1|
    ensures Parents(tour1, tour2) ==> child == CrossoverChild(tour1, tour2, i, j)
  {
    var n := |tour1|;
    ghost var parents := Parents(tour1, tour2);
    ghost var seg := tour1[i..j + 1];
    var c := new int[n](_ => -1);
    forall q | i <= q <= j {
      c[q] := tour1[q];
    }
    assert c[..] == Layout(n, i, j, seg, []);
    if parents {
      RemainingFill(tour1, tour2, i, j);
      PermutationFacts(tour2, n);
    }
    var position := (j + 1) % n;
    SuccIsMod(j, n);
    ghost var rem: seq<int> := [];
    for p := 0 to |tour2|
      invariant 0 <= position < n
      invariant parents ==> rem == Remaining(tour2[..p], seg)
      invariant parents ==> |rem| <= n - |seg| && position == Slot(n, i, j, |rem|)
      invariant parents ==> c[..] == Layout(n, i, j, seg, rem)
    {
      var city := tour2[p];
      if parents {
        CrossoverStep(tour1, tour2, i, j, p, rem);
      }
      if city !in c[..] {
        ghost var before := c[..];
        c[position] := city;
        assert c[..] == before[position := city];
        SuccIsMod(position, n);
        position := (position + 1) % n;
        if parents {
          rem := rem + [city];
        }
      }
    }
    assert tour2[..|tour2|] == tour2;
    child := c[..];
  }

  /**
   * One turn of crossover's loop, for permutation parents: the city tour2[p]
   * is in the child exactly when it is in the segment; if it is not, there is
   * a free slot left for it, and writing it there extends the layout.
   */
  lemma CrossoverStep(tour1: Tour, tour2: Tour, i: nat, j: nat, p: nat, rem: seq<int>)
    requires i < j < |tour1| && Parents(tour1, tour2) && p < |tour2|
    requires rem == Remaining(tour2[..p], tour1[i..j + 1])
    ensures
      var n, seg, city := |tour1|, tour1[i..j + 1], tour2[p];
      && |rem| <= n - |seg|
      && (city in Layout(n, i, j, seg, rem) <==> city in seg)
      && (city in seg ==> Remaining(tour2[..p + 1], seg) == rem)
      && (city !in seg ==>
            && Remaining(tour2[..p + 1], seg) == rem + [city]
            && |rem| < n - |seg|
            && Layout(n, i, j, seg, rem)[Slot(n, i, j, |rem|) := city] == Layout(n, i, j, seg, rem + [city])
            && Slot(n, i, j, |rem| + 1) == Succ(Slot(n, i, j, |rem|), n))
  {
    var n, seg, city := |tour1|, tour1[i..j + 1], tour2[p];
    RemainingStep(tour1, tour2, i, j, p);
    LayoutMember(n, i, j, seg, rem, city);
    if city !in seg {
      LayoutAppend(n, i, j, seg, rem, city);
      SlotStep(n, i, j, |rem|);
    }
  }

  /** How Remaining grows by the city at p, and that it never outgrows the free slots. */
  lemma RemainingStep(tour1: Tour, tour2: Tour, i: nat, j: nat, p: nat)
    requires i < j < |tour1| && Parents(tour1, tour2) && p < |tour2|
    ensures
      var n, seg, city := |tour1|, tour1[i..j + 1], tour2[p];
      var rem := Remaining(tour2[..p], seg);
      && 0 <= city
      && city !in rem
      && Remaining(tour2[..p + 1], seg) == rem + (if city in seg then [] else [city])
      && |Remaining(tour2[..p + 1], seg)| <= n - |seg|
  {
    var n, seg, city := |tour1|, tour1[i..j + 1], tour2[p];
    ChildMembership(tour2, seg, p, n);
    assert tour2[..p + 1] == tour2[..p] + [city];
    RemainingSnoc(tour2[..p], city, seg);
    RemainingBound(tour1, tour2, i, j, p + 1);
  }

  /** One more city of s is kept exactly when it is outside seg. */
  lemma RemainingSnoc(s: seq<int>, x: int, seg: seq<int>)
    ensures Remaining(s + [x], seg) == Remaining(s, seg) + (if x in seg then [] else [x])
  {
    assert (s + [x])[..|s|] == s;
  }

  /** The cities kept from any prefix of tour2 fit into the free slots. */
  lemma RemainingBound(tour1: Tour, tour2: Tour, i: nat, j: nat, q: nat)
    requires i < j < |tour1| && Parents(tour1, tour2) && q <= |tour2|
    ensures |Remaining(tour2[..q], tour1[i..j + 1])| <= |tour1| - (j - i + 1)
  {
    var seg := tour1[i..j + 1];
    RemainingFill(tour1, tour2, i, j);
    assert tour2 == tour2[..q] + tour2[q..];
    RemainingConcat(tour2[..q], tour2[q..], seg);
  }

  /** A city at two positions of t occurs at least twice in its multiset. */
  lemma TwiceCounted(t: seq<int>, a: nat, b: nat)
    requires a < b < |t| && t[a] == t[b]
    ensures multiset(t)[t[b]] >= 2
  {
    assert t == t[..b] + [t[b]] + t[b + 1..];
    assert t[a] == t[..b][a];
  }

  /** In a permutation, the city at p is a valid city and does not occur before p. */
  lemma ChildMembership(tour2: Tour, seg: seq<int>, p: nat, n: nat)
    requires IsPermutation(tour2, n) && p < |tour2|
    ensures 0 <= tour2[p] < n
    ensures tour2[p] !in Remaining(tour2[..p], seg)
  {
    PermutationFacts(tour2, n);
    var x := tour2[p];
    if x in Remaining(tour2[..p], seg) {
      RemainingMultiset(tour2[..p], seg, x);
      assert x in tour2[..p];
      var a :| 0 <= a < p && tour2[..p][a] == x;
      TwiceCounted(tour2, a, p);
      assert false;
    }
  }

  // ---------------------------------------------------------------------------
  // Population
  // ---------------------------------------------------------------------------

  /** Every member of the population is a permutation of the n cities. */
  predicate AllTours(population: seq<Tour>, n: nat)
  {
    forall q :: 0 <= q < |population| ==> |population[q]| == n && IsPermutation(population[q], n)
  }

  /**
   * initialize_population(cities, population_size): population_size calls of
   * random.sample(range(N), N), the q-th driven by picks[q].
   */
  function InitializePopulation(n: nat, size: nat, picks: seq<seq<nat>>): (population: seq<Tour>)
    requires |picks| == size && forall q :: 0 <= q < size ==> PicksFit(picks[q], n)
    ensures |population| == size && AllTours(population, n)
  {
    seq(size, q requires 0 <= q < size => RandomPermutation(n, picks[q]))
  }

  /** The population in ascending order of total_distance, the key of sorted and min. */
  predicate SortedByLength(s: seq<Tour>, w: Weight)
  {
    forall a, b :: 0 <= a < b < |s| ==> TotalDistance(s[a], w) <= TotalDistance(s[b], w)
  }

  /** t placed after every member of the sorted s that is not longer, as a stable sort does. */
  function Insert(t: Tour, s: seq<Tour>, w: Weight): (r: seq<Tour>)
    requires SortedByLength(s, w)
    ensures |r| == |s| + 1
    ensures multiset(r) == multiset(s) + multiset{t}
    ensures SortedByLength(r, w)
  {
    if s == [] then [t]
    else if TotalDistance(t, w) < TotalDistance(s[0], w) then [t] + s
    else
      assert s == [s[0]] + s[1..];
      var rest := Insert(t, s[1..], w);
      InsertBehindHead(t, s, w, rest);
      [s[0]] + rest
  }

  /** Every member of t inserted into the tail of s is at least as long as the head of s. */
  lemma InsertBehindHead(t: Tour, s: seq<Tour>, w: Weight, rest: seq<Tour>)
    requires SortedByLength(s, w) && s != []
    requires TotalDistance(s[0], w) <= TotalDistance(t, w)
    requires multiset(rest) == multiset(s[1..]) + multiset{t}
    ensures forall m :: 0 <= m < |rest| ==> TotalDistance(s[0], w) <= TotalDistance(rest[m], w)
  {
    forall m | 0 <= m < |rest|
      ensures TotalDistance(s[0], w) <= TotalDistance(rest[m], w)
    {
      assert rest[m] in multiset(s[1..]) + multiset{t};
      if rest[m] != t {
        var a :| 0 <= a < |s[1..]| && s[1..][a] == rest[m];
        assert s[a + 1] == rest[m];
      }
    }
  }

  /** sorted(population, key=lambda tour: total_distance(tour, cities)), by insertion. */
  function SortByLength(population: seq<Tour>, w: Weight): (r: seq<Tour>)
    ensures multiset(r) == multiset(population)
    ensures |r| == |population|
    ensures SortedByLength(r, w)
  {
    if population == [] then []
    else
      var last := |population| - 1;
      assert population == population[..last] + [population[last]];
      Insert(population[last], SortByLength(population[..last], w), w)
  }

  /** The position min(population, key=...) picks: the first of the shortest tours. */
  function ArgMin(population: seq<Tour>, w: Weight): (a: nat)
    requires population != []
    ensures a < |population|
    ensures forall q :: 0 <= q < |population| ==> TotalDistance(population[a], w) <= TotalDistance(population[q], w)
    ensures forall q :: 0 <= q < a ==> TotalDistance(population[q], w) > TotalDistance(population[a], w)
  {
    if |population| == 1 then 0
    else
      var last := |population| - 1;
      var a := ArgMin(population[..last], w);
      assert forall q :: 0 <= q < last ==> population[..last][q] == population[q];
      if TotalDistance(population[last], w) < TotalDistance(population[a], w) then last else a
  }

  /** The length of the best tour of a population. */
  function BestLength(population: seq<Tour>, w: Weight): real
    requires population != []
  {
    TotalDistance(population[ArgMin(population, w)], w)
  }

  /** The head of the sorted population is a best tour of the unsorted one. */
  lemma SortedHeadIsBest(population: seq<Tour>, w: Weight)
    requires population != []
    ensures TotalDistance(SortByLength(population, w)[0], w) == BestLength(population, w)
  {
    var sorted := SortByLength(population, w);
    var a := ArgMin(population, w);
    assert sorted[0] in multiset(population);
    var q :| 0 <= q < |population| && population[q] == sorted[0];
    assert population[a] in multiset(sorted);
    var b :| 0 <= b < |sorted| && sorted[b] == population[a];
  }

  /** The members of a population are members of the population it was sorted from. */
  lemma SortedTours(population: seq<Tour>, w: Weight, n: nat)
    requires AllTours(population, n)
    ensures AllTours(SortByLength(population, w), n)
  {
    var sorted := SortByLength(population, w);
    forall m | 0 <= m < |sorted|
      ensures |sorted[m]| == n && IsPermutation(sorted[m], n)
    {
      assert sorted[m] in multiset(population);
      var q :| 0 <= q < |population| && population[q] == sorted[m];
    }
  }

  /** With at least one elite, the next generation's best tour is no longer than this one's. */
  lemma ElitismKeepsBest(population: seq<Tour>, next: seq<Tour>, w: Weight)
    requires population != [] && next != []
    requires next[0] == SortByLength(population, w)[0]
    ensures BestLength(next, w) <= BestLength(population, w)
  {
    SortedHeadIsBest(population, w);
  }

  // ---------------------------------------------------------------------------
  // The generational loop
  // ---------------------------------------------------------------------------

  /** The constants of solve: population_size, num_generations, num_elites, and the 50 of population[:50]. */
  datatype Config = Config(populationSize: nat, generations: nat, elites: nat, poolSize: nat)

  const Defaults := Config(100, 1000, 10, 50)

  function Min(a: nat, b: nat): nat
  {
    if a <= b then a else b
  }

  /** |population[:num_elites]|: the elites carried over. */
  function Kept(cfg: Config): nat
  {
    Min(cfg.elites, cfg.populationSize)
  }

  /** The children bred per generation to refill the population. */
  function Children(cfg: Config): nat
  {
    cfg.populationSize - Kept(cfg)
  }

  /** |population[:50]|: the parents are drawn from this many of the best tours. */
  function Pool(cfg: Config): nat
  {
    Min(cfg.poolSize, cfg.populationSize)
  }

  /**
   * The draws for one child: the positions random.sample(population[:50], 2)
   * picks, crossover's sorted cut points, whether random.random() fell below
   * mutation_rate, and mutate's sorted positions.
   */
  datatype ChildDraw = ChildDraw(first: nat, second: nat, cutI: nat, cutJ: nat, mutates: bool, mutI: nat, mutJ: nat)

  predicate DrawFits(d: ChildDraw, pool: nat, n: nat)
  {
    && d.first < pool && d.second < pool && d.first != d.second
    && d.cutI < d.cutJ < n
    && (d.mutates ==> d.mutI < d.mutJ < n)
  }

  /**
   * random.sample raises unless there are two parents to draw and two cut
   * points: the first generation that breeds a child fails when the pool or
   * the tour has fewer than two members.
   */
  predicate Feasible(cfg: Config, n: nat)
  {
    cfg.generations > 0 && Children(cfg) > 0 ==> Pool(cfg) >= 2 && n >= 2
  }

  /**
   * With the source's constants, 90 children a generation are drawn from the
   * 50 best of 100 tours, so solve fails exactly when there are fewer than
   * two cities, and always keeps an elite.
   */
  lemma DefaultsFeasible(n: nat)
    ensures Kept(Defaults) == 10 && Children(Defaults) == 90 && Pool(Defaults) == 50
    ensures Feasible(Defaults, n) <==> n >= 2
    ensures (!Feasible(Defaults, n) || Defaults.populationSize == 0) <==> n < 2
  {
  }

  /** The child of draw d: crossover of the two drawn parents, then mutation if the coin says so. */
  function BredChild(pool: seq<Tour>, n: nat, d: ChildDraw): (child: Tour)
    requires AllTours(pool, n) && DrawFits(d, |pool|, n)
    ensures |child| == n && IsPermutation(child, n)
  {
    var crossed := CrossoverChild(pool[d.first], pool[d.second], d.cutI, d.cutJ);
    CrossoverPermutation(pool[d.first], pool[d.second], d.cutI, d.cutJ);
    if d.mutates then
      MutatePermutation(crossed, n, d.mutI, d.mutJ);
      Mutate(crossed, d.mutI, d.mutJ)
    else crossed
  }

  /** Lines 54-56 of solve: crossover(parent1, parent2), then mutate(child) with probability mutation_rate. */
  method Breed(pool: seq<Tour>, n: nat, d: ChildDraw) returns (child: Tour)
    requires AllTours(pool, n) && DrawFits(d, |pool|, n)
    ensures |child| == n && IsPermutation(child, n)
    ensures var crossed := CrossoverChild(pool[d.first], pool[d.second], d.cutI, d.cutJ);
      child == if d.mutates then Mutate(crossed, d.mutI, d.mutJ) else crossed
    ensures child == BredChild(pool, n, d)
  {
    var crossed := Crossover(pool[d.first], pool[d.second], d.cutI, d.cutJ);
    CrossoverPermutation(pool[d.first], pool[d.second], d.cutI, d.cutJ);
    child := crossed;
    if d.mutates {
      child := Mutate(child, d.mutI, d.mutJ);
    }
  }

  /** The draws of one generation: one fitting draw per child to breed. */
  predicate GenerationDraws(draws: seq<ChildDraw>, cfg: Config, n: nat)
  {
    |draws| == Children(cfg) && forall m :: 0 <= m < |draws| ==> DrawFits(draws[m], Pool(cfg), n)
  }

  /** The best Pool(cfg) tours of a sorted population, population[:50]. */
  lemma PoolTours(sorted: seq<Tour>, n: nat, cfg: Config)
    requires |sorted| == cfg.populationSize && AllTours(sorted, n)
    ensures AllTours(sorted[..Pool(cfg)], n) && |sorted[..Pool(cfg)]| == Pool(cfg)
  {
    assert forall q :: 0 <= q < Pool(cfg) ==> sorted[..Pool(cfg)][q] == sorted[q];
  }

  /** The child of the m-th draw of a generation, bred from population[:50] of the sorted population. */
  function Offspring(sorted: seq<Tour>, n: nat, cfg: Config, draws: seq<ChildDraw>, m: nat): (child: Tour)
    requires |sorted| == cfg.populationSize && AllTours(sorted, n)
    requires GenerationDraws(draws, cfg, n) && m < Children(cfg)
    ensures |child| == n && IsPermutation(child, n)
  {
    PoolTours(sorted, n, cfg);
    BredChild(sorted[..Pool(cfg)], n, draws[m])
  }

  /** The children of one generation, one per draw, in the order of the draws. */
  function Brood(sorted: seq<Tour>, n: nat, cfg: Config, draws: seq<ChildDraw>): (children: seq<Tour>)
    requires |sorted| == cfg.populationSize && AllTours(sorted, n)
    requires GenerationDraws(draws, cfg, n)
    ensures |children| == Children(cfg) && AllTours(children, n)
    ensures forall m :: 0 <= m < Children(cfg) ==> children[m] == Offspring(sorted, n, cfg, draws, m)
  {
    seq(Children(cfg), m requires 0 <= m < Children(cfg) => Offspring(sorted, n, cfg, draws, m))
  }

  /** The next population built from the sorted one: population[:num_elites], then the children. */
  function Rebuild(sorted: seq<Tour>, n: nat, cfg: Config, draws: seq<ChildDraw>): (next: seq<Tour>)
    requires |sorted| == cfg.populationSize && AllTours(sorted, n)
    requires GenerationDraws(draws, cfg, n)
    ensures |next| == cfg.populationSize
  {
    sorted[..Kept(cfg)] + Brood(sorted, n, cfg, draws)
  }

  /** The rebuilt population starts with the elites and holds permutations only. */
  lemma RebuildTours(sorted: seq<Tour>, n: nat, cfg: Config, draws: seq<ChildDraw>)
    requires |sorted| == cfg.populationSize && AllTours(sorted, n)
    requires GenerationDraws(draws, cfg, n)
    ensures Rebuild(sorted, n, cfg, draws)[..Kept(cfg)] == sorted[..Kept(cfg)]
    ensures AllTours(Rebuild(sorted, n, cfg, draws), n)
  {
    var kept, children := sorted[..Kept(cfg)], Brood(sorted, n, cfg, draws);
    var next := kept + children;
    assert next[..Kept(cfg)] == kept;
    forall q | 0 <= q < |next|
      ensures |next[q]| == n && IsPermutation(next[q], n)
    {
      if q < Kept(cfg) {
        assert next[q] == sorted[q];
      } else {
        assert next[q] == children[q - Kept(cfg)];
      }
    }
  }

  /** One iteration of solve's generation loop: sort the population, then rebuild it. */
  function Generation(population: seq<Tour>, n: nat, cfg: Config, draws: seq<ChildDraw>, w: Weight): (next: seq<Tour>)
    requires |population| == cfg.populationSize && AllTours(population, n)
    requires GenerationDraws(draws, cfg, n)
    ensures |next| == cfg.populationSize && AllTours(next, n)
  {
    SortedTours(population, w, n);
    RebuildTours(SortByLength(population, w), n, cfg, draws);
    Rebuild(SortByLength(population, w), n, cfg, draws)
  }

  /** The population after the generations whose draws are draws, one after the other. */
  function Evolve(population: seq<Tour>, n: nat, cfg: Config, draws: seq<seq<ChildDraw>>, w: Weight): (last: seq<Tour>)
    requires |population| == cfg.populationSize && AllTours(population, n)
    requires forall g :: 0 <= g < |draws| ==> GenerationDraws(draws[g], cfg, n)
    ensures |last| == cfg.populationSize && AllTours(last, n)
    decreases |draws|
  {
    if draws == [] then population
    else Generation(Evolve(population, n, cfg, draws[..|draws| - 1], w), n, cfg, draws[|draws| - 1], w)
  }

  /** With an elite kept, one generation never makes the best tour longer. */
  lemma GenerationKeepsBest(population: seq<Tour>, n: nat, cfg: Config, draws: seq<ChildDraw>, w: Weight)
    requires |population| == cfg.populationSize && AllTours(population, n)
    requires GenerationDraws(draws, cfg, n)
    requires cfg.elites > 0 && cfg.populationSize > 0
    ensures BestLength(Generation(population, n, cfg, draws, w), w) <= BestLength(population, w)
  {
    var sorted := SortByLength(population, w);
    var next := Generation(population, n, cfg, draws, w);
    SortedTours(population, w, n);
    RebuildTours(sorted, n, cfg, draws);
    assert next[..Kept(cfg)][0] == sorted[..Kept(cfg)][0];
    ElitismKeepsBest(population, next, w);
  }

  /** With an elite kept, the best tour after any number of generations is no longer than at the start. */
  lemma {:induction false} EvolveKeepsBest(population: seq<Tour>, n: nat, cfg: Config, draws: seq<seq<ChildDraw>>, w: Weight)
    requires |population| == cfg.populationSize && AllTours(population, n)
    requires forall g :: 0 <= g < |draws| ==> GenerationDraws(draws[g], cfg, n)
    requires cfg.elites > 0 && cfg.populationSize > 0
    ensures BestLength(Evolve(population, n, cfg, draws, w), w) <= BestLength(population, w)
    decreases |draws|
  {
    if draws != [] {
      var prefix := draws[..|draws| - 1];
      EvolveKeepsBest(population, n, cfg, prefix, w);
      GenerationKeepsBest(Evolve(population, n, cfg, prefix, w), n, cfg, draws[|draws| - 1], w);
    }
  }

  /** Extending the generations run so far by generation g. */
  lemma EvolveStep(population: seq<Tour>, n: nat, cfg: Config, draws: seq<seq<ChildDraw>>, w: Weight, g: nat)
    requires |population| == cfg.populationSize && AllTours(population, n)
    requires forall g :: 0 <= g < |draws| ==> GenerationDraws(draws[g], cfg, n)
    requires g < |draws|
    ensures Evolve(population, n, cfg, draws[..g + 1], w) ==
      Generation(Evolve(population, n, cfg, draws[..g], w), n, cfg, draws[g], w)
  {
    assert draws[..g + 1][..g] == draws[..g];
  }

  /** Appending the c-th child to the elites and the first c children gives the first c + 1 children. */
  lemma BroodGrows(sorted: seq<Tour>, n: nat, cfg: Config, draws: seq<ChildDraw>, c: nat, child: Tour)
    requires |sorted| == cfg.populationSize && AllTours(sorted, n)
    requires GenerationDraws(draws, cfg, n) && c < Children(cfg)
    requires child == BredChild(sorted[..Pool(cfg)], n, draws[c])
    ensures sorted[..Kept(cfg)] + Brood(sorted, n, cfg, draws)[..c] + [child] ==
      sorted[..Kept(cfg)] + Brood(sorted, n, cfg, draws)[..c + 1]
  {
    var children := Brood(sorted, n, cfg, draws);
    assert child == children[c];
    assert children[..c + 1] == children[..c] + [children[c]];
  }

  /**
   * One generation of solve on the sorted population: keep
   * population[:num_elites], then append bred children until the population
   * is full again.
   */
  method NextGeneration(sorted: seq<Tour>, n: nat, cfg: Config, draws: seq<ChildDraw>) returns (next: seq<Tour>)
    requires |sorted| == cfg.populationSize && AllTours(sorted, n)
    requires GenerationDraws(draws, cfg, n)
    ensures |next| == cfg.populationSize && AllTours(next, n)
    ensures next[..Kept(cfg)] == sorted[..Kept(cfg)]
    ensures next == Rebuild(sorted, n, cfg, draws)
  {
    var pool := sorted[..Pool(cfg)];
    PoolTours(sorted, n, cfg);
    ghost var children := Brood(sorted, n, cfg, draws);
    next := sorted[..Kept(cfg)];
    while |next| < cfg.populationSize
      invariant Kept(cfg) <= |next| <= cfg.populationSize
      invariant next == sorted[..Kept(cfg)] + children[..|next| - Kept(cfg)]
      decreases cfg.populationSize - |next|
    {
      var c := |next| - Kept(cfg);
      var child := Breed(pool, n, draws[c]);
      BroodGrows(sorted, n, cfg, draws, c, child);
      next := next + [child];
    }
    assert children[..Children(cfg)] == children;
    RebuildTours(sorted, n, cfg, draws);
  }

  /**
   * solve(cities) for N cities and the distance w: num_generations rounds of
   * sort, keep the elites, breed; then the first shortest tour of the final
   * population. picks drives initialize_population, draws[g] the children of
   * generation g. `final` is the last population, the generations evolved
   * from the initial one.
   */
  method Solve(n: nat, w: Weight, cfg: Config, picks: seq<seq<nat>>, draws: seq<seq<ChildDraw>>)
    returns (r: Result<Tour>, ghost final: seq<Tour>)
    requires |picks| == cfg.populationSize && forall q :: 0 <= q < |picks| ==> PicksFit(picks[q], n)
    requires |draws| == cfg.generations && forall g :: 0 <= g < |draws| ==> |draws[g]| == Children(cfg)
    requires Feasible(cfg, n) ==> forall g :: 0 <= g < |draws| ==> GenerationDraws(draws[g], cfg, n)
    ensures r.Err? <==> !Feasible(cfg, n) || cfg.populationSize == 0
    ensures r.Err? ==> r.failure == if Feasible(cfg, n) then EmptySequence else SampleLargerThanPopulation
    ensures Feasible(cfg, n) ==> final == Evolve(InitializePopulation(n, cfg.populationSize, picks), n, cfg, draws, w)
    ensures r.Ok? ==> |final| == cfg.populationSize && AllTours(final, n)
    ensures r.Ok? ==> r.value == final[ArgMin(final, w)] && IsPermutation(r.value, n)
    ensures r.Ok? ==> forall q :: 0 <= q < |final| ==> TotalDistance(r.value, w) <= TotalDistance(final[q], w)
    ensures r.Ok? && cfg.elites > 0 ==>
      TotalDistance(r.value, w) <= BestLength(InitializePopulation(n, cfg.populationSize, picks), w)
  {
    var population := InitializePopulation(n, cfg.populationSize, picks);
    ghost var initial := population;
    if !Feasible(cfg, n) {
      return Err(SampleLargerThanPopulation), population;
    }
    for g := 0 to cfg.generations
      invariant population == Evolve(initial, n, cfg, draws[..g], w)
    {
      var sorted := SortByLength(population, w);
      SortedTours(population, w, n);
      var next := NextGeneration(sorted, n, cfg, draws[g]);
      EvolveStep(initial, n, cfg, draws, w, g);
      population := next;
    }
    assert draws[..cfg.generations] == draws;
    final := population;
    if population == [] {
      r := Err(EmptySequence);
    } else {
      if cfg.elites > 0 {
        EvolveKeepsBest(initial, n, cfg, draws, w);
      }
      r := Ok(population[ArgMin(population, w)]);
    }
  }
}
