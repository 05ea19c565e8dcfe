/**
 * The 2-opt / 3-opt solver of solver_3opt.py. The tour is a list that
 * two_opt and three_opt change in place by reversing slices; every distance
 * goes through the memoising DistanceCache. The random shuffle and the random
 * index triples are inputs.
 */
module LocalSearch {
  import opened Tours
  import opened DistanceOracle

  /** distance(cities[a], cities[b]), answered by the cache. */
  method CityDistance(cache: DistanceCache, cities: seq<Point>, a: int, b: int) returns (d: real)
    requires cache.Valid()
    requires 0 <= a < |cities| && 0 <= b < |cities|
    modifies cache
    ensures cache.Valid() && Grows(old(cache.entries), cache.entries)
    ensures d == EdgeWeight(cities)(a, b)
  {
    d := cache.Distance(cities[a], cities[b]);
  }

  /** `tour[lo:hi] = reversed(tour[lo:hi])`, done on the list itself. */
  method ReverseSlice(tour: array<int>, lo: int, hi: int)
    requires 0 <= lo <= hi <= tour.Length
    modifies tour
    ensures tour[..] == ReverseRange(old(tour[..]), lo, hi)
  {
    ghost var before := tour[..];
    var segment := tour[lo..hi];
    forall k | lo <= k < hi {
      tour[k] := segment[hi - 1 - k];
    }
    assert tour[..] == ReverseRange(before, lo, hi);
  }

  // ---------------------------------------------------------------------------
  // 2-opt
  // ---------------------------------------------------------------------------

  /**
   * d0 > d1 in two_opt's reverse_segment_if_better: for A, B, C, D =
   * tour[i], tour[(i + 1) % N], tour[j], tour[(j + 1) % N], the edges A-B and
   * C-D are longer together than A-C and B-D.
   */
  predicate TwoOptImproves(w: Weight, t: seq<int>, i: int, j: int)
    requires 0 <= i < j < |t|
  {
    var A, B, C, D := t[i], t[Succ(i, |t|)], t[j], t[Succ(j, |t|)];
    w(A, B) + w(C, D) > w(A, C) + w(B, D)
  }

  /** No pair i, j with j >= i + 2 that two_opt scans admits an improving reversal. */
  predicate TwoOptOptimal(w: Weight, t: seq<int>)
  {
    forall i, j :: 0 <= i && i + 2 <= j < |t| ==> !TwoOptImproves(w, t, i, j)
  }

  /**
   * The 2-opt move shortens the tour by exactly d0 - d1; for i = 0 and
   * j = N - 1 the city D is A again, d0 equals d1 and the move never fires.
   */
  lemma TwoOptMoveGain(cities: seq<Point>, t: seq<int>, i: nat, j: nat)
    requires i < j < |t|
    ensures
      var w := EdgeWeight(cities);
      var A, B, C, D := t[i], t[Succ(i, |t|)], t[j], t[Succ(j, |t|)];
      TotalDistance(ReverseRange(t, i + 1, j + 1), w)
        == TotalDistance(t, w) - ((w(A, B) + w(C, D)) - (w(A, C) + w(B, D)))
    ensures TwoOptImproves(EdgeWeight(cities), t, i, j) ==>
              TotalDistance(ReverseRange(t, i + 1, j + 1), EdgeWeight(cities)) < TotalDistance(t, EdgeWeight(cities))
    ensures i == 0 && j == |t| - 1 ==> !TwoOptImproves(EdgeWeight(cities), t, i, j)
  {
    EdgeWeightSymmetric(cities);
    ReversalDelta(t, EdgeWeight(cities), i, j);
    if i == 0 && j == |t| - 1 {
      var w := EdgeWeight(cities);
      var A, B, C := t[0], t[1], t[j];
      assert w(A, B) == w(B, A) && w(C, A) == w(A, C);
    }
  }

  /** two_opt's reverse_segment_if_better(tour, i, j). */
  method TryTwoOptMove(tour: array<int>, cities: seq<Point>, cache: DistanceCache, i: int, j: int)
    returns (fired: bool)
    requires cache.Valid()
    requires 0 <= i < j < tour.Length
    requires InRange(tour[..], |cities|)
    modifies tour, cache
    ensures cache.Valid() && Grows(old(cache.entries), cache.entries)
    ensures fired == TwoOptImproves(EdgeWeight(cities), old(tour[..]), i, j)
    ensures tour[..] == if fired then ReverseRange(old(tour[..]), i + 1, j + 1) else old(tour[..])
  {
    var n := tour.Length;
    var A, B, C, D := tour[i], tour[(i + 1) % n], tour[j], tour[(j + 1) % n];
    SuccIsMod(i, n);
    SuccIsMod(j, n);
    var ab := CityDistance(cache, cities, A, B);
    var cd := CityDistance(cache, cities, C, D);
    var ac := CityDistance(cache, cities, A, C);
    var bd := CityDistance(cache, cities, B, D);
    var d0 := ab + cd;
    var d1 := ac + bd;
    if d0 > d1 {
      ReverseSlice(tour, i + 1, j + 1);
      fired := true;
    } else {
      fired := false;
    }
  }

  /** What one call of reverse_segment_if_better keeps: the cities, and a tour no longer than before. */
  lemma TwoOptStep(cities: seq<Point>, t0: seq<int>, t1: seq<int>, i: nat, j: nat, fired: bool)
    requires i < j < |t0| && InRange(t0, |cities|)
    requires fired == TwoOptImproves(EdgeWeight(cities), t0, i, j)
    requires t1 == if fired then ReverseRange(t0, i + 1, j + 1) else t0
    ensures multiset(t1) == multiset(t0) && InRange(t1, |cities|)
    ensures fired ==> TotalDistance(t1, EdgeWeight(cities)) < TotalDistance(t0, EdgeWeight(cities))
    ensures !fired ==> t1 == t0
  {
    if fired {
      TwoOptMoveGain(cities, t0, i, j);
      ReverseRangeMultiset(t0, i + 1, j + 1);
      InRangeRearranged(t1, t0, |cities|);
    }
  }

  /**
   * The tour after two_opt's inner loop for row i has tried j' = i + 2 ..
   * j - 1 on t, each on the tour the earlier ones left.
   */
  function Sweep(w: Weight, t: seq<int>, i: nat, j: nat): (r: seq<int>)
    requires i + 2 <= j && (j <= |t| || j == i + 2)
    ensures |r| == |t|
    decreases j
  {
    if j == i + 2 then t
    else
      var prev := Sweep(w, t, i, j - 1);
      if TwoOptImproves(w, prev, i, j - 1) then ReverseRange(prev, i + 1, j) else prev
  }

  /** The tour after row i of a pass of two_opt, every j from i + 2 to N - 1 tried on t. */
  function Row(w: Weight, t: seq<int>, i: nat): (r: seq<int>)
    ensures |r| == |t|
  {
    Sweep(w, t, i, if i + 2 <= |t| then |t| else i + 2)
  }

  /** The tour after the rows 0 .. i - 1 of one pass of two_opt, starting from t. */
  function RowsTo(w: Weight, t: seq<int>, i: nat): (r: seq<int>)
    ensures |r| == |t|
    decreases i
  {
    if i == 0 then t else Row(w, RowsTo(w, t, i - 1), i - 1)
  }

  /** The tour after one full pass of two_opt's outer loop body over t. */
  function Pass(w: Weight, t: seq<int>): (r: seq<int>)
    ensures |r| == |t|
  {
    RowsTo(w, t, |t|)
  }

  /** The tour after p passes of two_opt, starting from t. */
  function Passes(w: Weight, t: seq<int>, p: nat): (r: seq<int>)
    ensures |r| == |t|
  {
    if p == 0 then t else Pass(w, Passes(w, t, p - 1))
  }

  /** Under w, every improving reversal two_opt can apply shortens the tour strictly. */
  ghost predicate MovesShorten(w: Weight)
  {
    forall s: seq<int>, i: int, j: int {:trigger TwoOptImproves(w, s, i, j)} ::
      0 <= i < j < |s| && TwoOptImproves(w, s, i, j) ==>
        TotalDistance(ReverseRange(s, i + 1, j + 1), w) < TotalDistance(s, w)
  }

  /** The squared distance is such a weight: TwoOptMoveGain for every tour and pair. */
  lemma EdgeWeightMovesShorten(cities: seq<Point>)
    ensures MovesShorten(EdgeWeight(cities))
  {
    forall s: seq<int>, i: int, j: int | 0 <= i < j < |s| && TwoOptImproves(EdgeWeight(cities), s, i, j)
      ensures TotalDistance(ReverseRange(s, i + 1, j + 1), EdgeWeight(cities)) < TotalDistance(s, EdgeWeight(cities))
    {
      TwoOptMoveGain(cities, s, i, j);
    }
  }

  /**
   * One iteration of row i's inner loop, on values: the tour the move at j
   * leaves extends the sweep and stays within range, and a move has fired
   * in the row so far exactly when the tour differs from the row's start.
   */
  lemma RowIteration(w: Weight, t0: seq<int>, before: seq<int>, after: seq<int>, i: nat, j: nat,
                     fired: bool, improved: bool, n: nat)
    requires MovesShorten(w)
    requires i + 2 <= j < |t0| && before == Sweep(w, t0, i, j) && InRange(before, n)
    requires fired == TwoOptImproves(w, before, i, j)
    requires after == if fired then ReverseRange(before, i + 1, j + 1) else before
    requires improved == (before != t0)
    ensures after == Sweep(w, t0, i, j + 1) && InRange(after, n)
    ensures (improved || fired) == (after != t0)
  {
    if fired {
      ReverseRangeMultiset(before, i + 1, j + 1);
      InRangeRearranged(after, before, n);
      SweepKeeps(w, t0, i, j);
      assert TotalDistance(after, w) < TotalDistance(t0, w);
    }
  }

  /**
   * What a row sweep does: it keeps the cities, never lengthens the tour
   * and, if it changes the tour at all, shortens it strictly.
   */
  lemma {:induction false} SweepKeeps(w: Weight, t: seq<int>, i: nat, j: nat)
    requires MovesShorten(w)
    requires i + 2 <= j && (j <= |t| || j == i + 2)
    ensures multiset(Sweep(w, t, i, j)) == multiset(t)
    ensures TotalDistance(Sweep(w, t, i, j), w) <= TotalDistance(t, w)
    ensures Sweep(w, t, i, j) != t ==> TotalDistance(Sweep(w, t, i, j), w) < TotalDistance(t, w)
    decreases j
  {
    if j > i + 2 {
      var prev := Sweep(w, t, i, j - 1);
      SweepKeeps(w, t, i, j - 1);
      if TwoOptImproves(w, prev, i, j - 1) {
        ReverseRangeMultiset(prev, i + 1, j);
      }
    }
  }

  /** No j' from i + 2 up to j admits an improving reversal for row i of t. */
  predicate RowIdleBelow(w: Weight, t: seq<int>, i: nat, j: nat)
  {
    forall j' :: i + 2 <= j' < j && j' < |t| ==> !TwoOptImproves(w, t, i, j')
  }

  /** A row with no improving reversal below j leaves the tour as it was. */
  lemma {:induction false} SweepStill(w: Weight, t: seq<int>, i: nat, j: nat)
    requires i + 2 <= j && (j <= |t| || j == i + 2)
    requires RowIdleBelow(w, t, i, j)
    ensures Sweep(w, t, i, j) == t
    decreases j
  {
    if j > i + 2 {
      SweepStill(w, t, i, j - 1);
      assert !TwoOptImproves(w, t, i, j - 1);
    }
  }

  /** A row with some improving reversal below j shortens the tour strictly. */
  lemma {:induction false} SweepMoves(w: Weight, t: seq<int>, i: nat, j: nat)
    requires MovesShorten(w)
    requires i + 2 <= j && (j <= |t| || j == i + 2)
    requires !RowIdleBelow(w, t, i, j)
    ensures TotalDistance(Sweep(w, t, i, j), w) < TotalDistance(t, w)
    decreases j
  {
    var prev := Sweep(w, t, i, j - 1);
    if RowIdleBelow(w, t, i, j - 1) {
      SweepStill(w, t, i, j - 1);
      assert TwoOptImproves(w, t, i, j - 1);
    } else {
      SweepMoves(w, t, i, j - 1);
    }
  }

  /** A row sweep up to j leaves the tour alone exactly when no j' below j admits an improving reversal. */
  lemma SweepIdle(w: Weight, t: seq<int>, i: nat, j: nat)
    requires MovesShorten(w)
    requires i + 2 <= j && (j <= |t| || j == i + 2)
    ensures Sweep(w, t, i, j) == t <==> RowIdleBelow(w, t, i, j)
  {
    if RowIdleBelow(w, t, i, j) {
      SweepStill(w, t, i, j);
    } else {
      SweepMoves(w, t, i, j);
    }
  }

  /**
   * Row i of a pass keeps the cities and never lengthens the tour; it leaves
   * the tour alone exactly when no j admits an improving reversal, and
   * otherwise shortens it strictly.
   */
  lemma RowKeeps(w: Weight, t: seq<int>, i: nat)
    requires MovesShorten(w)
    ensures multiset(Row(w, t, i)) == multiset(t)
    ensures TotalDistance(Row(w, t, i), w) <= TotalDistance(t, w)
    ensures Row(w, t, i) == t <==> RowIdleBelow(w, t, i, |t|)
    ensures Row(w, t, i) != t ==> TotalDistance(Row(w, t, i), w) < TotalDistance(t, w)
  {
    var e := if i + 2 <= |t| then |t| else i + 2;
    SweepKeeps(w, t, i, e);
    SweepIdle(w, t, i, e);
    assert RowIdleBelow(w, t, i, e) <==> RowIdleBelow(w, t, i, |t|);
  }

  /** The first i rows of a pass, as SweepKeeps says of one row. */
  lemma {:induction false} RowsKeeps(w: Weight, t: seq<int>, i: nat)
    requires MovesShorten(w)
    ensures multiset(RowsTo(w, t, i)) == multiset(t)
    ensures TotalDistance(RowsTo(w, t, i), w) <= TotalDistance(t, w)
    ensures RowsTo(w, t, i) != t ==> TotalDistance(RowsTo(w, t, i), w) < TotalDistance(t, w)
    decreases i
  {
    if i > 0 {
      var prev := RowsTo(w, t, i - 1);
      RowsKeeps(w, t, i - 1);
      SweepKeeps(w, prev, i - 1, if i + 1 <= |t| then |t| else i + 1);
    }
  }

  /** No pair of the first i rows of t admits an improving reversal. */
  predicate RowsIdleBelow(w: Weight, t: seq<int>, i: nat)
  {
    forall i', j' :: 0 <= i' < i && i' + 2 <= j' < |t| ==> !TwoOptImproves(w, t, i', j')
  }

  /** The pairs of the first i rows are those of the first i - 1 rows and those of row i - 1. */
  lemma RowsIdleSplit(w: Weight, t: seq<int>, i: nat)
    requires 0 < i
    ensures RowsIdleBelow(w, t, i) <==>
      RowsIdleBelow(w, t, i - 1) && RowIdleBelow(w, t, i - 1, if i + 1 <= |t| then |t| else i + 1)
  {
  }

  /** Rows with no improving reversal among their pairs leave the tour as it was. */
  lemma {:induction false} RowsStill(w: Weight, t: seq<int>, i: nat)
    requires RowsIdleBelow(w, t, i)
    ensures RowsTo(w, t, i) == t
    decreases i
  {
    if i > 0 {
      RowsIdleSplit(w, t, i);
      RowsStill(w, t, i - 1);
      SweepStill(w, t, i - 1, if i + 1 <= |t| then |t| else i + 1);
    }
  }

  /** Rows with some improving reversal among their pairs shorten the tour strictly. */
  lemma {:induction false} RowsMoves(w: Weight, t: seq<int>, i: nat)
    requires MovesShorten(w)
    requires !RowsIdleBelow(w, t, i)
    ensures TotalDistance(RowsTo(w, t, i), w) < TotalDistance(t, w)
    decreases i
  {
    var prev := RowsTo(w, t, i - 1);
    var e := if i + 1 <= |t| then |t| else i + 1;
    RowsIdleSplit(w, t, i);
    if RowsIdleBelow(w, t, i - 1) {
      RowsStill(w, t, i - 1);
      SweepMoves(w, t, i - 1, e);
    } else {
      RowsMoves(w, t, i - 1);
      SweepKeeps(w, prev, i - 1, e);
    }
  }

  /** The first i rows leave the tour alone exactly when none of their pairs admits an improving reversal. */
  lemma RowsIdle(w: Weight, t: seq<int>, i: nat)
    requires MovesShorten(w)
    ensures RowsTo(w, t, i) == t <==> RowsIdleBelow(w, t, i)
  {
    if RowsIdleBelow(w, t, i) {
      RowsStill(w, t, i);
    } else {
      RowsMoves(w, t, i);
    }
  }

  /**
   * A pass of two_opt keeps the cities and never lengthens the tour; it
   * applies no move, leaving the tour as it was, exactly when the tour is
   * 2-optimal, and otherwise it shortens it strictly.
   */
  lemma PassKeeps(w: Weight, t: seq<int>)
    requires MovesShorten(w)
    ensures multiset(Pass(w, t)) == multiset(t)
    ensures TotalDistance(Pass(w, t), w) <= TotalDistance(t, w)
    ensures Pass(w, t) == t <==> TwoOptOptimal(w, t)
    ensures Pass(w, t) != t ==> TotalDistance(Pass(w, t), w) < TotalDistance(t, w)
  {
    RowsKeeps(w, t, |t|);
    RowsIdle(w, t, |t|);
    assert RowsIdleBelow(w, t, |t|) <==> TwoOptOptimal(w, t);
  }

  /** Any number of passes keeps the cities and never lengthens the tour. */
  lemma {:induction false} PassesKeep(w: Weight, t: seq<int>, p: nat)
    requires MovesShorten(w)
    ensures multiset(Passes(w, t, p)) == multiset(t)
    ensures TotalDistance(Passes(w, t, p), w) <= TotalDistance(t, w)
  {
    if p > 0 {
      PassesKeep(w, t, p - 1);
      PassKeeps(w, Passes(w, t, p - 1));
    }
  }

  /** Pass p (counting from 0) of two_opt from t shortened the tour. */
  predicate PassShortens(w: Weight, t: seq<int>, p: nat)
  {
    TotalDistance(Passes(w, t, p + 1), w) < TotalDistance(Passes(w, t, p), w)
  }

  /** p passes that each shortened the tour leave it strictly shorter than it started. */
  lemma {:induction false} PassesShorten(w: Weight, t: seq<int>, p: nat)
    requires 0 < p
    requires forall q :: 0 <= q < p ==> PassShortens(w, t, q)
    ensures TotalDistance(Passes(w, t, p), w) < TotalDistance(t, w)
  {
    if p > 1 {
      PassesShorten(w, t, p - 1);
    }
    assert PassShortens(w, t, p - 1);
  }

  /**
   * One pass of two_opt's inner loop: for the fixed i, every j from i + 2 to
   * N - 1 in turn. improved says whether some move fired: then the tour is
   * strictly shorter; when none did, the tour is as it was and no j admits an
   * improving reversal.
   */
  method TwoOptRow(tour: array<int>, cities: seq<Point>, cache: DistanceCache, i: nat)
    returns (improved: bool)
    requires cache.Valid()
    requires InRange(tour[..], |cities|)
    modifies tour, cache
    ensures cache.Valid() && Grows(old(cache.entries), cache.entries)
    ensures multiset(tour[..]) == multiset(old(tour[..])) && InRange(tour[..], |cities|)
    ensures TotalDistance(tour[..], EdgeWeight(cities)) <= TotalDistance(old(tour[..]), EdgeWeight(cities))
    ensures improved ==> TotalDistance(tour[..], EdgeWeight(cities)) < TotalDistance(old(tour[..]), EdgeWeight(cities))
    ensures !improved ==> tour[..] == old(tour[..])
    ensures !improved ==> forall j :: i + 2 <= j < tour.Length ==> !TwoOptImproves(EdgeWeight(cities), tour[..], i, j)
    ensures tour[..] == Row(EdgeWeight(cities), old(tour[..]), i)
  {
    var n := tour.Length;
    ghost var w := EdgeWeight(cities);
    ghost var t0 := tour[..];
    ghost var e0 := cache.entries;
    EdgeWeightMovesShorten(cities);
    improved := false;
    var j := i + 2;
    while j < n
      invariant i + 2 <= j && (j <= n || j == i + 2)
      invariant cache.Valid() && Grows(e0, cache.entries)
      invariant InRange(tour[..], |cities|)
      invariant improved == (tour[..] != t0)
      invariant tour[..] == Sweep(w, t0, i, j)
      decreases n - j
    {
      ghost var before := tour[..];
      var fired := TryTwoOptMove(tour, cities, cache, i, j);
      RowIteration(w, t0, before, tour[..], i, j, fired, improved, |cities|);
      improved := improved || fired;
      j := j + 1;
    }
    RowKeeps(w, t0, i);
  }

  /**
   * The body of two_opt's while loop: one pass over every i, with row i
   * tried on the tour the earlier rows left. improved says whether a move
   * fired, which is exactly when the tour changed.
   */
  method TwoOptPass(tour: array<int>, cities: seq<Point>, cache: DistanceCache) returns (improved: bool)
    requires cache.Valid()
    requires InRange(tour[..], |cities|)
    modifies tour, cache
    ensures cache.Valid() && Grows(old(cache.entries), cache.entries)
    ensures InRange(tour[..], |cities|)
    ensures tour[..] == Pass(EdgeWeight(cities), old(tour[..]))
    ensures improved <==> tour[..] != old(tour[..])
  {
    var n := tour.Length;
    ghost var w := EdgeWeight(cities);
    ghost var start := tour[..];
    ghost var e0 := cache.entries;
    improved := false;
    for i := 0 to n
      invariant cache.Valid() && Grows(e0, cache.entries)
      invariant InRange(tour[..], |cities|)
      invariant improved ==> TotalDistance(tour[..], w) < TotalDistance(start, w)
      invariant !improved ==> tour[..] == start
      invariant tour[..] == RowsTo(w, start, i)
    {
      var rowImproved := TwoOptRow(tour, cities, cache, i);
      improved := improved || rowImproved;
    }
  }

  /**
   * two_opt(tour, cities): passes over all pairs i, j >= i + 2, applying each
   * improving reversal at once, until a pass applies none. The source loops
   * without bound; here at most maxPasses passes run, and converged says
   * whether the last one applied no move. Every pass before it shortened the
   * tour strictly.
   */
  method TwoOpt(tour: array<int>, cities: seq<Point>, cache: DistanceCache, maxPasses: nat)
    returns (converged: bool, passes: nat)
    requires cache.Valid()
    requires InRange(tour[..], |cities|)
    modifies tour, cache
    ensures cache.Valid() && Grows(old(cache.entries), cache.entries)
    ensures multiset(tour[..]) == multiset(old(tour[..]))
    ensures InRange(tour[..], |cities|)
    ensures TotalDistance(tour[..], EdgeWeight(cities)) <= TotalDistance(old(tour[..]), EdgeWeight(cities))
    ensures converged ==> TwoOptOptimal(EdgeWeight(cities), tour[..])
    ensures passes <= maxPasses && (converged ==> 1 <= passes)
    ensures !converged ==> passes == maxPasses
    ensures !converged && maxPasses > 0 ==>
      TotalDistance(tour[..], EdgeWeight(cities)) < TotalDistance(old(tour[..]), EdgeWeight(cities))
    ensures tour[..] == Passes(EdgeWeight(cities), old(tour[..]), passes)
    ensures converged ==> Pass(EdgeWeight(cities), tour[..]) == tour[..]
    ensures forall p :: 0 <= p < passes && !(converged && p == passes - 1) ==>
      PassShortens(EdgeWeight(cities), old(tour[..]), p)
  {
    ghost var w := EdgeWeight(cities);
    ghost var t0 := tour[..];
    ghost var e0 := cache.entries;
    EdgeWeightMovesShorten(cities);
    converged := false;
    passes := 0;
    while !converged && passes < maxPasses
      invariant cache.Valid() && Grows(e0, cache.entries)
      invariant InRange(tour[..], |cities|)
      invariant passes <= maxPasses && (converged ==> 1 <= passes)
      invariant tour[..] == Passes(w, t0, passes)
      invariant converged ==> Pass(w, tour[..]) == tour[..]
      invariant forall p :: 0 <= p < passes && !(converged && p == passes - 1) ==> PassShortens(w, t0, p)
      decreases maxPasses - passes
    {
      ghost var start := tour[..];
      var improved := TwoOptPass(tour, cities, cache);
      PassKeeps(w, start);
      passes := passes + 1;
      converged := !improved;
    }
    PassesKeep(w, t0, passes);
    PassKeeps(w, tour[..]);
    if !converged && maxPasses > 0 {
      PassesShorten(w, t0, passes);
    }
  }

  // ---------------------------------------------------------------------------
  // 3-opt
  // ---------------------------------------------------------------------------

  /** The reconnections three_opt's reverse_segment_if_better tries, in its order. */
  datatype Reconnection =
    | NoMove            // none of d1 .. d5 is below d0
    | ReverseFirst      // d0 > d1: reverse i+1 .. j
    | ReverseSecond     // d0 > d2: reverse j+1 .. k
    | ReverseSpan       // d0 > d3: reverse i+1 .. k
    | ReverseBoth       // d0 > d4: reverse i+1 .. j and j+1 .. k
    | ReverseSpanAgain  // d0 > d5: reverse i+1 .. k, the same move as for d3

  /** The six sums d0 .. d5 that three_opt prices. */
  datatype Costs = Costs(d0: real, d1: real, d2: real, d3: real, d4: real, d5: real)

  /**
   * The sums for a, b, c, d, e, f = t[i], t[i+1], t[j], t[j+1], t[k], t[(k+1) % N].
   * d0 prices the three edges the tour has after positions i, j and k; d1
   * trades the first two of them for a-c, b-d, d2 the last two for c-e, d-f.
   */
  function PricedCosts(w: Weight, t: seq<int>, i: int, j: int, k: int): (r: Costs)
    requires 0 <= i < j < k < |t|
    ensures r.d0 == w(t[i], t[Succ(i, |t|)]) + w(t[j], t[Succ(j, |t|)]) + w(t[k], t[Succ(k, |t|)])
    ensures r.d1 == r.d0 - w(t[i], t[i + 1]) - w(t[j], t[j + 1]) + w(t[i], t[j]) + w(t[i + 1], t[j + 1])
    ensures r.d2 == r.d0 - w(t[j], t[j + 1]) - w(t[k], t[Succ(k, |t|)]) + w(t[j], t[k]) + w(t[j + 1], t[Succ(k, |t|)])
  {
    var a, b, c, d, e, f := t[i], t[i + 1], t[j], t[j + 1], t[k], t[Succ(k, |t|)];
    Costs(w(a, b) + w(c, d) + w(e, f),
          w(a, c) + w(b, d) + w(e, f),
          w(a, b) + w(c, e) + w(d, f),
          w(a, d) + w(e, b) + w(c, f),
          w(a, c) + w(d, e) + w(b, f),
          w(a, d) + w(e, c) + w(b, f))
  }

  /** The first reconnection, in the source's order, priced below d0. */
  function ThreeOptChoice(w: Weight, t: seq<int>, i: int, j: int, k: int): Reconnection
    requires 0 <= i < j < k < |t|
  {
    Choose(PricedCosts(w, t, i, j, k))
  }

  /** The sum three_opt prices reconnection r at: d1 .. d5, and d0 for leaving the tour. */
  function Price(c: Costs, r: Reconnection): real
  {
    match r
    case NoMove => c.d0
    case ReverseFirst => c.d1
    case ReverseSecond => c.d2
    case ReverseSpan => c.d3
    case ReverseBoth => c.d4
    case ReverseSpanAgain => c.d5
  }

  /** The place of reconnection r in the if/elif chain; leaving the tour comes last. */
  function Rank(r: Reconnection): nat
  {
    match r
    case ReverseFirst => 1
    case ReverseSecond => 2
    case ReverseSpan => 3
    case ReverseBoth => 4
    case ReverseSpanAgain => 5
    case NoMove => 6
  }

  /**
   * The if/elif chain of reverse_segment_if_better on the six sums: the first
   * reconnection, in the source's order, priced strictly below d0, and no move
   * exactly when none is.
   */
  function Choose(c: Costs): (r: Reconnection)
    ensures r == NoMove <==> forall q :: q != NoMove ==> c.d0 <= Price(c, q)
    ensures r != NoMove ==> c.d0 > Price(c, r)
    ensures forall q :: q != NoMove && Rank(q) < Rank(r) ==> c.d0 <= Price(c, q)
  {
    if c.d0 > c.d1 then ReverseFirst
    else if c.d0 > c.d2 then ReverseSecond
    else if c.d0 > c.d3 then ReverseSpan
    else if c.d0 > c.d4 then ReverseBoth
    else if c.d0 > c.d5 then ReverseSpanAgain
    else NoMove
  }

  /** The tour after the slice reversals of reconnection r. */
  function Reconnect(t: seq<int>, i: int, j: int, k: int, r: Reconnection): (u: seq<int>)
    requires 0 <= i < j < k < |t|
    ensures |u| == |t|
  {
    match r
    case NoMove => t
    case ReverseFirst => ReverseRange(t, i + 1, j + 1)
    case ReverseSecond => ReverseRange(t, j + 1, k + 1)
    case ReverseSpan => ReverseRange(t, i + 1, k + 1)
    case ReverseBoth => ReverseBothSegments(t, i, j, k)
    case ReverseSpanAgain => ReverseRange(t, i + 1, k + 1)
  }

  /** Positions i+1 .. j and j+1 .. k each read back to front, everything else in place. */
  function ReverseBothSegments(t: seq<int>, i: int, j: int, k: int): (u: seq<int>)
    requires 0 <= i < j < k < |t|
    ensures |u| == |t|
  {
    seq(|t|, m requires 0 <= m < |t| =>
      if i < m <= j then t[i + 1 + j - m] else if j < m <= k then t[j + 1 + k - m] else t[m])
  }

  /** The two slice reversals, one after the other, give ReverseBothSegments. */
  lemma ReverseBothComposes(t: seq<int>, i: int, j: int, k: int)
    requires 0 <= i < j < k < |t|
    ensures ReverseBothSegments(t, i, j, k) == ReverseRange(ReverseRange(t, i + 1, j + 1), j + 1, k + 1)
  {
  }

  /** A reversal inside positions i+1 .. k keeps the multiset and every position outside. */
  lemma RangePermutes(t: seq<int>, lo: nat, hi: nat, i: int, k: int)
    requires 0 <= i < lo <= hi <= k + 1 <= |t|
    ensures |ReverseRange(t, lo, hi)| == |t|
    ensures multiset(ReverseRange(t, lo, hi)) == multiset(t)
    ensures forall m :: 0 <= m < |t| && (m <= i || k < m) ==> ReverseRange(t, lo, hi)[m] == t[m]
  {
    ReverseRangeMultiset(t, lo, hi);
  }

  lemma BothPermutes(t: seq<int>, i: int, j: int, k: int)
    requires 0 <= i < j < k < |t|
    ensures |ReverseBothSegments(t, i, j, k)| == |t|
    ensures multiset(ReverseBothSegments(t, i, j, k)) == multiset(t)
    ensures forall m :: 0 <= m < |t| && (m <= i || k < m) ==> ReverseBothSegments(t, i, j, k)[m] == t[m]
  {
    ReverseBothComposes(t, i, j, k);
    ReverseRangeMultiset(t, i + 1, j + 1);
    ReverseRangeMultiset(ReverseRange(t, i + 1, j + 1), j + 1, k + 1);
  }

  /** Every reconnection rearranges only positions i+1 .. k and keeps the multiset of cities. */
  lemma ReconnectPermutes(t: seq<int>, i: int, j: int, k: int, r: Reconnection)
    requires 0 <= i < j < k < |t|
    ensures |Reconnect(t, i, j, k, r)| == |t|
    ensures multiset(Reconnect(t, i, j, k, r)) == multiset(t)
    ensures forall m :: 0 <= m < |t| && (m <= i || k < m) ==> Reconnect(t, i, j, k, r)[m] == t[m]
  {
    if r == ReverseBoth {
      BothPermutes(t, i, j, k);
    } else if r != NoMove {
      var lo, hi := if r == ReverseSecond then j + 1 else i + 1, if r == ReverseFirst then j + 1 else k + 1;
      assert Reconnect(t, i, j, k, r) == ReverseRange(t, lo, hi);
      RangePermutes(t, lo, hi, i, k);
    }
  }

  /** The d1 branch lowers the tour length by exactly d0 - d1. */
  lemma ThreeOptFirstGain(cities: seq<Point>, t: seq<int>, i: int, j: int, k: int)
    requires 0 <= i < j < k < |t|
    ensures
      var w := EdgeWeight(cities);
      var c := PricedCosts(w, t, i, j, k);
      TotalDistance(Reconnect(t, i, j, k, ReverseFirst), w) == TotalDistance(t, w) - (c.d0 - c.d1)
  {
    EdgeWeightSymmetric(cities);
    ReversalDelta(t, EdgeWeight(cities), i, j);
  }

  /** The d2 branch lowers the tour length by exactly d0 - d2. */
  lemma ThreeOptSecondGain(cities: seq<Point>, t: seq<int>, i: int, j: int, k: int)
    requires 0 <= i < j < k < |t|
    ensures
      var w := EdgeWeight(cities);
      var c := PricedCosts(w, t, i, j, k);
      TotalDistance(Reconnect(t, i, j, k, ReverseSecond), w) == TotalDistance(t, w) - (c.d0 - c.d2)
  {
    EdgeWeightSymmetric(cities);
    ReversalDelta(t, EdgeWeight(cities), j, k);
  }

  /**
   * The d3 and d5 branches reverse i+1 .. k, which makes the edges a-e and
   * b-f, not the a-d, e-b, c-f or a-d, e-c, b-f they were priced by.
   */
  lemma ThreeOptSpanChange(cities: seq<Point>, t: seq<int>, i: int, j: int, k: int)
    requires 0 <= i < j < k < |t|
    ensures
      var w := EdgeWeight(cities);
      var a, b, e, f := t[i], t[i + 1], t[k], t[Succ(k, |t|)];
      && TotalDistance(Reconnect(t, i, j, k, ReverseSpan), w)
           == TotalDistance(t, w) - (w(a, b) + w(e, f)) + (w(a, e) + w(b, f))
      && Reconnect(t, i, j, k, ReverseSpanAgain) == Reconnect(t, i, j, k, ReverseSpan)
  {
    EdgeWeightSymmetric(cities);
    ReversalDelta(t, EdgeWeight(cities), i, k);
  }

  /**
   * The d4 branch reverses both segments, which makes the edges a-c, b-e and
   * d-f, not the a-c, d-e, b-f it was priced by.
   */
  lemma ThreeOptBothChange(cities: seq<Point>, t: seq<int>, i: int, j: int, k: int)
    requires 0 <= i < j < k < |t|
    ensures
      var w := EdgeWeight(cities);
      var a, b, c, d, e, f := t[i], t[i + 1], t[j], t[j + 1], t[k], t[Succ(k, |t|)];
      TotalDistance(Reconnect(t, i, j, k, ReverseBoth), w)
        == TotalDistance(t, w) - (w(a, b) + w(c, d) + w(e, f)) + (w(a, c) + w(b, e) + w(d, f))
  {
    var w := EdgeWeight(cities);
    EdgeWeightSymmetric(cities);
    var t1 := ReverseRange(t, i + 1, j + 1);
    ReverseBothComposes(t, i, j, k);
    ReversalDelta(t, w, i, j);
    ReversalDelta(t1, w, j, k);
    assert t1[j] == t[i + 1] && t1[j + 1] == t[j + 1] && t1[k] == t[k];
    assert t1[Succ(k, |t|)] == t[Succ(k, |t|)];
  }

  /** The two branches priced by the edges they really make, d1 and d2, only ever shorten the tour. */
  lemma ThreeOptPricedBranchesShorten(cities: seq<Point>, t: seq<int>, i: int, j: int, k: int)
    requires 0 <= i < j < k < |t|
    requires ThreeOptChoice(EdgeWeight(cities), t, i, j, k) in {ReverseFirst, ReverseSecond}
    ensures
      var w := EdgeWeight(cities);
      TotalDistance(Reconnect(t, i, j, k, ThreeOptChoice(w, t, i, j, k)), w) < TotalDistance(t, w)
  {
    ThreeOptFirstGain(cities, t, i, j, k);
    ThreeOptSecondGain(cities, t, i, j, k);
  }

  /** The sum of three cached distances, one line d0 .. d5 of three_opt's helper. */
  method ThreeEdges(cache: DistanceCache, cities: seq<Point>, x1: int, y1: int, x2: int, y2: int, x3: int, y3: int)
    returns (s: real)
    requires cache.Valid()
    requires 0 <= x1 < |cities| && 0 <= y1 < |cities|
    requires 0 <= x2 < |cities| && 0 <= y2 < |cities|
    requires 0 <= x3 < |cities| && 0 <= y3 < |cities|
    modifies cache
    ensures cache.Valid() && Grows(old(cache.entries), cache.entries)
    ensures s == EdgeWeight(cities)(x1, y1) + EdgeWeight(cities)(x2, y2) + EdgeWeight(cities)(x3, y3)
  {
    var s1 := CityDistance(cache, cities, x1, y1);
    var s2 := CityDistance(cache, cities, x2, y2);
    var s3 := CityDistance(cache, cities, x3, y3);
    s := s1 + s2 + s3;
  }

  /** The six sums d0 .. d5 of three_opt's reverse_segment_if_better, each distance from the cache. */
  method PriceThreeOpt(tour: array<int>, cities: seq<Point>, cache: DistanceCache, i: int, j: int, k: int)
    returns (costs: Costs)
    requires cache.Valid()
    requires 0 <= i < j < k < tour.Length
    requires InRange(tour[..], |cities|)
    modifies cache
    ensures cache.Valid() && Grows(old(cache.entries), cache.entries)
    ensures costs == PricedCosts(EdgeWeight(cities), tour[..], i, j, k)
  {
    var n := tour.Length;
    var a, b, c, d, e, f := tour[i], tour[i + 1], tour[j], tour[j + 1], tour[k], tour[(k + 1) % n];
    SuccIsMod(k, n);
    var d0 := ThreeEdges(cache, cities, a, b, c, d, e, f);
    var d1 := ThreeEdges(cache, cities, a, c, b, d, e, f);
    var d2 := ThreeEdges(cache, cities, a, b, c, e, d, f);
    var d3 := ThreeEdges(cache, cities, a, d, e, b, c, f);
    var d4 := ThreeEdges(cache, cities, a, c, d, e, b, f);
    var d5 := ThreeEdges(cache, cities, a, d, e, c, b, f);
    costs := Costs(d0, d1, d2, d3, d4, d5);
  }

  /**
   * The tuple assignment `tour[i+1:j+1], tour[j+1:k+1] = reversed(...),
   * reversed(...)`: both right-hand slices are taken before either is
   * written back, so both are copied first (ReverseBothComposes shows that
   * this is the two reversals one after the other).
   */
  method ReverseBothSlices(tour: array<int>, i: int, j: int, k: int)
    requires 0 <= i < j < k < tour.Length
    modifies tour
    ensures tour[..] == ReverseBothSegments(old(tour[..]), i, j, k)
  {
    ghost var before := tour[..];
    var first, second := tour[i + 1..j + 1], tour[j + 1..k + 1];
    forall m | i < m <= j {
      tour[m] := first[j - m];
    }
    assert forall m :: 0 <= m < tour.Length ==> tour[m] == if i < m <= j then before[i + 1 + j - m] else before[m];
    forall m | j < m <= k {
      tour[m] := second[k - m];
    }
    ghost var u := ReverseBothSegments(before, i, j, k);
    assert forall m :: 0 <= m < tour.Length ==> tour[m] == u[m];
    assert tour[..] == u;
  }

  /** The slice reversals of reconnection r, done on the list itself. */
  method ApplyReconnection(tour: array<int>, i: int, j: int, k: int, r: Reconnection)
    requires 0 <= i < j < k < tour.Length
    modifies tour
    ensures tour[..] == Reconnect(old(tour[..]), i, j, k, r)
  {
    ghost var before := tour[..];
    match r
    case NoMove =>
    case ReverseFirst =>
      ReverseSlice(tour, i + 1, j + 1);
      assert tour[..] == Reconnect(before, i, j, k, r);
    case ReverseSecond =>
      ReverseSlice(tour, j + 1, k + 1);
      assert tour[..] == Reconnect(before, i, j, k, r);
    case ReverseSpan =>
      ReverseSlice(tour, i + 1, k + 1);
      assert tour[..] == Reconnect(before, i, j, k, r);
    case ReverseBoth =>
      ReverseBothSlices(tour, i, j, k);
    case ReverseSpanAgain =>
      ReverseSlice(tour, i + 1, k + 1);
      assert tour[..] == Reconnect(before, i, j, k, r);
  }

  /** three_opt's reverse_segment_if_better(tour, i, j, k). */
  method TryThreeOptMove(tour: array<int>, cities: seq<Point>, cache: DistanceCache, i: int, j: int, k: int)
    returns (fired: bool)
    requires cache.Valid()
    requires 0 <= i < j < k < tour.Length
    requires InRange(tour[..], |cities|)
    modifies tour, cache
    ensures cache.Valid() && Grows(old(cache.entries), cache.entries)
    ensures fired == (ThreeOptChoice(EdgeWeight(cities), old(tour[..]), i, j, k) != NoMove)
    ensures tour[..] == Reconnect(old(tour[..]), i, j, k, ThreeOptChoice(EdgeWeight(cities), old(tour[..]), i, j, k))
    ensures multiset(tour[..]) == multiset(old(tour[..])) && InRange(tour[..], |cities|)
  {
    ghost var t0 := tour[..];
    var c := PriceThreeOpt(tour, cities, cache, i, j, k);
    var r := Choose(c);
    ApplyReconnection(tour, i, j, k, r);
    fired := r != NoMove;
    ReconnectPermutes(t0, i, j, k, r);
    InRangeRearranged(tour[..], t0, |cities|);
  }

  /** A draw of sorted(random.sample(range(N), 3)). */
  datatype Triple = Triple(i: int, j: int, k: int)

  predicate TripleFits(s: Triple, n: nat)
  {
    0 <= s.i < s.j < s.k < n
  }

  /** Triple s names three positions of t whose move three_opt rejects. */
  predicate Rejected(w: Weight, t: seq<int>, s: Triple)
  {
    TripleFits(s, |t|) && ThreeOptChoice(w, t, s.i, s.j, s.k) == NoMove
  }

  /** Why three_opt stopped. */
  datatype ThreeOptEnd =
    | BudgetSpent       // attempts reached num_attempts: the source's only exit
    | SamplesExhausted  // the supplied triples ran out first
    | TooFewCities      // random.sample(range(N), 3) raises for N < 3

  /**
   * three_opt's attempts counter after the attempts recorded in accepted:
   * the length of the run of rejections at the end, so every one of the last
   * r attempts was rejected and the one before them, if any, was accepted.
   */
  function TrailingRejections(accepted: seq<bool>): (r: nat)
    ensures r <= |accepted|
    ensures forall m :: |accepted| - r <= m < |accepted| ==> !accepted[m]
    ensures r < |accepted| ==> accepted[|accepted| - 1 - r]
    decreases |accepted|
  {
    if accepted == [] || accepted[|accepted| - 1] then 0
    else
      var front := accepted[..|accepted| - 1];
      assert forall m :: 0 <= m < |front| ==> front[m] == accepted[m];
      TrailingRejections(front) + 1
  }

  /** One more attempt: an accepted one resets the count of trailing rejections, a rejected one adds to it. */
  lemma TrailingStep(acc: seq<bool>, fired: bool)
    ensures TrailingRejections(acc + [fired]) == if fired then 0 else TrailingRejections(acc) + 1
  {
    assert (acc + [fired])[..|acc|] == acc;
  }

  /**
   * The counter never reached num_attempts before an attempt: if it was
   * below the budget before each of the attempts in acc, and before the next
   * one, it was below it before each attempt of acc + [fired].
   */
  lemma BudgetKept(acc: seq<bool>, fired: bool, numAttempts: nat)
    requires forall u :: 0 <= u < |acc| ==> TrailingRejections(acc[..u]) < numAttempts
    requires TrailingRejections(acc) < numAttempts
    ensures forall u :: 0 <= u < |acc| + 1 ==> TrailingRejections((acc + [fired])[..u]) < numAttempts
  {
    forall u | 0 <= u < |acc| + 1
      ensures TrailingRejections((acc + [fired])[..u]) < numAttempts
    {
      if u == |acc| {
        assert (acc + [fired])[..u] == acc;
      } else {
        assert (acc + [fired])[..u] == acc[..u];
      }
    }
  }

  /** The tour after one call of reverse_segment_if_better on triple s. */
  function Attempt(w: Weight, t: seq<int>, s: Triple): (r: seq<int>)
    requires TripleFits(s, |t|)
    ensures |r| == |t| && multiset(r) == multiset(t)
  {
    var choice := ThreeOptChoice(w, t, s.i, s.j, s.k);
    ReconnectPermutes(t, s.i, s.j, s.k, choice);
    Reconnect(t, s.i, s.j, s.k, choice)
  }

  /** Every triple of ss names three positions of a tour of n cities. */
  predicate TriplesFit(ss: seq<Triple>, n: nat)
  {
    forall m :: 0 <= m < |ss| ==> TripleFits(ss[m], n)
  }

  /** The tour after the attempts on the triples of ss, one after the other, starting from t. */
  function Run(w: Weight, t: seq<int>, ss: seq<Triple>): (r: seq<int>)
    requires TriplesFit(ss, |t|)
    ensures |r| == |t|
    decreases |ss|
  {
    if ss == [] then t
    else Attempt(w, Run(w, t, ss[..|ss| - 1]), ss[|ss| - 1])
  }

  /** Per triple of ss, whether its attempt moved the tour reached by the earlier ones. */
  function Fired(w: Weight, t: seq<int>, ss: seq<Triple>): (r: seq<bool>)
    requires TriplesFit(ss, |t|)
    ensures |r| == |ss|
    decreases |ss|
  {
    if ss == [] then []
    else
      var last := ss[|ss| - 1];
      var before := Run(w, t, ss[..|ss| - 1]);
      Fired(w, t, ss[..|ss| - 1]) + [ThreeOptChoice(w, before, last.i, last.j, last.k) != NoMove]
  }

  /** The attempts only ever rearrange the cities of the tour. */
  lemma {:induction false} RunPermutes(w: Weight, t: seq<int>, ss: seq<Triple>)
    requires TriplesFit(ss, |t|)
    ensures multiset(Run(w, t, ss)) == multiset(t)
    decreases |ss|
  {
    if ss != [] {
      RunPermutes(w, t, ss[..|ss| - 1]);
    }
  }

  /**
   * A rejected attempt leaves the tour as it was: a run ending in a
   * rejection ends where the run before it did, and that tour still rejects
   * the last triple.
   */
  lemma RunRejected(w: Weight, t: seq<int>, ss: seq<Triple>)
    requires TriplesFit(ss, |t|) && ss != []
    requires !Fired(w, t, ss)[|ss| - 1]
    ensures Run(w, t, ss) == Run(w, t, ss[..|ss| - 1])
    ensures Rejected(w, Run(w, t, ss), ss[|ss| - 1])
  {
  }

  /** The flags of a run, without the last one, are the flags of the run without the last triple. */
  lemma FiredPrefix(w: Weight, t: seq<int>, ss: seq<Triple>)
    requires TriplesFit(ss, |t|) && ss != []
    ensures TriplesFit(ss[..|ss| - 1], |t|)
    ensures Fired(w, t, ss)[..|ss| - 1] == Fired(w, t, ss[..|ss| - 1])
  {
  }

  /** Extending the consumed prefix of the triples by one attempt. */
  lemma RunStep(w: Weight, t: seq<int>, ss: seq<Triple>, u: nat)
    requires TriplesFit(ss, |t|) && u < |ss|
    ensures TriplesFit(ss[..u], |t|) && TriplesFit(ss[..u + 1], |t|)
    ensures Run(w, t, ss[..u + 1]) == Attempt(w, Run(w, t, ss[..u]), ss[u])
  {
    PrefixFits(ss, |t|, u);
    PrefixFits(ss, |t|, u + 1);
    var prefix := ss[..u + 1];
    assert prefix[..|prefix| - 1] == ss[..u] && prefix[|prefix| - 1] == ss[u];
  }

  /** Every prefix of fitting triples fits. */
  lemma PrefixFits(ss: seq<Triple>, n: nat, u: nat)
    requires TriplesFit(ss, n) && u <= |ss|
    ensures TriplesFit(ss[..u], n)
  {
    forall m | 0 <= m < u
      ensures TripleFits(ss[..u][m], n)
    {
      assert ss[..u][m] == ss[m];
    }
  }

  /** The flag of one more attempt is appended to the record of the earlier ones. */
  lemma FiredStep(w: Weight, t: seq<int>, ss: seq<Triple>, u: nat)
    requires TriplesFit(ss, |t|) && u < |ss|
    requires TriplesFit(ss[..u], |t|) && TriplesFit(ss[..u + 1], |t|)
    ensures Fired(w, t, ss[..u + 1]) ==
      Fired(w, t, ss[..u]) + [ThreeOptChoice(w, Run(w, t, ss[..u]), ss[u].i, ss[u].j, ss[u].k) != NoMove]
  {
    var prefix := ss[..u + 1];
    assert prefix[..|prefix| - 1] == ss[..u];
    assert prefix[|prefix| - 1] == ss[u];
  }

  /**
   * After the first u triples, every triple in the trailing window of
   * rejections that three_opt counts is still rejected by the tour reached.
   */
  lemma {:induction false} TrailRejected(w: Weight, t: seq<int>, ss: seq<Triple>, u: nat)
    requires u <= |ss| && TriplesFit(ss, |t|) && TriplesFit(ss[..u], |t|)
    ensures forall m :: u - TrailingRejections(Fired(w, t, ss[..u])) <= m < u ==>
      Rejected(w, Run(w, t, ss[..u]), ss[m])
    decreases u
  {
    if u > 0 {
      var p := ss[..u];
      assert p[..u - 1] == ss[..u - 1] && p[u - 1] == ss[u - 1];
      FiredPrefix(w, t, p);
      TrailRejected(w, t, ss, u - 1);
      var acc := Fired(w, t, p);
      if !acc[u - 1] {
        RunRejected(w, t, p);
        assert TrailingRejections(acc) == TrailingRejections(acc[..u - 1]) + 1;
        forall m | u - TrailingRejections(acc) <= m < u
          ensures Rejected(w, Run(w, t, p), ss[m])
        {
          if m == u - 1 {
            assert ss[m] == p[|p| - 1];
          }
        }
      }
    }
  }

  /**
   * One iteration of three_opt's loop: the attempt on samples[used] extends
   * the run, the record of accepted moves and the trailing rejections.
   */
  lemma ThreeOptStep(w: Weight, t0: seq<int>, before: seq<int>, after: seq<int>, samples: seq<Triple>,
                     used: nat, attempts: nat, acc: seq<bool>, fired: bool)
    requires TriplesFit(samples, |t0|) && attempts <= used < |samples|
    requires TriplesFit(samples[..used], |t0|)
    requires before == Run(w, t0, samples[..used])
    requires acc == Fired(w, t0, samples[..used]) && attempts == TrailingRejections(acc)
    requires fired == (ThreeOptChoice(w, before, samples[used].i, samples[used].j, samples[used].k) != NoMove)
    requires after == Reconnect(before, samples[used].i, samples[used].j, samples[used].k,
                                ThreeOptChoice(w, before, samples[used].i, samples[used].j, samples[used].k))
    ensures TriplesFit(samples[..used + 1], |t0|)
    ensures after == Run(w, t0, samples[..used + 1])
    ensures acc + [fired] == Fired(w, t0, samples[..used + 1])
    ensures (if fired then 0 else attempts + 1) == TrailingRejections(acc + [fired])
  {
    RunStep(w, t0, samples, used);
    FiredStep(w, t0, samples, used);
    TrailingStep(acc, fired);
  }

  /**
   * three_opt(tour, cities, num_attempts): try the move on sampled triples,
   * resetting the attempt counter on every accepted move and counting every
   * rejected one, until num_attempts consecutive rejections. The triples come
   * from samples, one per attempt; `used` of them are consumed. `accepted`
   * records, per consumed triple, whether its move fired.
   */
  method ThreeOpt(tour: array<int>, cities: seq<Point>, cache: DistanceCache, numAttempts: nat, samples: seq<Triple>)
    returns (end: ThreeOptEnd, attempts: nat, used: nat, ghost accepted: seq<bool>)
    requires cache.Valid()
    requires InRange(tour[..], |cities|)
    requires forall m :: 0 <= m < |samples| ==> TripleFits(samples[m], tour.Length)
    modifies tour, cache
    ensures cache.Valid() && Grows(old(cache.entries), cache.entries)
    ensures multiset(tour[..]) == multiset(old(tour[..]))
    ensures InRange(tour[..], |cities|)
    ensures end == TooFewCities <==> tour.Length < 3 && numAttempts > 0
    ensures end == TooFewCities ==> tour[..] == old(tour[..]) && used == 0
    ensures attempts <= numAttempts && attempts <= used <= |samples|
    ensures end == BudgetSpent <==> attempts == numAttempts
    ensures end == SamplesExhausted ==> used == |samples|
    ensures |accepted| == used && attempts == TrailingRejections(accepted)
    ensures TriplesFit(samples[..used], tour.Length)
    ensures tour[..] == Run(EdgeWeight(cities), old(tour[..]), samples[..used])
    ensures accepted == Fired(EdgeWeight(cities), old(tour[..]), samples[..used])
    ensures forall m :: used - attempts <= m < used ==> Rejected(EdgeWeight(cities), tour[..], samples[m])
    ensures forall u :: 0 <= u < used ==> TrailingRejections(accepted[..u]) < numAttempts
  {
    var n := tour.Length;
    attempts, used, accepted := 0, 0, [];
    if n < 3 && numAttempts > 0 {
      return TooFewCities, attempts, used, accepted;
    }
    ghost var w := EdgeWeight(cities);
    ghost var t0 := tour[..];
    ghost var e0 := cache.entries;
    while attempts < numAttempts && used < |samples|
      invariant cache.Valid() && Grows(e0, cache.entries)
      invariant multiset(tour[..]) == multiset(t0)
      invariant InRange(tour[..], |cities|)
      invariant attempts <= numAttempts && used <= |samples|
      invariant attempts <= used
      invariant |accepted| == used && attempts == TrailingRejections(accepted)
      invariant TriplesFit(samples[..used], |t0|)
      invariant tour[..] == Run(w, t0, samples[..used])
      invariant accepted == Fired(w, t0, samples[..used])
      invariant forall u :: 0 <= u < used ==> TrailingRejections(accepted[..u]) < numAttempts
      decreases |samples| - used
    {
      var s := samples[used];
      ghost var before := tour[..];
      ghost var acc0 := accepted;
      var fired := TryThreeOptMove(tour, cities, cache, s.i, s.j, s.k);
      ThreeOptStep(w, t0, before, tour[..], samples, used, attempts, acc0, fired);
      BudgetKept(acc0, fired, numAttempts);
      accepted := accepted + [fired];
      attempts := if fired then 0 else attempts + 1;
      used := used + 1;
    }
    TrailRejected(w, t0, samples, used);
    end := if attempts == numAttempts then BudgetSpent else SamplesExhausted;
  }

  /** three_opt's default num_attempts. */
  const NumAttempts: nat := 100000

  /**
   * solve(cities): a shuffled range(N), improved by two_opt, then by
   * three_opt. shufflePicks drives random.shuffle; maxPasses bounds two_opt.
   * shuffled is the shuffled list, optimized the tour two_opt returns, after
   * passes passes; three_opt then consumed the first used triples.
   */
  method Solve(cities: seq<Point>, cache: DistanceCache, shufflePicks: seq<nat>, maxPasses: nat, samples: seq<Triple>)
    returns (r: Result<seq<int>>, ghost shuffled: seq<int>, ghost optimized: seq<int>, ghost passes: nat,
             ghost converged: bool, ghost end: ThreeOptEnd, ghost used: nat, ghost accepted: seq<bool>)
    requires cache.Valid()
    requires PicksFit(shufflePicks, |cities|)
    requires forall m :: 0 <= m < |samples| ==> TripleFits(samples[m], |cities|)
    modifies cache
    ensures cache.Valid() && Grows(old(cache.entries), cache.entries)
    ensures r.Err? <==> |cities| < 3
    ensures r.Err? ==> r.failure == SampleLargerThanPopulation
    ensures r.Ok? ==> IsPermutation(r.value, |cities|)
    ensures shuffled == RandomPermutation(|cities|, shufflePicks)
    ensures passes <= maxPasses && optimized == Passes(EdgeWeight(cities), shuffled, passes)
    ensures TotalDistance(optimized, EdgeWeight(cities)) <= TotalDistance(shuffled, EdgeWeight(cities))
    ensures used <= |samples| && TriplesFit(samples[..used], |optimized|)
    ensures (converged ==> 1 <= passes) && (!converged ==> passes == maxPasses)
    ensures converged ==> Pass(EdgeWeight(cities), optimized) == optimized && TwoOptOptimal(EdgeWeight(cities), optimized)
    ensures forall p :: 0 <= p < passes && !(converged && p == passes - 1) ==>
      PassShortens(EdgeWeight(cities), shuffled, p)
    ensures r.Err? <==> end == TooFewCities
    ensures end == BudgetSpent <==> TrailingRejections(accepted) == NumAttempts
    ensures end == SamplesExhausted ==> used == |samples|
    ensures |accepted| == used && accepted == Fired(EdgeWeight(cities), optimized, samples[..used])
    ensures forall u :: 0 <= u < used ==> TrailingRejections(accepted[..u]) < NumAttempts
    ensures r.Ok? ==> r.value == Run(EdgeWeight(cities), optimized, samples[..used])
    ensures r.Ok? ==> forall m :: used - TrailingRejections(accepted) <= m < used ==>
      Rejected(EdgeWeight(cities), r.value, samples[m])
  {
    var n := |cities|;
    var initial := RandomPermutation(n, shufflePicks);
    PermutationFacts(initial, n);
    shuffled := initial;
    var tour := new int[n](k requires 0 <= k < n => initial[k]);
    assert tour[..] == initial;
    var c, p := TwoOpt(tour, cities, cache, maxPasses);
    passes, converged := p, c;
    optimized := tour[..];
    var e, _, u, acc := ThreeOpt(tour, cities, cache, NumAttempts, samples);
    end, used, accepted := e, u, acc;
    if e == TooFewCities {
      r := Err(SampleLargerThanPopulation);
    } else {
      r := Ok(tour[..]);
    }
  }
}
