/**
 * The distance oracle of the 2-opt/3-opt solver: the squared Euclidean
 * distance between two cities, memoised in a cache keyed by the sorted pair
 * of the two cities' coordinates.
 */
module DistanceOracle {
  import opened Tours

  /** A city: its coordinates (x, y). */
  datatype Point = Point(x: real, y: real)

  /** (x1 - x2) ** 2 + (y1 - y2) ** 2, the metric of solver_3opt.py. */
  function SqDist(p: Point, q: Point): real
  {
    (p.x - q.x) * (p.x - q.x) + (p.y - q.y) * (p.y - q.y)
  }

  lemma SqDistSymmetric(p: Point, q: Point)
    ensures SqDist(p, q) == SqDist(q, p)
  {
  }

  /** Python's order on (x, y) tuples: by x, ties broken by y. */
  predicate PointLe(p: Point, q: Point)
  {
    p.x < q.x || (p.x == q.x && p.y <= q.y)
  }

  /** The cache key tuple(sorted((city1, city2))): the two cities, smaller first. */
  function Key(p: Point, q: Point): (k: (Point, Point))
    ensures PointLe(k.0, k.1)
    ensures (k.0 == p && k.1 == q) || (k.0 == q && k.1 == p)
  {
    if PointLe(p, q) then (p, q) else (q, p)
  }

  /** The key ignores the order of its arguments, so both orders share one entry. */
  lemma KeySymmetric(p: Point, q: Point)
    ensures Key(p, q) == Key(q, p)
  {
  }

  /** Every stored entry is the squared distance between the two cities of its key. */
  predicate CacheConsistent(entries: map<(Point, Point), real>)
  {
    forall k :: k in entries ==> entries[k] == SqDist(k.0, k.1)
  }

  /** m1 keeps every entry of m0 with its value: entries are added, never overwritten. */
  predicate Grows(m0: map<(Point, Point), real>, m1: map<(Point, Point), real>)
  {
    forall k :: k in m0 ==> k in m1 && m1[k] == m0[k]
  }

  /** A cache hit answers with the distance between the cities asked about, in either order. */
  lemma CacheHit(entries: map<(Point, Point), real>, p: Point, q: Point)
    requires CacheConsistent(entries)
    requires Key(p, q) in entries
    ensures Key(q, p) in entries
    ensures entries[Key(p, q)] == SqDist(p, q) == SqDist(q, p)
  {
    KeySymmetric(p, q);
    SqDistSymmetric(p, q);
  }

  /** The module-level distance_cache dictionary and the distance function that fills it. */
  class DistanceCache {
    var entries: map<(Point, Point), real>

    ghost predicate Valid()
      reads this
    {
      CacheConsistent(entries)
    }

    constructor ()
      ensures Valid() && entries == map[]
    {
      entries := map[];
    }

    /** distance(city1, city2): look the sorted pair up, computing and storing it when missing. */
    method Distance(p: Point, q: Point) returns (d: real)
      requires Valid()
      modifies this
      ensures Valid()
      ensures d == SqDist(p, q)
      ensures Key(p, q) in entries
      ensures Key(p, q) in old(entries) ==> entries == old(entries)
      ensures Key(p, q) !in old(entries) ==> entries == old(entries)[Key(p, q) := SqDist(p, q)]
      ensures Grows(old(entries), entries)
    {
      var key := Key(p, q);
      if key !in entries {
        SqDistSymmetric(p, q);
        entries := entries[key := SqDist(p, q)];
      }
      CacheHit(entries, p, q);
      d := entries[key];
    }
  }

  /** The distance between the cities with indices a and b, as Distance computes it. */
  function EdgeWeight(cities: seq<Point>): Weight
  {
    (a: int, b: int) => if 0 <= a < |cities| && 0 <= b < |cities| then SqDist(cities[a], cities[b]) else 0.0
  }

  lemma EdgeWeightSymmetric(cities: seq<Point>)
    ensures Symmetric(EdgeWeight(cities))
  {
    forall a: int, b: int
      ensures EdgeWeight(cities)(a, b) == EdgeWeight(cities)(b, a)
    {
      if 0 <= a < |cities| && 0 <= b < |cities| {
        SqDistSymmetric(cities[a], cities[b]);
      }
    }
  }
}
