/** The eps-neighbourhood test of `_region_query` on concrete points:
    `norm(X[p] - X[q]) <= eps`. Coordinates are integers here, and the test is
    stated on the squared distance, which for eps >= 0 is the same condition
    without the square root. */
module Geometry {
  import Seqs
  import Dbscan

  /** Sum of squared coordinate differences over the common coordinates. */
  function SqDist(u: seq<int>, v: seq<int>): nat
  {
    if u == [] || v == [] then 0
    else (u[0] - v[0]) * (u[0] - v[0]) + SqDist(u[1..], v[1..])
  }

  lemma {:induction false} SqDistSymmetric(u: seq<int>, v: seq<int>)
    ensures SqDist(u, v) == SqDist(v, u)
  {
    if u != [] && v != [] {
      SqDistSymmetric(u[1..], v[1..]);
    }
  }

  lemma {:induction false} SqDistSelf(u: seq<int>)
    ensures SqDist(u, u) == 0
  {
    if u != [] {
      SqDistSelf(u[1..]);
    }
  }

  /** Point `p` lies within `eps` of point `q`. A negative eps admits nothing,
      since a distance is never negative. */
  predicate Within(points: seq<seq<int>>, eps: real, p: nat, q: nat)
  {
    p < |points| && q < |points| && eps >= 0.0 && (SqDist(points[p], points[q]) as real) <= eps * eps
  }

  /** The clustering problem for `points`, `eps` and `minpts`. */
  function Problem(points: seq<seq<int>>, eps: real, minPts: int): (s: Dbscan.Space)
    ensures s.size == |points| && s.minPts == minPts
    ensures forall p: nat, q: nat :: s.near(p, q) <==> Within(points, eps, p, q)
  {
    Dbscan.Space(|points|, (p: nat, q: nat) => Within(points, eps, p, q), minPts)
  }

  /** The distance test is symmetric, as `_expand_cluster` relies on. */
  lemma ProblemSymmetric(points: seq<seq<int>>, eps: real, minPts: int)
    ensures Problem(points, eps, minPts).Symmetric()
  {
    var s := Problem(points, eps, minPts);
    forall p: nat, q: nat | p < s.size && q < s.size
      ensures s.near(p, q) == s.near(q, p)
    {
      SqDistSymmetric(points[p], points[q]);
    }
  }

  /** For eps >= 0 the region of a point contains the point itself, so a
      point's neighbourhood count includes it (as the docstring of `dbscan` says of minpts). */
  lemma RegionContainsQuery(points: seq<seq<int>>, eps: real, minPts: int, q: nat)
    requires q < |points| && eps >= 0.0
    ensures q in Problem(points, eps, minPts).RegionQuery(q)
  {
    SqDistSelf(points[q]);
    Dbscan.RegionQuerySpec(Problem(points, eps, minPts), q);
  }

  /** A negative eps makes every region empty. */
  lemma NegativeEpsEmptyRegion(points: seq<seq<int>>, eps: real, minPts: int, q: nat)
    requires eps < 0.0
    ensures Problem(points, eps, minPts).RegionQuery(q) == []
  {
    var s := Problem(points, eps, minPts);
    NothingNearBelow(s, q, s.size);
  }

  lemma {:induction false} NothingNearBelow(s: Dbscan.Space, q: nat, k: nat)
    requires forall p: nat :: !s.near(p, q)
    ensures s.NeighboursBelow(q, k) == []
  {
    if k > 0 {
      NothingNearBelow(s, q, k - 1);
    }
  }

  /** `dbscan(X, eps, minpts)` on concrete points. */
  method ClusterPoints(points: seq<seq<int>>, eps: real, minPts: int)
    returns (labels: seq<int>, core: seq<nat>, clusters: nat)
    ensures |labels| == |points|
    ensures forall x :: 0 <= x < |labels| ==> labels[x] == Dbscan.Noise || 0 <= labels[x] < clusters
    ensures forall x: nat :: x in core <==> x < |points| && Problem(points, eps, minPts).Dense(x)
    ensures forall x: nat, y: nat :: x in core && Within(points, eps, y, x) ==> labels[y] != Dbscan.Noise
    ensures forall x: nat, y: nat :: x in core && y in core && Within(points, eps, y, x) ==> labels[x] == labels[y]
    ensures forall x: nat, y: nat :: x in core && Within(points, eps, y, x) ==> labels[y] <= labels[x]
    ensures forall x :: 0 <= x < |labels| && labels[x] == Dbscan.Noise ==> !Problem(points, eps, minPts).Dense(x)
    ensures forall x: nat, y: nat :: x < |labels| && y < |labels| && labels[x] != Dbscan.Noise && labels[x] == labels[y] ==>
              Dbscan.Connected(Problem(points, eps, minPts), x, y)
    ensures forall k :: k in Dbscan.CoreClusterIds(labels, core) <==> 0 <= k < clusters
    ensures Seqs.StrictlyIncreasing(core)
    ensures forall y: nat :: y in core && labels[y] > 0 ==>
              exists x: nat :: x in core && x < y && labels[x] == labels[y] - 1
    ensures forall x: nat, y: nat :: x in core && y in core && labels[x] == labels[y] ==>
              Dbscan.Reachable(Problem(points, eps, minPts), x, y)
  {
    ProblemSymmetric(points, eps, minPts);
    ghost var internal;
    labels, core, clusters, internal := Dbscan.Cluster(Problem(points, eps, minPts));
  }
}
