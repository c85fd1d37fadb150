/** Density-based clustering (DBSCAN) as done by `dbscan`, `_expand_cluster` and
    `_region_query` of the clustering script.

    Points are the indices 0 .. size-1; the distance test of `_region_query`
    ("point p lies within eps of point q") is the relation `near(p, q)`.
    During the run a point's label is 0 (not yet classified), -1 (noise) or a
    cluster number 1, 2, ...; the last pass renumbers clusters from 0. */
module Dbscan {
  import opened Seqs

  const Unclassified: int := 0
  const Noise: int := -1

  /** The input of one run: how many points, the eps-neighbourhood test, and minpts. */
  datatype Space = Space(size: nat, near: (nat, nat) -> bool, minPts: int)
  {
    /** The indices below `k` that lie within eps of `q`, in increasing order. */
    function NeighboursBelow(q: nat, k: nat): (r: seq<nat>)
      ensures forall i, j :: 0 <= i < j < |r| ==> r[i] < r[j]
      ensures forall p: nat :: p in r <==> p < k && near(p, q)
    {
      if k == 0 then []
      else
        var below := NeighboursBelow(q, k - 1);
        assert forall i :: 0 <= i < |below| ==> below[i] in below;
        if near(k - 1, q) then below + [k - 1] else below
    }

    /** `_region_query`: every point within eps of `q`, scanned in index order. */
    function RegionQuery(q: nat): seq<nat>
    {
      NeighboursBelow(q, size)
    }

    /** A point whose neighbourhood (itself included when it is near itself)
        has at least minpts points. */
    predicate Dense(x: nat)
    {
      |RegionQuery(x)| >= minPts
    }

    /** The distance test is symmetric, as a Euclidean distance is. */
    ghost predicate Symmetric()
    {
      forall p: nat, q: nat :: p < size && q < size ==> near(p, q) == near(q, p)
    }
  }

  /** `_region_query` returns exactly the points within eps of `q`, in
      strictly increasing index order. */
  lemma RegionQuerySpec(s: Space, q: nat)
    ensures StrictlyIncreasing(s.RegionQuery(q))
    ensures forall p: nat :: p in s.RegionQuery(q) <==> p < s.size && s.near(p, q)
  {
    var r := s.RegionQuery(q);
    assert forall i, j :: 0 <= i < j < |r| ==> r[i] < r[j];
  }

  /* ---------------- density-reachability ---------------- */

  /** A chain of points, each within eps of the dense point before it. */
  ghost predicate IsChain(s: Space, path: seq<nat>)
  {
    && path != []
    && (forall i :: 0 <= i < |path| ==> path[i] < s.size)
    && (forall i :: 0 <= i < |path| - 1 ==> s.Dense(path[i]) && s.near(path[i + 1], path[i]))
  }

  /** `x` is density-reachable from `o`: a chain leads from `o` to `x`. */
  ghost predicate Reachable(s: Space, o: nat, x: nat)
  {
    exists path :: IsChain(s, path) && path[0] == o && path[|path| - 1] == x
  }

  /** `x` and `y` are density-connected: both are reachable from one point. */
  ghost predicate Connected(s: Space, x: nat, y: nat)
  {
    exists o: nat :: Reachable(s, o, x) && Reachable(s, o, y)
  }

  lemma ReachSelf(s: Space, o: nat)
    requires o < s.size
    ensures Reachable(s, o, o)
  {
    assert IsChain(s, [o]);
  }

  /** A chain to a dense point extends to any point within eps of it. */
  lemma ReachStep(s: Space, o: nat, q: nat, r: nat)
    requires Reachable(s, o, q) && s.Dense(q)
    requires r < s.size && s.near(r, q)
    ensures Reachable(s, o, r)
  {
    var path :| IsChain(s, path) && path[0] == o && path[|path| - 1] == q;
    var longer := path + [r];
    assert forall i :: 0 <= i < |path| ==> longer[i] == path[i];
    assert IsChain(s, longer);
  }

  /** Reachability is transitive. */
  lemma ReachTrans(s: Space, a: nat, b: nat, c: nat)
    requires Reachable(s, a, b) && Reachable(s, b, c)
    ensures Reachable(s, a, c)
  {
    var p1 :| IsChain(s, p1) && p1[0] == a && p1[|p1| - 1] == b;
    var p2 :| IsChain(s, p2) && p2[0] == b && p2[|p2| - 1] == c;
    if |p2| > 1 {
      var joined := p1 + p2[1..];
      assert forall i :: 0 <= i < |p1| ==> joined[i] == p1[i];
      assert forall i :: |p1| <= i < |joined| ==> joined[i] == p2[i - |p1| + 1];
      assert IsChain(s, joined);
    }
  }

  /** Between dense points, a chain can be walked backwards. */
  lemma {:induction false} ChainBack(s: Space, path: seq<nat>)
    requires s.Symmetric() && IsChain(s, path) && s.Dense(path[|path| - 1])
    ensures Reachable(s, path[|path| - 1], path[0])
    decreases |path|
  {
    if |path| == 1 {
      ReachSelf(s, path[0]);
    } else {
      var rest := path[1..];
      assert IsChain(s, rest);
      ChainBack(s, rest);
      ReachStep(s, path[|path| - 1], path[1], path[0]);
    }
  }

  /** Two dense points that are density-connected reach each other. */
  lemma CoreReachable(s: Space, x: nat, y: nat)
    requires s.Symmetric() && s.Dense(x) && s.Dense(y)
    requires Connected(s, x, y)
    ensures Reachable(s, x, y)
  {
    var o: nat :| Reachable(s, o, x) && Reachable(s, o, y);
    var path :| IsChain(s, path) && path[0] == o && path[|path| - 1] == x;
    ChainBack(s, path);
    ReachTrans(s, x, o, y);
  }

  /* ---------------- invariants of the labelling ---------------- */

  ghost predicate LabelsInRange(labels: seq<int>, c: int)
  {
    forall x :: 0 <= x < |labels| ==> Noise <= labels[x] <= c
  }

  /** Only a point with a sparse neighbourhood is ever labelled noise. */
  ghost predicate NoiseIsSparse(s: Space, labels: seq<int>)
  {
    forall x :: 0 <= x < |labels| && labels[x] == Noise ==> !s.Dense(x)
  }

  /** The core list holds, once each, the dense points already put in a
      cluster, except `pending` (the seed of the cluster being expanded, which
      is appended after the expansion; -1 outside an expansion). */
  ghost predicate CoreListed(s: Space, labels: seq<int>, core: seq<nat>, pending: int)
  {
    && NoDuplicates(core)
    && forall x: nat :: x in core <==> x < |labels| && s.Dense(x) && labels[x] > 0 && x != pending
  }

  /** Clusters 1 .. c-1 are finished: a dense member's neighbours are all in
      its cluster or an earlier one, and its dense neighbours are in its own
      cluster. */
  ghost predicate Closed(s: Space, labels: seq<int>, c: int)
  {
    forall x: nat, y: nat ::
      x < |labels| && y < |labels| && s.near(y, x) && s.Dense(x) && 0 < labels[x] < c ==>
        0 < labels[y] <= labels[x] && (s.Dense(y) ==> labels[y] == labels[x])
  }

  /** A clustered point that is not dense lies within eps of a dense point of its cluster. */
  ghost predicate Attached(s: Space, labels: seq<int>)
  {
    forall y: nat :: y < |labels| && labels[y] > 0 && !s.Dense(y) ==>
      exists d: nat :: d < |labels| && s.Dense(d) && labels[d] == labels[y] && s.near(y, d)
  }

  /** Every entry of the work list of cluster `c` lies within eps of a dense point of the cluster. */
  ghost predicate WorkAttached(s: Space, labels: seq<int>, c: int, work: seq<nat>)
  {
    forall j :: 0 <= j < |work| ==>
      exists d: nat :: d < |labels| && s.Dense(d) && labels[d] == c && s.near(work[j], d)
  }

  ghost function UnclassifiedPoints(labels: seq<int>): set<nat>
  {
    set x: nat | x < |labels| && labels[x] == Unclassified
  }

  /** The only relabelling an expansion does: noise or unclassified points join cluster `c`. */
  ghost predicate JoinsOnly(before: seq<int>, after: seq<int>, c: int)
  {
    && |before| == |after|
    && forall x :: 0 <= x < |after| && after[x] != before[x] ==> before[x] <= 0 && after[x] == c
  }

  /** The loop invariant of `_expand_cluster` while it walks the work list of
      cluster `c`, seeded at `p`, with entries before `i` handled. */
  ghost predicate Expanding(s: Space, labels0: seq<int>, p: nat, c: int,
                            labels: seq<int>, core: seq<nat>, work: seq<nat>, i: nat)
  {
    && |labels| == |labels0| == s.size && p < s.size && c >= 1
    && i <= |work|
    && (forall j :: 0 <= j < |work| ==> work[j] < |labels|)
    && labels[p] == c
    && JoinsOnly(labels0, labels, c)
    && LabelsInRange(labels, c)
    && NoiseIsSparse(s, labels)
    && CoreListed(s, labels, core, p)
    && Closed(s, labels, c)
    && Attached(s, labels)
    && WorkAttached(s, labels, c, work)
    && Queued(s, labels, c, work)
    && Handled(labels, work, i)
  }

  /** Every neighbour of a dense point of cluster `c` is on the work list. */
  ghost predicate Queued(s: Space, labels: seq<int>, c: int, work: seq<nat>)
  {
    forall x: nat, y: nat ::
      x < |labels| && y < |labels| && s.Dense(x) && labels[x] == c && s.near(y, x) ==> y in work
  }

  /** The work list entries before `i` are all in some cluster. */
  ghost predicate Handled(labels: seq<int>, work: seq<nat>, i: nat)
  {
    forall j :: 0 <= j < i && j < |work| && work[j] < |labels| ==> labels[work[j]] > 0
  }

  /** `_expand_cluster`: grows cluster `c` from the dense, still unclassified
      point `p` whose neighbourhood is `neighbours`, labelling every point
      reachable through dense points and listing the dense ones it meets. */
  method ExpandCluster(s: Space, labels0: seq<int>, p: nat, neighbours: seq<nat>, c: int, core0: seq<nat>)
    returns (labels: seq<int>, core: seq<nat>)
    requires s.Symmetric()
    requires |labels0| == s.size && p < s.size
    requires neighbours == s.RegionQuery(p) && s.Dense(p)
    requires c >= 1 && labels0[p] == Unclassified
    requires LabelsInRange(labels0, c - 1)
    requires NoiseIsSparse(s, labels0)
    requires CoreListed(s, labels0, core0, -1)
    requires Closed(s, labels0, c)
    requires Attached(s, labels0)
    ensures |labels| == |labels0| && labels[p] == c
    ensures JoinsOnly(labels0, labels, c)
    ensures LabelsInRange(labels, c)
    ensures NoiseIsSparse(s, labels)
    ensures CoreListed(s, labels, core, p)
    ensures Closed(s, labels, c + 1)
    ensures Attached(s, labels)
    ensures forall x :: 0 <= x < |labels| && labels[x] == c ==> Reachable(s, p, x)
  {
    labels := labels0[p := c];
    core := core0;
    var work: seq<nat> := neighbours;
    var i := 0;
    ExpansionStarts(s, labels0, p, c, core0);
    ReachStarts(s, labels0, p, c);
    while i < |work|
      invariant Expanding(s, labels0, p, c, labels, core, work, i)
      invariant ReachedFrom(s, p, c, labels, work)
      decreases UnclassifiedPoints(labels), |work| - i
    {
      labels, core, work := ExpandStep(s, labels0, p, c, labels, core, work, i);
      i := i + 1;
    }
    ExpansionEnds(s, labels0, p, c, labels, core, work);
  }

  /** One turn of the loop of `_expand_cluster` on the work list entry `i`:
      a noise point joins the cluster; an unclassified point joins it and,
      when dense, is listed as core and has its neighbourhood queued; a
      clustered point is passed over. */
  method ExpandStep(s: Space, labels0: seq<int>, p: nat, c: int,
                    labels: seq<int>, core: seq<nat>, work: seq<nat>, i: nat)
    returns (labels': seq<int>, core': seq<nat>, work': seq<nat>)
    requires s.Symmetric()
    requires Expanding(s, labels0, p, c, labels, core, work, i) && i < |work|
    requires ReachedFrom(s, p, c, labels, work)
    ensures Expanding(s, labels0, p, c, labels', core', work', i + 1)
    ensures ReachedFrom(s, p, c, labels', work')
    ensures labels[work[i]] > 0 ==> labels' == labels && core' == core && work' == work
    ensures labels[work[i]] <= 0 ==> labels' == labels[work[i] := c]
    ensures UnclassifiedPoints(labels') < UnclassifiedPoints(labels)
            || (UnclassifiedPoints(labels') == UnclassifiedPoints(labels) && work' == work)
  {
    labels', core', work' := labels, core, work;
    var q := work[i];
    if labels[q] == Noise {
      NoiseJoins(s, labels0, p, c, labels, core, work, i);
      ReachJoin(s, p, c, labels, work, i);
      labels' := labels[q := c];
    } else if labels[q] == Unclassified {
      UnclassifiedJoins(s, labels0, p, c, labels, core, work, i);
      var qNeighbours := s.RegionQuery(q);
      if |qNeighbours| >= s.minPts {
        DenseJoins(s, labels0, p, c, labels, core, work, i);
      }
      ReachJoin(s, p, c, labels, work, i);
      labels' := labels[q := c];
      if |qNeighbours| >= s.minPts {
        ReachExtend(s, p, c, labels', work, q);
        core' := core + [q];
        work' := work + qNeighbours;
      }
    } else {
      ClusteredSkipped(s, labels0, p, c, labels, core, work, i);
    }
  }

  /** Every point of cluster `c` and every point queued for it is
      density-reachable from the seed `p`. */
  ghost predicate ReachedFrom(s: Space, p: nat, c: int, labels: seq<int>, work: seq<nat>)
  {
    && (forall x :: 0 <= x < |labels| && labels[x] == c ==> Reachable(s, p, x))
    && (forall j :: 0 <= j < |work| ==> Reachable(s, p, work[j]))
  }

  lemma ReachStarts(s: Space, labels0: seq<int>, p: nat, c: int)
    requires |labels0| == s.size && p < s.size && s.Dense(p)
    requires LabelsInRange(labels0, c - 1)
    ensures ReachedFrom(s, p, c, labels0[p := c], s.RegionQuery(p))
  {
    var work := s.RegionQuery(p);
    ReachSelf(s, p);
    RegionQuerySpec(s, p);
    forall j | 0 <= j < |work| ensures Reachable(s, p, work[j]) {
      assert work[j] in work;
      ReachStep(s, p, p, work[j]);
    }
  }

  /** A queued point joining the cluster is reachable, being queued. */
  lemma ReachJoin(s: Space, p: nat, c: int, labels: seq<int>, work: seq<nat>, i: nat)
    requires ReachedFrom(s, p, c, labels, work)
    requires i < |work| && work[i] < |labels|
    ensures ReachedFrom(s, p, c, labels[work[i] := c], work)
  {
  }

  /** The neighbours of a dense point of the cluster are reachable through it. */
  lemma ReachExtend(s: Space, p: nat, c: int, labels: seq<int>, work: seq<nat>, q: nat)
    requires ReachedFrom(s, p, c, labels, work)
    requires q < |labels| && labels[q] == c && s.Dense(q)
    ensures ReachedFrom(s, p, c, labels, work + s.RegionQuery(q))
  {
    var more := s.RegionQuery(q);
    var work' := work + more;
    RegionQuerySpec(s, q);
    forall j | 0 <= j < |work'| ensures Reachable(s, p, work'[j]) {
      if j >= |work| {
        assert work'[j] == more[j - |work|] && more[j - |work|] in more;
        ReachStep(s, p, q, work'[j]);
      }
    }
  }

  lemma ExpansionEnds(s: Space, labels0: seq<int>, p: nat, c: int,
                      labels: seq<int>, core: seq<nat>, work: seq<nat>)
    requires s.Symmetric()
    requires Expanding(s, labels0, p, c, labels, core, work, |work|)
    ensures |labels| == |labels0| && labels[p] == c
    ensures JoinsOnly(labels0, labels, c)
    ensures LabelsInRange(labels, c)
    ensures NoiseIsSparse(s, labels)
    ensures CoreListed(s, labels, core, p)
    ensures Closed(s, labels, c + 1)
    ensures Attached(s, labels)
  {
    ClosedAfterExpansion(s, labels, c, work);
  }

  /** Relabelling a point that is in no cluster keeps every clustered point attached. */
  lemma AttachedKept(s: Space, labels: seq<int>, q: nat, v: int)
    requires Attached(s, labels) && q < |labels| && labels[q] <= 0 && (v <= 0 || s.Dense(q))
    ensures Attached(s, labels[q := v])
  {
    var next := labels[q := v];
    forall y: nat | y < |next| && next[y] > 0 && !s.Dense(y)
      ensures exists d: nat :: d < |next| && s.Dense(d) && next[d] == next[y] && s.near(y, d)
    {
      var d: nat :| d < |labels| && s.Dense(d) && labels[d] == labels[y] && s.near(y, d);
      assert next[d] == labels[d];
    }
  }

  /** Relabelling a point that is in no cluster, other than into a finished
      cluster, keeps the finished clusters closed. */
  lemma ClosedKept(s: Space, labels: seq<int>, q: nat, v: int, c: int)
    requires Closed(s, labels, c) && q < |labels| && labels[q] <= 0 && (v <= 0 || v >= c)
    ensures Closed(s, labels[q := v], c)
  {
    var next := labels[q := v];
    forall x: nat, y: nat | x < |next| && y < |next| && s.near(y, x) && s.Dense(x) && 0 < next[x] < c
      ensures 0 < next[y] <= next[x] && (s.Dense(y) ==> next[y] == next[x])
    {
      assert labels[x] == next[x];
    }
  }

  /** The entry at `i` of the work list of cluster `c` joins the cluster: everything stays attached. */
  lemma AttachedJoin(s: Space, labels: seq<int>, c: int, work: seq<nat>, i: nat)
    requires Attached(s, labels) && WorkAttached(s, labels, c, work) && c >= 1
    requires i < |work| && work[i] < |labels| && labels[work[i]] <= 0
    ensures Attached(s, labels[work[i] := c])
    ensures WorkAttached(s, labels[work[i] := c], c, work)
  {
    var q := work[i];
    var next := labels[q := c];
    forall y: nat | y < |next| && next[y] > 0 && !s.Dense(y)
      ensures exists d: nat :: d < |next| && s.Dense(d) && next[d] == next[y] && s.near(y, d)
    {
      if y == q {
        var d: nat :| d < |labels| && s.Dense(d) && labels[d] == c && s.near(work[i], d);
        assert next[d] == c;
      } else {
        var d: nat :| d < |labels| && s.Dense(d) && labels[d] == labels[y] && s.near(y, d);
        assert next[d] == labels[d];
      }
    }
    forall j | 0 <= j < |work|
      ensures exists d: nat :: d < |next| && s.Dense(d) && next[d] == c && s.near(work[j], d)
    {
      var d: nat :| d < |labels| && s.Dense(d) && labels[d] == c && s.near(work[j], d);
      assert next[d] == c;
    }
  }

  lemma ExpansionStarts(s: Space, labels0: seq<int>, p: nat, c: int, core0: seq<nat>)
    requires |labels0| == s.size && p < s.size && s.Dense(p)
    requires c >= 1 && labels0[p] == Unclassified
    requires LabelsInRange(labels0, c - 1)
    requires NoiseIsSparse(s, labels0)
    requires CoreListed(s, labels0, core0, -1)
    requires Closed(s, labels0, c)
    requires Attached(s, labels0)
    ensures Expanding(s, labels0, p, c, labels0[p := c], core0, s.RegionQuery(p), 0)
  {
    var labels := labels0[p := c];
    var work := s.RegionQuery(p);
    RegionQuerySpec(s, p);
    assert forall j :: 0 <= j < |work| ==> work[j] in work;
    assert WorkAttached(s, labels, c, work) by {
      forall j | 0 <= j < |work|
        ensures exists d: nat :: d < |labels| && s.Dense(d) && labels[d] == c && s.near(work[j], d)
      {
        assert s.near(work[j], p);
      }
    }
    AttachedKept(s, labels0, p, c);
    assert Queued(s, labels, c, work) by {
      forall x: nat, y: nat | x < |labels| && y < |labels| && s.Dense(x) && labels[x] == c && s.near(y, x)
        ensures y in work
      {
        assert x == p;
      }
    }
    assert JoinsOnly(labels0, labels, c);
    assert LabelsInRange(labels, c);
    assert NoiseIsSparse(s, labels);
    assert CoreListed(s, labels, core0, p);
    assert Closed(s, labels, c);
  }

  /** A noise point met on the work list joins the cluster (a border point). */
  lemma NoiseJoins(s: Space, labels0: seq<int>, p: nat, c: int,
                   labels: seq<int>, core: seq<nat>, work: seq<nat>, i: nat)
    requires Expanding(s, labels0, p, c, labels, core, work, i)
    requires i < |work| && labels[work[i]] == Noise
    ensures Expanding(s, labels0, p, c, labels[work[i] := c], core, work, i + 1)
    ensures UnclassifiedPoints(labels[work[i] := c]) == UnclassifiedPoints(labels)
  {
    var q := work[i];
    var next := labels[q := c];
    assert !s.Dense(q);
    AttachedJoin(s, labels, c, work, i);
    ClosedKept(s, labels, q, c, c);
  }

  /** An unclassified point met on the work list joins the cluster; when it is
      dense, it is listed as core and its neighbourhood is queued (see `DenseJoins`). */
  lemma UnclassifiedJoins(s: Space, labels0: seq<int>, p: nat, c: int,
                          labels: seq<int>, core: seq<nat>, work: seq<nat>, i: nat)
    requires Expanding(s, labels0, p, c, labels, core, work, i)
    requires i < |work| && labels[work[i]] == Unclassified
    ensures !s.Dense(work[i]) ==> Expanding(s, labels0, p, c, labels[work[i] := c], core, work, i + 1)
    ensures UnclassifiedPoints(labels[work[i] := c]) < UnclassifiedPoints(labels)
  {
    var q := work[i];
    var next := labels[q := c];
    assert q in UnclassifiedPoints(labels) - UnclassifiedPoints(next);
    AttachedJoin(s, labels, c, work, i);
    ClosedKept(s, labels, q, c, c);
  }

  lemma DenseJoins(s: Space, labels0: seq<int>, p: nat, c: int,
                   labels: seq<int>, core: seq<nat>, work: seq<nat>, i: nat)
    requires Expanding(s, labels0, p, c, labels, core, work, i)
    requires i < |work| && labels[work[i]] == Unclassified && s.Dense(work[i])
    ensures Expanding(s, labels0, p, c, labels[work[i] := c], core + [work[i]],
                      work + s.RegionQuery(work[i]), i + 1)
  {
    var q := work[i];
    var next := labels[q := c];
    var more := s.RegionQuery(q);
    var work' := work + more;
    assert q !in core;
    AttachedJoin(s, labels, c, work, i);
    ClosedKept(s, labels, q, c, c);
    RegionQuerySpec(s, q);
    assert forall j :: 0 <= j < |more| ==> more[j] in more;
    assert forall j :: 0 <= j < |work'| ==> work'[j] < |next| by {
      forall j | 0 <= j < |work'| ensures work'[j] < |next| {
        if j >= |work| { assert work'[j] == more[j - |work|]; }
      }
    }
    WorkExtended(s, next, c, work, q);
    QueuedExtended(s, labels, c, work, q);
    HandledExtended(labels, work, i, c, more);
    CoreExtended(s, labels, core, p, q, c);
    JoinKeepsBounds(s, labels0, labels, q, c);
  }

  /** Point `q`, in no cluster, joining cluster `c` keeps the labels in range and noise sparse. */
  lemma JoinKeepsBounds(s: Space, labels0: seq<int>, labels: seq<int>, q: nat, c: int)
    requires JoinsOnly(labels0, labels, c) && LabelsInRange(labels, c) && NoiseIsSparse(s, labels)
    requires q < |labels| && labels[q] <= 0 && c >= 1
    ensures JoinsOnly(labels0, labels[q := c], c)
    ensures LabelsInRange(labels[q := c], c)
    ensures NoiseIsSparse(s, labels[q := c])
  {
  }

  /** A dense point leaving "unclassified" is appended to the core list. */
  lemma CoreExtended(s: Space, labels: seq<int>, core: seq<nat>, p: nat, q: nat, c: int)
    requires CoreListed(s, labels, core, p)
    requires q < |labels| && q != p && labels[q] <= 0 && s.Dense(q) && c > 0
    ensures CoreListed(s, labels[q := c], core + [q], p)
  {
    var next := labels[q := c];
    assert q !in core;
    forall x: nat ensures x in core + [q] <==> x < |next| && s.Dense(x) && next[x] > 0 && x != p {
      if x != q && x < |next| { assert next[x] == labels[x]; }
    }
    assert NoDuplicates(core + [q]) by {
      var core' := core + [q];
      forall i, j | 0 <= i < j < |core'| ensures core'[i] != core'[j] {
        if j == |core| { assert core'[i] in core; }
      }
    }
  }

  lemma QueuedExtended(s: Space, labels: seq<int>, c: int, work: seq<nat>, q: nat)
    requires Queued(s, labels, c, work) && |labels| == s.size
    requires q < |labels| && labels[q] != c
    ensures Queued(s, labels[q := c], c, work + s.RegionQuery(q))
  {
    var next := labels[q := c];
    var more := s.RegionQuery(q);
    RegionQuerySpec(s, q);
    forall x: nat, y: nat | x < |next| && y < |next| && s.Dense(x) && next[x] == c && s.near(y, x)
      ensures y in work + more
    {
      if x == q { assert y in more; } else { assert y in work; }
    }
  }

  lemma HandledExtended(labels: seq<int>, work: seq<nat>, i: nat, c: int, more: seq<nat>)
    requires Handled(labels, work, i) && i < |work| && work[i] < |labels| && c > 0
    requires forall j :: 0 <= j < |work| ==> work[j] < |labels|
    ensures Handled(labels[work[i] := c], work + more, i + 1)
  {
    var next := labels[work[i] := c];
    var work' := work + more;
    forall j | 0 <= j < i + 1 && j < |work'| && work'[j] < |next| ensures next[work'[j]] > 0 {
      assert work'[j] == work[j];
    }
  }

  /** Queuing the neighbourhood of a dense point `q` of cluster `c` keeps the work list attached. */
  lemma WorkExtended(s: Space, labels: seq<int>, c: int, work: seq<nat>, q: nat)
    requires WorkAttached(s, labels, c, work)
    requires q < |labels| && s.Dense(q) && labels[q] == c
    ensures WorkAttached(s, labels, c, work + s.RegionQuery(q))
  {
    var more := s.RegionQuery(q);
    var work' := work + more;
    RegionQuerySpec(s, q);
    forall j | 0 <= j < |work'|
      ensures exists d: nat :: d < |labels| && s.Dense(d) && labels[d] == c && s.near(work'[j], d)
    {
      if j >= |work| {
        assert work'[j] == more[j - |work|];
        assert work'[j] in more;
        assert s.near(work'[j], q);
      } else {
        assert work'[j] == work[j];
      }
    }
  }

  /** A point already in a cluster is passed over. */
  lemma ClusteredSkipped(s: Space, labels0: seq<int>, p: nat, c: int,
                         labels: seq<int>, core: seq<nat>, work: seq<nat>, i: nat)
    requires Expanding(s, labels0, p, c, labels, core, work, i)
    requires i < |work| && labels[work[i]] != Noise && labels[work[i]] != Unclassified
    ensures Expanding(s, labels0, p, c, labels, core, work, i + 1)
  {
  }

  /** When the work list is exhausted, cluster `c` is finished too. */
  lemma ClosedAfterExpansion(s: Space, labels: seq<int>, c: int, work: seq<nat>)
    requires s.Symmetric() && |labels| == s.size
    requires forall j :: 0 <= j < |work| ==> work[j] < |labels|
    requires LabelsInRange(labels, c)
    requires Closed(s, labels, c)
    requires forall x: nat, y: nat ::
      x < |labels| && y < |labels| && s.Dense(x) && labels[x] == c && s.near(y, x) ==> y in work
    requires forall j :: 0 <= j < |work| ==> labels[work[j]] > 0
    ensures Closed(s, labels, c + 1)
  {
    forall x: nat, y: nat | x < |labels| && y < |labels| && s.near(y, x) && s.Dense(x) && 0 < labels[x] < c + 1
      ensures 0 < labels[y] <= labels[x] && (s.Dense(y) ==> labels[y] == labels[x])
    {
      if labels[x] == c {
        assert y in work;
        var j :| 0 <= j < |work| && work[j] == y;
        assert labels[y] > 0;
      }
    }
  }

  /** The loop invariant of `dbscan` before point `p` is visited: `c` clusters
      are open and finished, `seeds[k]` is the point that opened cluster k+1. */
  ghost predicate Labelling(s: Space, p: nat, c: nat, labels: seq<int>, core: seq<nat>, seeds: seq<nat>)
  {
    && |labels| == s.size && p <= s.size
    && LabelsInRange(labels, c)
    && Visited(labels, p)
    && NoiseIsSparse(s, labels)
    && CoreListed(s, labels, core, -1)
    && Closed(s, labels, c + 1)
    && Attached(s, labels)
    && |seeds| == c
    && Seeded(s, p, labels, seeds)
    && SeedsFirst(s, labels, seeds)
  }

  /** Every point before `p` is labelled. */
  ghost predicate Visited(labels: seq<int>, p: nat)
  {
    forall x :: 0 <= x < p && x < |labels| ==> labels[x] != Unclassified
  }

  /** Cluster k+1 was opened by the dense point `seeds[k]`, visited before `p`,
      and clusters were opened in increasing point order. */
  ghost predicate Seeded(s: Space, p: nat, labels: seq<int>, seeds: seq<nat>)
  {
    && (forall k :: 0 <= k < |seeds| ==>
          seeds[k] < p && seeds[k] < |labels| && s.Dense(seeds[k]) && labels[seeds[k]] == k + 1)
    && (forall k, k' :: 0 <= k < k' < |seeds| ==> seeds[k] < seeds[k'])
  }

  /** No dense point of a cluster lies before the point that opened it. */
  ghost predicate SeedsFirst(s: Space, labels: seq<int>, seeds: seq<nat>)
  {
    forall x: nat :: x < |labels| && s.Dense(x) && 0 < labels[x] <= |seeds| ==> seeds[labels[x] - 1] <= x
  }

  /** The final pass of `dbscan`: clusters 1, 2, ... become 0, 1, ...; noise stays -1. */
  function Renumber(labels: seq<int>): seq<int>
  {
    seq(|labels|, x requires 0 <= x < |labels| => if labels[x] > 0 then labels[x] - 1 else labels[x])
  }

  /** The cluster numbers carried by core points. */
  function CoreClusterIds(labels: seq<int>, core: seq<nat>): set<int>
  {
    set x | x in core && x < |labels| :: labels[x]
  }

  /** `dbscan`: labels every point with a cluster number or noise, and returns
      the sorted list of core points together with the number of clusters. */
  method Cluster(s: Space) returns (labels: seq<int>, core: seq<nat>, clusters: nat, ghost internal: seq<int>)
    requires s.Symmetric()
    ensures |labels| == s.size
    ensures |internal| == s.size && labels == Renumber(internal)
    ensures forall x :: 0 <= x < |internal| ==> internal[x] != Unclassified
    ensures forall x :: 0 <= x < |labels| ==> labels[x] == Noise || 0 <= labels[x] < clusters
    ensures forall x :: 0 <= x < |labels| && labels[x] == Noise ==> !s.Dense(x)
    ensures StrictlyIncreasing(core)
    ensures forall x: nat :: x in core <==> x < s.size && s.Dense(x)
    ensures forall x: nat, y: nat :: x in core && y < s.size && s.near(y, x) ==> labels[y] != Noise
    ensures forall x: nat, y: nat :: x in core && y in core && s.near(y, x) ==> labels[x] == labels[y]
    ensures forall x: nat, y: nat :: x in core && y < s.size && s.near(y, x) ==> labels[y] <= labels[x]
    ensures forall k :: k in CoreClusterIds(labels, core) <==> 0 <= k < clusters
    ensures forall y: nat :: y in core && labels[y] > 0 ==>
              exists x: nat :: x in core && x < y && labels[x] == labels[y] - 1
    ensures forall y: nat :: y < |labels| && labels[y] != Noise && y !in core ==>
              exists x: nat :: x in core && labels[x] == labels[y] && s.near(y, x)
    ensures forall x: nat, y: nat :: x < |labels| && y < |labels| && labels[x] != Noise && labels[x] == labels[y] ==>
              Connected(s, x, y)
    ensures forall x: nat, y: nat :: x in core && y in core && labels[x] == labels[y] ==> Reachable(s, x, y)
  {
    var current, listed, c, seeds := VisitAll(s);
    labels, core := Conclude(s, c, current, listed, seeds);
    clusters := c;
    internal := current;
    FinishedConnected(s, c, current, seeds, labels);
    CoresReachable(s, labels, core);
  }

  /** The main loop of `dbscan`: every point is visited in index order, and
      afterwards every point is labelled, clusters 1 .. c are finished, and
      each is rooted at the point that opened it. */
  method VisitAll(s: Space) returns (current: seq<int>, listed: seq<nat>, c: nat, ghost seeds: seq<nat>)
    requires s.Symmetric()
    ensures Labelling(s, s.size, c, current, listed, seeds)
    ensures Rooted(s, current, seeds)
  {
    current := seq(s.size, _ => Unclassified);
    listed := [];
    c := 0;
    seeds := [];
    var p := 0;
    while p < s.size
      invariant Labelling(s, p, c, current, listed, seeds)
      invariant Rooted(s, current, seeds)
    {
      current, listed, c, seeds := Visit(s, p, c, current, listed, seeds);
      p := p + 1;
    }
  }

  /** The last lines of `dbscan`: the core list is sorted and the clusters renumbered from 0. */
  method Conclude(s: Space, c: nat, current: seq<int>, listed: seq<nat>, ghost seeds: seq<nat>)
    returns (labels: seq<int>, core: seq<nat>)
    requires |current| == s.size && Visited(current, s.size)
    requires LabelsInRange(current, c) && NoiseIsSparse(s, current)
    requires CoreListed(s, current, listed, -1) && Closed(s, current, c + 1) && Attached(s, current)
    requires |seeds| == c && Seeded(s, s.size, current, seeds) && SeedsFirst(s, current, seeds)
    ensures |labels| == s.size
    ensures forall x :: 0 <= x < |labels| ==> labels[x] == Noise || 0 <= labels[x] < c
    ensures forall x :: 0 <= x < |labels| && labels[x] == Noise ==> !s.Dense(x)
    ensures StrictlyIncreasing(core)
    ensures forall x: nat :: x in core <==> x < s.size && s.Dense(x)
    ensures forall x: nat, y: nat :: x in core && y < s.size && s.near(y, x) ==> labels[y] != Noise
    ensures forall x: nat, y: nat :: x in core && y in core && s.near(y, x) ==> labels[x] == labels[y]
    ensures forall x: nat, y: nat :: x in core && y < s.size && s.near(y, x) ==> labels[y] <= labels[x]
    ensures forall k :: k in CoreClusterIds(labels, core) <==> 0 <= k < c
    ensures forall y: nat :: y in core && labels[y] > 0 ==>
              exists x: nat :: x in core && x < y && labels[x] == labels[y] - 1
    ensures forall y: nat :: y < |labels| && labels[y] != Noise && y !in core ==>
              exists x: nat :: x in core && labels[x] == labels[y] && s.near(y, x)
    ensures labels == Renumber(current)
  {
    labels := Renumber(current);
    var sorted := Sort(listed);
    SortStrict(listed);
    assert forall i :: 0 <= i < |sorted| ==> sorted[i] in multiset(listed);
    core := sorted;
    FinishedRanges(s, c, current, listed, seeds, labels);
    FinishedCore(s, c, current, listed, seeds, core);
    FinishedNeighbours(s, c, current, listed, seeds, labels, core);
    FinishedIds(s, c, current, listed, seeds, labels, core);
    FinishedBorders(s, c, current, listed, seeds, labels, core);
  }

  /** One turn of the main loop of `dbscan`: an unclassified point becomes
      noise or opens a new cluster; a labelled point is passed over. */
  method Visit(s: Space, p: nat, c: nat, labels: seq<int>, core: seq<nat>, ghost seeds: seq<nat>)
    returns (labels': seq<int>, core': seq<nat>, c': nat, ghost seeds': seq<nat>)
    requires s.Symmetric()
    requires Labelling(s, p, c, labels, core, seeds) && p < s.size
    requires Rooted(s, labels, seeds)
    ensures Labelling(s, p + 1, c', labels', core', seeds')
    ensures Rooted(s, labels', seeds')
    ensures labels[p] != Unclassified ==> labels' == labels && core' == core && c' == c
    ensures labels[p] == Unclassified && !s.Dense(p) ==>
              labels' == labels[p := Noise] && core' == core && c' == c
    ensures labels[p] == Unclassified && s.Dense(p) ==>
              && c' == c + 1 && labels'[p] == c' && JoinsOnly(labels, labels', c')
              && |core'| > 0 && core'[|core'| - 1] == p
              && (forall x :: 0 <= x < |labels'| && labels'[x] == c' ==> Reachable(s, p, x))
  {
    labels', core', c', seeds' := labels, core, c, seeds;
    if labels[p] == Unclassified {
      var neighbours := s.RegionQuery(p);
      if |neighbours| < s.minPts {
        MarkedNoise(s, p, c, labels, core, seeds);
        labels' := labels[p := Noise];
        RootedKept(s, labels, seeds, p, Noise);
      } else {
        labels', core', c', seeds' := OpenCluster(s, p, c, labels, core, seeds);
      }
    }
  }

  /** The dense, unclassified point `p` opens cluster c+1, which is expanded
      from its neighbourhood; `p` is listed as core afterwards. */
  method OpenCluster(s: Space, p: nat, c: nat, labels: seq<int>, core: seq<nat>, ghost seeds: seq<nat>)
    returns (labels': seq<int>, core': seq<nat>, c': nat, ghost seeds': seq<nat>)
    requires s.Symmetric()
    requires Labelling(s, p, c, labels, core, seeds) && p < s.size
    requires labels[p] == Unclassified && s.Dense(p)
    requires Rooted(s, labels, seeds)
    ensures Labelling(s, p + 1, c', labels', core', seeds')
    ensures Rooted(s, labels', seeds')
    ensures c' == c + 1 && labels'[p] == c' && JoinsOnly(labels, labels', c')
    ensures |core'| > 0 && core'[|core'| - 1] == p
    ensures forall x :: 0 <= x < |labels'| && labels'[x] == c' ==> Reachable(s, p, x)
  {
    c' := c + 1;
    var listed;
    labels', listed := ExpandCluster(s, labels, p, s.RegionQuery(p), c', core);
    core' := listed + [p];
    ClusterOpened(s, p, c, labels, labels', core, listed, seeds);
    RootedOpened(s, labels, labels', seeds, p);
    seeds' := seeds + [p];
  }

  /** Every clustered point is density-reachable from the point that opened its cluster. */
  ghost predicate Rooted(s: Space, labels: seq<int>, seeds: seq<nat>)
  {
    forall x :: 0 <= x < |labels| && labels[x] > 0 ==>
      labels[x] <= |seeds| && Reachable(s, seeds[labels[x] - 1], x)
  }

  lemma RootedKept(s: Space, labels: seq<int>, seeds: seq<nat>, q: nat, v: int)
    requires Rooted(s, labels, seeds) && q < |labels| && v <= 0
    ensures Rooted(s, labels[q := v], seeds)
  {
  }

  /** The cluster opened at `p` keeps every cluster rooted, the new one at `p`. */
  lemma RootedOpened(s: Space, before: seq<int>, after: seq<int>, seeds: seq<nat>, p: nat)
    requires Rooted(s, before, seeds)
    requires JoinsOnly(before, after, |seeds| + 1)
    requires forall x :: 0 <= x < |after| && after[x] == |seeds| + 1 ==> Reachable(s, p, x)
    ensures Rooted(s, after, seeds + [p])
  {
    var seeds' := seeds + [p];
    forall x | 0 <= x < |after| && after[x] > 0
      ensures after[x] <= |seeds'| && Reachable(s, seeds'[after[x] - 1], x)
    {
      if after[x] != |seeds| + 1 {
        assert after[x] == before[x];
        assert seeds'[after[x] - 1] == seeds[before[x] - 1];
      }
    }
  }

  /** A sparse point visited while unclassified becomes noise. */
  lemma MarkedNoise(s: Space, p: nat, c: nat, labels: seq<int>, core: seq<nat>, seeds: seq<nat>)
    requires Labelling(s, p, c, labels, core, seeds)
    requires p < s.size && labels[p] == Unclassified && !s.Dense(p)
    ensures Labelling(s, p + 1, c, labels[p := Noise], core, seeds)
  {
    var next := labels[p := Noise];
    AttachedKept(s, labels, p, Noise);
    ClosedKept(s, labels, p, Noise, c + 1);
    assert Visited(next, p + 1);
    assert Seeded(s, p + 1, next, seeds);
    assert SeedsFirst(s, next, seeds);
  }

  /** After the expansion of the cluster opened at `p`, the invariant holds
      again with one more cluster and `p` listed as core. */
  lemma ClusterOpened(s: Space, p: nat, c: nat, before: seq<int>, after: seq<int>,
                      core: seq<nat>, listed: seq<nat>, seeds: seq<nat>)
    requires Labelling(s, p, c, before, core, seeds)
    requires p < s.size && before[p] == Unclassified && s.Dense(p)
    requires |after| == |before| && after[p] == c + 1
    requires JoinsOnly(before, after, c + 1)
    requires LabelsInRange(after, c + 1)
    requires NoiseIsSparse(s, after)
    requires CoreListed(s, after, listed, p)
    requires Closed(s, after, c + 2)
    requires Attached(s, after)
    ensures Labelling(s, p + 1, c + 1, after, listed + [p], seeds + [p])
  {
    var seeds' := seeds + [p];
    SeedsKept(s, p, c, before, after, core, seeds);
    SeedBoundKept(s, p, c, before, after, core, seeds);
    assert CoreListed(s, after, listed + [p], -1) by {
      assert p !in listed;
    }
    assert forall x :: 0 <= x < p + 1 ==> after[x] != Unclassified;
  }

  lemma SeedsKept(s: Space, p: nat, c: nat, before: seq<int>, after: seq<int>,
                  listed: seq<nat>, seeds: seq<nat>)
    requires |before| == s.size && |seeds| == c && Seeded(s, p, before, seeds)
    requires p < s.size && s.Dense(p)
    requires |after| == |before| && after[p] == c + 1
    requires JoinsOnly(before, after, c + 1)
    ensures var seeds' := seeds + [p];
            forall k :: 0 <= k < c + 1 ==>
              seeds'[k] < p + 1 && seeds'[k] < s.size && s.Dense(seeds'[k]) && after[seeds'[k]] == k + 1
    ensures var seeds' := seeds + [p];
            forall k, k' :: 0 <= k < k' < c + 1 ==> seeds'[k] < seeds'[k']
  {
    var seeds' := seeds + [p];
    forall k | 0 <= k < c + 1
      ensures seeds'[k] < p + 1 && seeds'[k] < s.size && s.Dense(seeds'[k]) && after[seeds'[k]] == k + 1
    {
      if k < c { assert seeds'[k] == seeds[k]; assert before[seeds[k]] > 0; }
    }
  }

  lemma SeedBoundKept(s: Space, p: nat, c: nat, before: seq<int>, after: seq<int>,
                      listed: seq<nat>, seeds: seq<nat>)
    requires |before| == s.size && |seeds| == c && LabelsInRange(before, c)
    requires Visited(before, p) && NoiseIsSparse(s, before)
    requires Seeded(s, p, before, seeds) && SeedsFirst(s, before, seeds)
    requires p < s.size && s.Dense(p)
    requires |after| == |before| && after[p] == c + 1
    requires JoinsOnly(before, after, c + 1)
    requires LabelsInRange(after, c + 1)
    requires NoiseIsSparse(s, after)
    ensures var seeds' := seeds + [p];
            forall x: nat :: x < |after| && s.Dense(x) && after[x] > 0 ==> seeds'[after[x] - 1] <= x
  {
    var seeds' := seeds + [p];
    forall x: nat | x < |after| && s.Dense(x) && after[x] > 0
      ensures seeds'[after[x] - 1] <= x
    {
      if after[x] == before[x] {
        assert seeds'[after[x] - 1] == seeds[before[x] - 1];
      }
    }
  }

  /** Every label is noise or a cluster number below the count, and noise is sparse. */
  lemma FinishedRanges(s: Space, c: nat, current: seq<int>, listed: seq<nat>, seeds: seq<nat>, labels: seq<int>)
    requires |current| == s.size && Visited(current, s.size)
    requires LabelsInRange(current, c) && NoiseIsSparse(s, current)
    requires labels == Renumber(current)
    ensures forall x :: 0 <= x < |labels| ==> labels[x] == Noise || 0 <= labels[x] < c
    ensures forall x :: 0 <= x < |labels| && labels[x] == Noise ==> !s.Dense(x)
  {
  }

  /** The sorted core list holds exactly the dense points. */
  lemma FinishedCore(s: Space, c: nat, current: seq<int>, listed: seq<nat>, seeds: seq<nat>, core: seq<nat>)
    requires |current| == s.size && Visited(current, s.size)
    requires LabelsInRange(current, c) && NoiseIsSparse(s, current) && CoreListed(s, current, listed, -1)
    requires multiset(core) == multiset(listed)
    ensures forall x: nat :: x in core <==> x < s.size && s.Dense(x)
  {
    forall x: nat ensures x in core <==> x < s.size && s.Dense(x) {
      assert x in core <==> x in multiset(core);
      assert x in listed <==> x in multiset(listed);
      if x < s.size && s.Dense(x) { assert current[x] != Noise && current[x] != Unclassified; }
    }
  }

  /** Neighbours of core points are never noise; neighbouring core points share a cluster. */
  lemma FinishedNeighbours(s: Space, c: nat, current: seq<int>, listed: seq<nat>, seeds: seq<nat>,
                           labels: seq<int>, core: seq<nat>)
    requires |current| == s.size && Visited(current, s.size)
    requires LabelsInRange(current, c) && NoiseIsSparse(s, current) && Closed(s, current, c + 1)
    requires labels == Renumber(current)
    requires forall x: nat :: x in core <==> x < s.size && s.Dense(x)
    ensures forall x: nat, y: nat :: x in core && y < s.size && s.near(y, x) ==> labels[y] != Noise
    ensures forall x: nat, y: nat :: x in core && y in core && s.near(y, x) ==> labels[x] == labels[y]
    ensures forall x: nat, y: nat :: x in core && y < s.size && s.near(y, x) ==> labels[y] <= labels[x]
  {
    forall x: nat, y: nat | x in core && y < s.size && s.near(y, x)
      ensures labels[y] != Noise && (y in core ==> labels[x] == labels[y]) && labels[y] <= labels[x]
    {
      assert current[x] != Noise && current[x] != Unclassified;
    }
  }

  /** The cluster numbers of core points are exactly 0 .. c-1, and cluster k+1
      has no core point below the seed of cluster k. */
  lemma FinishedIds(s: Space, c: nat, current: seq<int>, listed: seq<nat>, seeds: seq<nat>,
                    labels: seq<int>, core: seq<nat>)
    requires |current| == s.size && Visited(current, s.size)
    requires LabelsInRange(current, c) && NoiseIsSparse(s, current)
    requires |seeds| == c && Seeded(s, s.size, current, seeds) && SeedsFirst(s, current, seeds)
    requires labels == Renumber(current)
    requires forall x: nat :: x in core <==> x < s.size && s.Dense(x)
    ensures forall k :: k in CoreClusterIds(labels, core) <==> 0 <= k < c
    ensures forall y: nat :: y in core && labels[y] > 0 ==>
              exists x: nat :: x in core && x < y && labels[x] == labels[y] - 1
  {
    var ids := CoreClusterIds(labels, core);
    forall k | 0 <= k < c ensures k in ids {
      assert seeds[k] in core;
      assert labels[seeds[k]] == k;
    }
    forall k | k in ids ensures 0 <= k < c {
      var x :| x in core && x < |labels| && labels[x] == k;
      assert current[x] != Noise && current[x] != Unclassified;
    }
    forall y: nat | y in core && labels[y] > 0
      ensures exists x: nat :: x in core && x < y && labels[x] == labels[y] - 1
    {
      assert current[y] != Noise && current[y] != Unclassified;
      var k := current[y] - 1;
      assert seeds[k] <= y;
      assert seeds[k - 1] in core;
      assert seeds[k - 1] < seeds[k];
      assert labels[seeds[k - 1]] == labels[y] - 1;
    }
  }

  /** A clustered point that is not core lies within eps of a core point of its cluster. */
  lemma FinishedBorders(s: Space, c: nat, current: seq<int>, listed: seq<nat>, seeds: seq<nat>,
                        labels: seq<int>, core: seq<nat>)
    requires |current| == s.size && Visited(current, s.size)
    requires LabelsInRange(current, c) && Attached(s, current)
    requires labels == Renumber(current)
    requires forall x: nat :: x in core <==> x < s.size && s.Dense(x)
    ensures forall y: nat :: y < |labels| && labels[y] != Noise && y !in core ==>
              exists x: nat :: x in core && labels[x] == labels[y] && s.near(y, x)
  {
    forall y: nat | y < |labels| && labels[y] != Noise && y !in core
      ensures exists x: nat :: x in core && labels[x] == labels[y] && s.near(y, x)
    {
      assert current[y] != Unclassified;
      var d: nat :| d < |current| && s.Dense(d) && current[d] == current[y] && s.near(y, d);
      assert d in core && labels[d] == labels[y];
    }
  }

  /** Points given one cluster are density-connected, through the point that opened it. */
  lemma FinishedConnected(s: Space, c: nat, current: seq<int>, seeds: seq<nat>, labels: seq<int>)
    requires |current| == s.size && Visited(current, s.size) && LabelsInRange(current, c)
    requires Rooted(s, current, seeds)
    requires labels == Renumber(current)
    ensures forall x: nat, y: nat :: x < |labels| && y < |labels| && labels[x] != Noise && labels[x] == labels[y] ==>
              Connected(s, x, y)
  {
    forall x: nat, y: nat | x < |labels| && y < |labels| && labels[x] != Noise && labels[x] == labels[y]
      ensures Connected(s, x, y)
    {
      assert current[x] > 0 && current[y] == current[x];
      var o := seeds[current[x] - 1];
      assert Reachable(s, o, x) && Reachable(s, o, y);
    }
  }

  /** Core points of one cluster reach each other through dense points. */
  lemma CoresReachable(s: Space, labels: seq<int>, core: seq<nat>)
    requires s.Symmetric()
    requires forall x: nat :: x in core <==> x < s.size && s.Dense(x)
    requires |labels| == s.size
    requires forall x: nat, y: nat :: x < |labels| && y < |labels| && labels[x] != Noise && labels[x] == labels[y] ==>
               Connected(s, x, y)
    requires forall x :: 0 <= x < |labels| && labels[x] == Noise ==> !s.Dense(x)
    ensures forall x: nat, y: nat :: x in core && y in core && labels[x] == labels[y] ==> Reachable(s, x, y)
  {
    forall x: nat, y: nat | x in core && y in core && labels[x] == labels[y]
      ensures Reachable(s, x, y)
    {
      CoreReachable(s, x, y);
    }
  }
}
