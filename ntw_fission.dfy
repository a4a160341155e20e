/** Model of include/reactions/ntw_fission.h (class NtwFission): the
  propensity of fission per cluster and in total, and the weighted walk
  over the network's nodes that picks the node to split.

  set_prop(ic) gives every segment of cluster ic its fission weights (the
  `fin` pair of each edge): an end weighs 1 if it has neighbours and 0 if
  it is free, and each inner node weighs 1 on either edge meeting there.
  The cluster's propensity is the sum of those weights. find_random_node
  walks the nodes of segments 1..mtnum in order, adding up their weights,
  and stops at the first node where the running sum reaches the random
  number k, which is a parameter here. Weights are reals: the rounding of
  the source's floating-point sums is not modelled. */
module NtwFission {
  import opened Edges
  import opened Segments
  import opened Structure

  // ---------------------------------------------------------------------
  // Sums

  /** The sum of a list of weights. */
  function Total(s: seq<FinT>): FinT
  {
    if |s| == 0 then 0.0 else Total(s[..|s| - 1]) + s[|s| - 1]
  }

  /** The running sum of the first n weights. */
  function Cum(s: seq<FinT>, n: nat): FinT
    requires n <= |s|
  {
    if n == 0 then 0.0 else Cum(s, n - 1) + s[n - 1]
  }

  /** The running sum of the first n weights is the sum of the first n. */
  lemma {:induction false} CumTotal(s: seq<FinT>, n: nat)
    requires n <= |s|
    ensures Cum(s, n) == Total(s[..n])
  {
    if n > 0 {
      CumTotal(s, n - 1);
      assert s[..n][..n - 1] == s[..n - 1];
    }
  }

  lemma {:induction false} TotalAppend(a: seq<FinT>, b: seq<FinT>)
    ensures Total(a + b) == Total(a) + Total(b)
  {
    if |b| == 0 {
      assert a + b == a;
    } else {
      var n := |b| - 1;
      assert (a + b)[..|a + b| - 1] == a + b[..n];
      TotalAppend(a, b[..n]);
    }
  }

  /** Adding x to one entry adds x to the sum. */
  lemma {:induction false} TotalBump(s: seq<FinT>, c: nat, x: FinT)
    requires c < |s|
    ensures Total(s[c := s[c] + x]) == Total(s) + x
  {
    var n := |s| - 1;
    var t := s[c := s[c] + x];
    assert t[..n] == if c == n then s[..n] else s[..n][c := s[c] + x];
    if c < n {
      TotalBump(s[..n], c, x);
    }
  }

  // ---------------------------------------------------------------------
  // Weights of one segment

  /** The weight set_end_fin(e) gives end e: 1 if it has neighbours, 0 if
      it is free. */
  function EndWeight(m: Segment, e: nat): (r: FinT)
    requires e == 1 || e == 2
    ensures r == 0.0 <==> m.nn[e] == 0
  {
    if m.nn[e] != 0 then 1.0 else 0.0
  }

  /** EndWeight is the value set_end_fin returns. */
  lemma EndWeightReturned(m: Segment, e: nat)
    requires (e == 1 || e == 2) && |m.g| > 0
    ensures EndWeight(m, e) == m.SetEndFin(e).1
  {
  }

  /** set_prop(ic)'s term for one segment: the two end weights set_end_fin
      returns, and twice the weight 1 set_bulk_fin returns for each of its
      |g|-1 inner nodes. */
  function SegmentProp(m: Segment): (r: FinT)
    requires |m.g| > 0
    ensures 2.0 * ((|m.g| - 1) as real) <= r <= 2.0 * (|m.g| as real)
  {
    EndWeight(m, 1) + EndWeight(m, 2) + 2.0 * ((|m.g| - 1) as real)
  }

  /** set_bulk_fin(a) for a = 0 .. n-1 in turn. */
  function BulkFins(m: Segment, n: nat): (r: Segment)
    requires n < |m.g|
    ensures |r.g| == |m.g| && r.nn == m.nn && r.neig == m.neig && r.neen == m.neen && r.cl == m.cl
  {
    if n == 0 then m else BulkFins(m, n - 1).SetBulkFin(n - 1).0
  }

  /** The weights set_prop(ic) gives edge k of m: the first edge's start
      and the last edge's finish carry the end weights, every other side
      of every edge carries 1. */
  function SetWeights(m: Segment, k: nat): FinPair
    requires k < |m.g|
  {
    [if k == 0 then EndWeight(m, 1) else 1.0, if k + 1 == |m.g| then EndWeight(m, 2) else 1.0]
  }

  /** The segment as set_prop(ic) leaves it: every edge carries the
      weights SetWeights gives it, and nothing else changes. */
  function FinsSet(m: Segment): (r: Segment)
    ensures |r.g| == |m.g| && r.nn == m.nn && r.neig == m.neig && r.neen == m.neen && r.cl == m.cl
  {
    m.(g := seq(|m.g|, k requires 0 <= k < |m.g| => m.g[k].(fin := SetWeights(m, k))))
  }

  /** The calls set_prop(ic) makes on a segment: set_end_fin<1>,
      set_end_fin<2>, then set_bulk_fin(a) for every inner node a. */
  function FinsCalls(m: Segment): (r: Segment)
    requires |m.g| > 0
  {
    BulkFins(m.SetEndFin(1).0.SetEndFin(2).0, |m.g| - 1)
  }

  /** The edge weights after set_bulk_fin(0 .. n-1): 1 on both sides of
      each of the first n inner nodes, as before elsewhere. */
  lemma {:induction false} BulkFinsMeaning(m: Segment, n: nat, k: nat)
    requires n < |m.g| && k < |m.g|
    ensures BulkFins(m, n).g[k].fin[0] == if 1 <= k <= n then 1.0 else m.g[k].fin[0]
    ensures BulkFins(m, n).g[k].fin[1] == if k < n then 1.0 else m.g[k].fin[1]
    ensures BulkFins(m, n).g[k].ind == m.g[k].ind && BulkFins(m, n).g[k].indcl == m.g[k].indcl
    ensures BulkFins(m, n).g[k].cl == m.g[k].cl
  {
    if n > 0 {
      BulkFinsMeaning(m, n - 1, k);
    }
  }

  /** The calls set_prop(ic) makes on a segment leave exactly the weights
      FinsSet describes, and change nothing else. */
  lemma FinsSetCalls(m: Segment)
    requires |m.g| > 0
    ensures FinsCalls(m) == FinsSet(m)
  {
    var m2 := m.SetEndFin(1).0.SetEndFin(2).0;
    var c, f := FinsCalls(m), FinsSet(m);
    forall k | 0 <= k < |m.g|
      ensures c.g[k] == f.g[k]
    {
      BulkFinsMeaning(m2, |m.g| - 1, k);
      assert c.g[k].fin == f.g[k].fin;
    }
    assert c.g == f.g;
  }

  /** What FinsSet does to edge k, side by side. */
  lemma FinsSetMeaning(m: Segment, k: nat)
    requires 0 < |m.g| && k < |m.g|
    ensures FinsSet(m).g[k].fin[0] == if k == 0 then EndWeight(m, 1) else 1.0
    ensures FinsSet(m).g[k].fin[1] == if k + 1 == |m.g| then EndWeight(m, 2) else 1.0
    ensures FinsSet(m).g[k].ind == m.g[k].ind && FinsSet(m).g[k].indcl == m.g[k].indcl
    ensures FinsSet(m).g[k].cl == m.g[k].cl
  {
  }

  /** Setting the weights twice sets them once: they depend only on the
      neighbour counts, which setting them leaves alone. */
  lemma FinsSetIdempotent(m: Segment)
    requires |m.g| > 0
    ensures FinsSet(FinsSet(m)) == FinsSet(m)
  {
    var r, rr := FinsSet(m), FinsSet(FinsSet(m));
    forall k | 0 <= k < |m.g|
      ensures rr.g[k] == r.g[k]
    {
      FinsSetMeaning(m, k);
      FinsSetMeaning(r, k);
      assert rr.g[k].fin == r.g[k].fin;
    }
    assert rr.g == r.g;
  }

  // ---------------------------------------------------------------------
  // The walk of find_random_node

  /** The weight of node a (0 <= a <= |g|) of m in find_random_node's
      walk: end 1 is the first edge's start, end 2 the last edge's finish,
      an inner node both edges meeting there. */
  function NodeWeight(m: Segment, a: nat): FinT
    requires 0 < |m.g| && a <= |m.g|
  {
    if a == 0 then m.g[0].fin[0]
    else if a == |m.g| then m.g[a - 1].fin[1]
    else m.g[a - 1].fin[1] + m.g[a].fin[0]
  }

  /** The weights of the nodes of m, end 1 to end 2. */
  function NodeWeights(m: Segment): (r: seq<FinT>)
    requires 0 < |m.g|
    ensures |r| == |m.g| + 1 && forall a :: 0 <= a <= |m.g| ==> r[a] == NodeWeight(m, a)
  {
    NodesUpTo(m, |m.g| + 1)
  }

  /** The weights of nodes 0 .. j-1 of m. */
  function NodesUpTo(m: Segment, j: nat): (r: seq<FinT>)
    requires 0 < |m.g| && j <= |m.g| + 1
    ensures |r| == j && forall a :: 0 <= a < j ==> r[a] == NodeWeight(m, a)
  {
    if j == 0 then [] else NodesUpTo(m, j - 1) + [NodeWeight(m, j - 1)]
  }

  /** Segments 1..n exist and have edges. */
  predicate Edged(mt: seq<Segment>, n: nat)
  {
    (n == 0 || n < |mt|) && forall w :: 1 <= w <= n ==> |mt[w].g| > 0
  }

  /** The node weights of segments 1..n in the order of the walk. */
  function Walk(mt: seq<Segment>, n: nat): seq<FinT>
    requires Edged(mt, n)
  {
    if n == 0 then [] else Walk(mt, n - 1) + NodeWeights(mt[n])
  }

  /** The position in the walk of node 0 of segment w: segments 1..w-1
      come first, with |g| + 1 nodes each. */
  function Offset(mt: seq<Segment>, w: nat): nat
    requires 1 <= w && Edged(mt, w - 1)
  {
    if w == 1 then 0 else Offset(mt, w - 1) + |mt[w - 1].g| + 1
  }

  /** Segment w's nodes start right after the walk over segments 1..w-1. */
  lemma {:induction false} OffsetLength(mt: seq<Segment>, w: nat)
    requires 1 <= w && Edged(mt, w - 1)
    ensures Offset(mt, w) == |Walk(mt, w - 1)|
  {
    if w > 1 {
      assert Edged(mt, w - 2);
      OffsetLength(mt, w - 1);
    }
  }

  /** The walk stops at position j: the running sum reaches k there and
      nowhere before. */
  predicate Reaches(s: seq<FinT>, k: FinT, j: nat)
  {
    j < |s| && k <= Cum(s, j + 1) && forall i :: 1 <= i <= j ==> Cum(s, i) < k
  }

  /** The walk never stops. */
  predicate Misses(s: seq<FinT>, k: FinT)
  {
    forall i :: 1 <= i <= |s| ==> Cum(s, i) < k
  }

  /** At most one position stops the walk. */
  lemma ReachesOnce(s: seq<FinT>, k: FinT, j: nat, i: nat)
    requires Reaches(s, k, j) && i != j
    ensures !Reaches(s, k, i)
  {
    if i < j {
      assert Cum(s, i + 1) < k;
    } else {
      assert k <= Cum(s, j + 1);
    }
  }

  /** A positive k at most the total weight stops the walk somewhere. */
  lemma WithinTotal(s: seq<FinT>, k: FinT)
    requires 0.0 < k <= Total(s)
    ensures !Misses(s, k)
  {
    CumTotal(s, |s|);
    assert s[..|s|] == s;
  }

  /** For k > 0 the walk stops only at a node of positive weight: a free end
      (weight 0) is never picked. */
  lemma StopHasWeight(s: seq<FinT>, k: FinT, j: nat)
    requires Reaches(s, k, j) && k > 0.0
    ensures s[j] > 0.0
  {
    assert Cum(s, j + 1) == Cum(s, j) + s[j];
    if j > 0 {
      assert Cum(s, j) < k;
    }
  }

  /** The walk over segments 1..w is a prefix of the walk over 1..n. */
  lemma {:induction false} WalkPrefix(mt: seq<Segment>, n: nat, w: nat)
    requires Edged(mt, n) && w <= n
    ensures Edged(mt, w) && |Walk(mt, w)| <= |Walk(mt, n)|
    ensures forall i :: 0 <= i < |Walk(mt, w)| ==> Walk(mt, w)[i] == Walk(mt, n)[i]
  {
    if w < n {
      assert Edged(mt, n - 1);
      WalkPrefix(mt, n - 1, w);
      var p, q := Walk(mt, w), Walk(mt, n - 1);
      assert Walk(mt, n) == q + NodeWeights(mt[n]);
      forall i | 0 <= i < |p|
        ensures p[i] == Walk(mt, n)[i]
      {
        assert p[i] == q[i];
      }
    }
  }

  /** Position Offset(w) + a of the walk over segments 1..n is node a of
      segment w. */
  lemma WalkAt(mt: seq<Segment>, n: nat, w: nat, a: nat)
    requires Edged(mt, n) && 1 <= w <= n && a <= |mt[w].g|
    ensures Offset(mt, w) + a < |Walk(mt, n)| && Walk(mt, n)[Offset(mt, w) + a] == NodeWeight(mt[w], a)
  {
    SegmentInWalk(mt, n, w);
    assert NodeWeights(mt[w])[a] == NodeWeight(mt[w], a);
  }

  // ---------------------------------------------------------------------
  // The total weight of the walk

  /** A list that starts with x, ends with y and holds 2 in between sums
      to x + y + 2 for each inner entry. */
  lemma {:induction false} EndsAndTwos(r: seq<FinT>, x: FinT, y: FinT, j: nat)
    requires 1 <= j < |r| && r[0] == x
    requires forall a :: 0 < a < |r| - 1 ==> r[a] == 2.0
    ensures Total(r[..j]) == x + 2.0 * ((j - 1) as real)
  {
    if j == 1 {
      assert r[..1][..0] == [];
    } else {
      EndsAndTwos(r, x, y, j - 1);
      assert r[..j][..j - 1] == r[..j - 1];
    }
  }

  /** The nodes of a segment whose weights set_prop(ic) has set weigh, in
      total, exactly the segment's term of the propensity. */
  lemma SegmentWeight(m: Segment)
    requires |m.g| > 0
    ensures Total(NodeWeights(FinsSet(m))) == SegmentProp(m)
  {
    var f := FinsSet(m);
    var r := NodeWeights(f);
    var n := |m.g|;
    FinsSetMeaning(m, 0);
    FinsSetMeaning(m, n - 1);
    forall a | 0 < a < n
      ensures r[a] == 2.0
    {
      FinsSetMeaning(m, a - 1);
      FinsSetMeaning(m, a);
    }
    EndsAndTwos(r, EndWeight(m, 1), EndWeight(m, 2), n);
    assert r[..n + 1] == r;
    assert r[..n + 1][..n] == r[..n];
  }

  /** Σ SegmentProp over the segments 1..n that belong to a cluster below
      clnum. */
  function LiveProp(mt: seq<Segment>, n: nat, clnum: nat): FinT
    requires Edged(mt, n)
  {
    if n == 0 then 0.0
    else LiveProp(mt, n - 1, clnum) + (if mt[n].cl < clnum then SegmentProp(mt[n]) else 0.0)
  }

  /** Segments 1..n of mt1 are those of mt with their weights set, and
      each belongs to a cluster below clnum. */
  predicate WeightsSet(mt: seq<Segment>, mt1: seq<Segment>, n: nat, clnum: nat)
    requires Edged(mt, n)
  {
    n == 0 || (WeightsSet(mt, mt1, n - 1, clnum) && n < |mt1| && mt[n].cl < clnum && mt1[n] == FinsSet(mt[n]))
  }

  /** WeightsSet from the facts segment by segment. */
  lemma {:induction false} WeightsSetAll(mt: seq<Segment>, mt1: seq<Segment>, n: nat, clnum: nat)
    requires Edged(mt, n) && (n == 0 || n < |mt1|)
    requires forall w :: 1 <= w <= n ==> mt[w].cl < clnum && mt1[w] == FinsSet(mt[w])
    ensures WeightsSet(mt, mt1, n, clnum)
  {
    if n > 0 {
      assert Edged(mt, n - 1);
      WeightsSetAll(mt, mt1, n - 1, clnum);
    }
  }

  /** Once every segment 1..n has its weights set, the walk over them weighs
      the sum of their propensity terms. */
  lemma {:induction false} WalkWeight(mt: seq<Segment>, mt1: seq<Segment>, n: nat, clnum: nat)
    requires Edged(mt, n) && Edged(mt1, n) && WeightsSet(mt, mt1, n, clnum)
    ensures Total(Walk(mt1, n)) == LiveProp(mt, n, clnum)
  {
    if n > 0 {
      assert Edged(mt, n - 1) && Edged(mt1, n - 1);
      WalkWeight(mt, mt1, n - 1, clnum);
      WalkStep(mt, mt1, n, clnum);
    } else {
      assert Walk(mt1, n) == [];
      assert Total(Walk(mt1, n)) == 0.0 == LiveProp(mt, n, clnum);
    }
  }

  /** The walk's step to segment n adds that segment's propensity term to
      both sides. */
  lemma WalkStep(mt: seq<Segment>, mt1: seq<Segment>, n: nat, clnum: nat)
    requires 0 < n && Edged(mt, n) && Edged(mt, n - 1) && Edged(mt1, n) && Edged(mt1, n - 1)
    requires mt[n].cl < clnum && mt1[n] == FinsSet(mt[n])
    requires Total(Walk(mt1, n - 1)) == LiveProp(mt, n - 1, clnum)
    ensures Total(Walk(mt1, n)) == LiveProp(mt, n, clnum)
  {
    var front, last := Walk(mt1, n - 1), NodeWeights(mt1[n]);
    assert Walk(mt1, n) == front + last;
    TotalAppend(front, last);
    SegmentWeight(mt[n]);
  }

  // ---------------------------------------------------------------------
  // Clusters

  /** The segments listed exist and have edges. */
  predicate AllEdged(mt: seq<Segment>, ws: seq<nat>)
  {
    forall i :: 0 <= i < |ws| ==> ws[i] < |mt| && |mt[ws[i]].g| > 0
  }

  /** Every cluster list names segments with edges. */
  predicate ClustersEdged(mt: seq<Segment>, clmt: seq<seq<nat>>)
  {
    forall c :: 0 <= c < |clmt| ==> AllEdged(mt, clmt[c])
  }

  /** The propensity set_prop(ic) computes for the cluster whose segments
      are ws. */
  function ClusterProp(mt: seq<Segment>, ws: seq<nat>): FinT
    requires AllEdged(mt, ws)
  {
    if |ws| == 0 then 0.0
    else
      var n := |ws| - 1;
      ClusterProp(mt, ws[..n]) + SegmentProp(mt[ws[n]])
  }

  /** The propensities of the clusters listed in clmt. */
  function ClusterProps(mt: seq<Segment>, clmt: seq<seq<nat>>): (r: seq<FinT>)
    requires ClustersEdged(mt, clmt)
    ensures |r| == |clmt| && forall c :: 0 <= c < |clmt| ==> r[c] == ClusterProp(mt, clmt[c])
  {
    seq(|clmt|, c requires 0 <= c < |clmt| && ClustersEdged(mt, clmt) => ClusterProp(mt, clmt[c]))
  }

  /** The segments of mt and r agree in all that the propensities depend
      on. */
  predicate SameShape(mt: seq<Segment>, r: seq<Segment>)
  {
    |r| == |mt| && forall w :: 0 <= w < |mt| ==> |r[w].g| == |mt[w].g| && r[w].nn == mt[w].nn && r[w].cl == mt[w].cl
  }

  /** Propensities depend on the shape of the segments only, not on their
      weights. */
  lemma {:induction false} ClusterPropShape(mt: seq<Segment>, r: seq<Segment>, ws: seq<nat>)
    requires SameShape(mt, r) && AllEdged(mt, ws)
    ensures AllEdged(r, ws) && ClusterProp(r, ws) == ClusterProp(mt, ws)
  {
    if |ws| > 0 {
      var n := |ws| - 1;
      ClusterPropShape(mt, r, ws[..n]);
      assert r[ws[n]].nn == mt[ws[n]].nn;
    }
  }

  /** The segments after set_prop(ic) for a cluster whose segments are ws:
      each one's weights set, in list order. */
  function FinsAll(mt: seq<Segment>, ws: seq<nat>): (r: seq<Segment>)
    requires forall i :: 0 <= i < |ws| ==> ws[i] < |mt|
    ensures |r| == |mt|
  {
    if |ws| == 0 then mt
    else
      var n := |ws| - 1;
      var f := FinsAll(mt, ws[..n]);
      f[ws[n] := FinsSet(f[ws[n]])]
  }

  /** Setting weights leaves the shape of every segment as it was. */
  lemma {:induction false} FinsAllShape(mt: seq<Segment>, ws: seq<nat>)
    requires forall i :: 0 <= i < |ws| ==> ws[i] < |mt|
    ensures SameShape(mt, FinsAll(mt, ws))
  {
    if |ws| > 0 {
      FinsAllShape(mt, ws[..|ws| - 1]);
    }
  }

  /** After set_prop(ic) the segments listed have their weights set and all
      others are as they were. */
  lemma {:induction false} FinsAllMeaning(mt: seq<Segment>, ws: seq<nat>, w: nat)
    requires AllEdged(mt, ws) && w < |mt|
    ensures FinsAll(mt, ws)[w] == if w in ws then FinsSet(mt[w]) else mt[w]
  {
    if |ws| > 0 {
      var n := |ws| - 1;
      FinsAllMeaning(mt, ws[..n], w);
      assert w in ws <==> w in ws[..n] || w == ws[n] by {
        assert ws == ws[..n] + [ws[n]];
      }
      if w == ws[n] && w in ws[..n] {
        FinsSetIdempotent(mt[w]);
      }
    } else {
      assert FinsAll(mt, ws) == mt;
    }
  }

  /** The segments after set_prop(ic) for the clusters 0..c-1 in turn. */
  function FinsClusters(mt: seq<Segment>, clmt: seq<seq<nat>>, c: nat): (r: seq<Segment>)
    requires c <= |clmt| && ClustersEdged(mt, clmt)
    ensures |r| == |mt|
  {
    if c == 0 then mt
    else
      var f := FinsClusters(mt, clmt, c - 1);
      assert AllEdged(mt, clmt[c - 1]);
      FinsAll(f, clmt[c - 1])
  }

  /** set_prop() leaves the shape of every segment as it was. */
  lemma {:induction false} FinsClustersShape(mt: seq<Segment>, clmt: seq<seq<nat>>, c: nat)
    requires c <= |clmt| && ClustersEdged(mt, clmt)
    ensures SameShape(mt, FinsClusters(mt, clmt, c))
  {
    if c > 0 {
      FinsClustersShape(mt, clmt, c - 1);
      assert AllEdged(mt, clmt[c - 1]);
      FinsAllShape(FinsClusters(mt, clmt, c - 1), clmt[c - 1]);
    }
  }

  /** Segment w is listed in one of the clusters 0..c-1. */
  predicate Listed(clmt: seq<seq<nat>>, c: nat, w: nat)
    requires c <= |clmt|
  {
    c > 0 && (Listed(clmt, c - 1, w) || w in clmt[c - 1])
  }

  /** A segment in cluster list cl < c is listed in one of 0..c-1. */
  lemma {:induction false} ListedAt(clmt: seq<seq<nat>>, c: nat, cl: nat, w: nat)
    requires cl < c <= |clmt| && w in clmt[cl]
    ensures Listed(clmt, c, w)
  {
    if cl < c - 1 {
      ListedAt(clmt, c - 1, cl, w);
    }
  }

  /** After set_prop() every segment of some cluster has its weights set,
      and no other segment changes. */
  lemma {:induction false} FinsClustersMeaning(mt: seq<Segment>, clmt: seq<seq<nat>>, c: nat, w: nat)
    requires c <= |clmt| && ClustersEdged(mt, clmt) && w < |mt|
    ensures Listed(clmt, c, w) ==> |mt[w].g| > 0 && FinsClusters(mt, clmt, c)[w] == FinsSet(mt[w])
    ensures !Listed(clmt, c, w) ==> FinsClusters(mt, clmt, c)[w] == mt[w]
  {
    if c > 0 {
      var f := FinsClusters(mt, clmt, c - 1);
      var ws := clmt[c - 1];
      FinsClustersMeaning(mt, clmt, c - 1, w);
      assert AllEdged(f, ws) by {
        FinsClustersShape(mt, clmt, c - 1);
        ClusterPropShape(mt, f, ws);
      }
      assert FinsClusters(mt, clmt, c) == FinsAll(f, ws);
      FinsAllMeaning(f, ws, w);
      if w in ws && Listed(clmt, c - 1, w) {
        FinsSetIdempotent(mt[w]);
      }
    } else {
      assert FinsClusters(mt, clmt, c) == mt && !Listed(clmt, c, w);
    }
  }

  /** clmt as populate_cluster_vectors builds it lists segments 1..n
      only, each under its own cluster. */
  lemma {:induction false} ClusterSegmentsMembers(mt: seq<Segment>, n: nat, clnum: nat)
    requires n == 0 || n < |mt|
    ensures forall c, i :: 0 <= c < clnum && 0 <= i < |ClusterSegments(mt, n, clnum)[c]| ==>
      1 <= ClusterSegments(mt, n, clnum)[c][i] <= n
    ensures forall w :: 1 <= w <= n && mt[w].cl < clnum ==> w in ClusterSegments(mt, n, clnum)[mt[w].cl]
  {
    if n > 0 {
      ClusterSegmentsMembers(mt, n - 1, clnum);
    }
  }

  /** Adding up the cluster propensities of clmt as populate_cluster_vectors
      builds it gives the propensity terms of all segments in a cluster
      below clnum. */
  lemma {:induction false} ClusterPartition(mt: seq<Segment>, n: nat, clnum: nat)
    requires Edged(mt, n)
    ensures ClustersEdged(mt, ClusterSegments(mt, n, clnum))
    ensures Total(ClusterProps(mt, ClusterSegments(mt, n, clnum))) == LiveProp(mt, n, clnum)
  {
    if n == 0 {
      ClusterBase(mt, clnum);
    } else {
      assert Edged(mt, n - 1);
      ClusterPartition(mt, n - 1, clnum);
      ClusterStep(mt, n, clnum);
    }
  }

  /** Before any segment is listed every cluster weighs nothing. */
  lemma ClusterBase(mt: seq<Segment>, clnum: nat)
    ensures ClustersEdged(mt, ClusterSegments(mt, 0, clnum))
    ensures Total(ClusterProps(mt, ClusterSegments(mt, 0, clnum))) == 0.0
  {
    var cs := ClusterSegments(mt, 0, clnum);
    assert cs == Blank(clnum, []);
    var r := ClusterProps(mt, cs);
    forall c | 0 <= c < |r|
      ensures r[c] == 0.0
    {
      assert cs[c] == [];
    }
    ZerosTotal(r);
  }

  /** Listing segment n adds its term to the cluster propensities when its
      cluster is below clnum, and nothing otherwise. */
  lemma ClusterStep(mt: seq<Segment>, n: nat, clnum: nat)
    requires 0 < n && Edged(mt, n)
    requires ClustersEdged(mt, ClusterSegments(mt, n - 1, clnum))
    ensures ClustersEdged(mt, ClusterSegments(mt, n, clnum))
    ensures Total(ClusterProps(mt, ClusterSegments(mt, n, clnum)))
      == Total(ClusterProps(mt, ClusterSegments(mt, n - 1, clnum))) + (if mt[n].cl < clnum then SegmentProp(mt[n]) else 0.0)
  {
    var before := ClusterSegments(mt, n - 1, clnum);
    assert ClusterSegments(mt, n, clnum) == PushAt(before, mt[n].cl, n);
    PushProp(mt, before, mt[n].cl, n);
  }

  /** Appending segment n to cluster cl adds its term to that cluster's
      propensity, and so to the total; a cluster past the end of the
      vector takes nothing. */
  lemma PushProp(mt: seq<Segment>, clmt: seq<seq<nat>>, cl: nat, n: nat)
    requires ClustersEdged(mt, clmt) && n < |mt| && |mt[n].g| > 0
    ensures ClustersEdged(mt, PushAt(clmt, cl, n))
    ensures Total(ClusterProps(mt, PushAt(clmt, cl, n)))
      == Total(ClusterProps(mt, clmt)) + (if cl < |clmt| then SegmentProp(mt[n]) else 0.0)
  {
    var after := PushAt(clmt, cl, n);
    if cl < |clmt| {
      var bp, x := ClusterProps(mt, clmt), SegmentProp(mt[n]);
      assert after == clmt[cl := clmt[cl] + [n]];
      ClusterPropsPush(mt, clmt, cl, n);
      assert ClusterProps(mt, after) == bp[cl := bp[cl] + x];
      TotalBump(bp, cl, x);
    } else {
      assert after == clmt;
    }
  }

  /** Appending segment n to cluster cl adds its term to that cluster's
      propensity only. */
  lemma ClusterPropsPush(mt: seq<Segment>, clmt: seq<seq<nat>>, cl: nat, n: nat)
    requires ClustersEdged(mt, clmt) && cl < |clmt| && n < |mt| && |mt[n].g| > 0
    ensures ClustersEdged(mt, clmt[cl := clmt[cl] + [n]])
    ensures ClusterProps(mt, clmt[cl := clmt[cl] + [n]])
      == ClusterProps(mt, clmt)[cl := ClusterProps(mt, clmt)[cl] + SegmentProp(mt[n])]
  {
    var ws := clmt[cl] + [n];
    var after := clmt[cl := ws];
    assert AllEdged(mt, ws);
    assert ws[..|ws| - 1] == clmt[cl];
    assert ClusterProp(mt, ws) == ClusterProp(mt, clmt[cl]) + SegmentProp(mt[n]);
  }

  /** A list of zeros sums to zero. */
  lemma {:induction false} ZerosTotal(r: seq<FinT>)
    requires forall i :: 0 <= i < |r| ==> r[i] == 0.0
    ensures Total(r) == 0.0
  {
    if |r| > 0 {
      ZerosTotal(r[..|r| - 1]);
    }
  }

  /** The end-to-end property: on a network whose clmt is the one
      populate_cluster_vectors builds and whose segments all belong to a
      cluster below clnum, the total set_prop() returns is exactly the
      total weight find_random_node walks over afterwards. */
  lemma PropensityIsWalkWeight(mt: seq<Segment>, mtnum: nat, clnum: nat)
    requires Edged(mt, mtnum) && forall w :: 1 <= w <= mtnum ==> mt[w].cl < clnum
    ensures ClustersEdged(mt, ClusterSegments(mt, mtnum, clnum))
    ensures Edged(FinsClusters(mt, ClusterSegments(mt, mtnum, clnum), clnum), mtnum)
    ensures Total(ClusterProps(mt, ClusterSegments(mt, mtnum, clnum)))
      == Total(Walk(FinsClusters(mt, ClusterSegments(mt, mtnum, clnum), clnum), mtnum))
  {
    var cs := ClusterSegments(mt, mtnum, clnum);
    ClusterPartition(mt, mtnum, clnum);
    ClusterSegmentsMembers(mt, mtnum, clnum);
    var after := FinsClusters(mt, cs, clnum);
    forall w | 1 <= w <= mtnum
      ensures after[w] == FinsSet(mt[w])
    {
      FinsClustersMeaning(mt, cs, clnum, w);
      ListedAt(cs, clnum, mt[w].cl, w);
    }
    WeightsSetAll(mt, after, mtnum, clnum);
    WalkWeight(mt, after, mtnum, clnum);
  }

  // ---------------------------------------------------------------------
  // Pieces of the walk

  /** find_random_node's scan of one segment's nodes, the running sum
      starting at base: it stops at the first node a where the sum reaches
      k, or passes them all and returns the sum over the whole segment. */
  method ScanNodes(m: Segment, k: FinT, base: FinT) returns (found: bool, a: nat, ksum: FinT)
    requires |m.g| > 0
    ensures found ==> a <= |m.g| && k <= base + Cum(NodeWeights(m), a + 1)
    ensures found ==> forall i :: 1 <= i <= a ==> base + Cum(NodeWeights(m), i) < k
    ensures !found ==> ksum == base + Cum(NodeWeights(m), |m.g| + 1)
    ensures !found ==> forall i :: 1 <= i <= |m.g| + 1 ==> base + Cum(NodeWeights(m), i) < k
  {
    ghost var s := NodeWeights(m);
    var g := m.g;
    a := 0;
    ksum := base + g[a].fin[0];
    if k <= ksum {
      return true, a, ksum;
    }
    while a < |g| - 1
      invariant a < |g| && ksum == base + Cum(s, a + 1)
      invariant forall i :: 1 <= i <= a + 1 ==> base + Cum(s, i) < k
    {
      ksum := ksum + g[a].fin[1];
      a := a + 1;
      ksum := ksum + g[a].fin[0];
      if k <= ksum {
        return true, a, ksum;
      }
    }
    ksum := ksum + g[a].fin[1];
    if k <= ksum {
      a := a + 1;
      return true, a, ksum;
    }
    return false, a, ksum;
  }

  /** The fission reaction slot of a network: the propensity per cluster
      and its total. */
  class FissionSlot {
    const host: Network
    /** Propensities per cluster. */
    var pr: seq<FinT>
    /** Total propensity. */
    var prTotal: FinT

    constructor (host: Network)
      ensures this.host == host && pr == [] && prTotal == 0.0
    {
      this.host := host;
      pr, prTotal := [], 0.0;
    }

    /** The body of set_prop(ic)'s loop for segment w: both end weights,
        then every inner node's; the value added to the propensity is the
        segment's term. */
    method SetSegmentFins(w: nat) returns (p: FinT)
      requires w < |host.mt| && |host.mt[w].g| > 0
      modifies host`mt
      ensures host.mt == old(host.mt)[w := FinsSet(old(host.mt)[w])]
      ensures p == SegmentProp(old(host.mt)[w])
    {
      ghost var m0 := host.mt[w];
      var e1 := host.mt[w].SetEndFin(1);
      host.mt := host.mt[w := e1.0];
      var e2 := host.mt[w].SetEndFin(2);
      host.mt := host.mt[w := e2.0];
      p := e1.1 + e2.1;
      ghost var m2 := host.mt[w];
      assert e2.1 == EndWeight(m0, 2);
      var a := 0;
      while a < |host.mt[w].g| - 1
        invariant a < |m0.g| && w < |host.mt|
        invariant host.mt == old(host.mt)[w := BulkFins(m2, a)]
        invariant p == EndWeight(m0, 1) + EndWeight(m0, 2) + 2.0 * (a as real)
      {
        var b := host.mt[w].SetBulkFin(a);
        host.mt := host.mt[w := b.0];
        p := p + 2.0 * b.1;
        a := a + 1;
      }
      FinsSetCalls(m0);
    }

    /** `set_prop(ic)`: pr[ic] becomes the propensity of cluster ic, and
        every segment of the cluster has its weights set. */
    method SetPropCluster(ic: nat)
      requires ic < |pr| && ic < |host.clmt| && AllEdged(host.mt, host.clmt[ic])
      modifies this`pr, host`mt
      ensures pr == old(pr)[ic := ClusterProp(old(host.mt), host.clmt[ic])]
      ensures host.mt == FinsAll(old(host.mt), host.clmt[ic])
    {
      ghost var mt0 := host.mt;
      var ws := host.clmt[ic];
      pr := pr[ic := 0.0];
      var i := 0;
      while i < |ws|
        invariant i <= |ws| && host.clmt[ic] == ws
        invariant AllEdged(mt0, ws[..i])
        invariant host.mt == FinsAll(mt0, ws[..i])
        invariant |pr| == |old(pr)| && pr[ic] == ClusterProp(mt0, ws[..i])
        invariant forall j :: 0 <= j < |pr| && j != ic ==> pr[j] == old(pr)[j]
      {
        AddClusterSegment(ic, mt0, ws, i);
        i := i + 1;
      }
      assert ws[..i] == ws;
    }

    /** One pass of set_prop(ic)'s loop: segment ws[i] has its weights set
        and its term is added to pr[ic]. */
    method AddClusterSegment(ic: nat, ghost mt0: seq<Segment>, ws: seq<nat>, i: nat)
      requires ic < |pr| && i < |ws| && AllEdged(mt0, ws) && AllEdged(mt0, ws[..i])
      requires host.mt == FinsAll(mt0, ws[..i]) && pr[ic] == ClusterProp(mt0, ws[..i])
      modifies this`pr, host`mt
      ensures AllEdged(mt0, ws[..i + 1]) && host.mt == FinsAll(mt0, ws[..i + 1])
      ensures |pr| == |old(pr)| && pr[ic] == ClusterProp(mt0, ws[..i + 1])
      ensures forall j :: 0 <= j < |pr| && j != ic ==> pr[j] == old(pr)[j]
    {
      ClusterLoopStep(mt0, ws, i, host.mt);
      var p := SetSegmentFins(ws[i]);
      pr := pr[ic := pr[ic] + p];
    }

    /** `set_prop()`: pr is resized to clnum and holds every cluster's
        propensity, the segments of every cluster have their weights set,
        and the total is returned (prTotal is left alone). */
    method SetProp() returns (total: FinT)
      requires host.clnum <= |host.clmt| && ClustersEdged(host.mt, host.clmt)
      modifies this`pr, host`mt
      ensures |pr| == host.clnum
      ensures forall c :: 0 <= c < host.clnum ==> pr[c] == ClusterProp(old(host.mt), host.clmt[c])
      ensures host.mt == FinsClusters(old(host.mt), host.clmt, host.clnum)
      ensures total == Total(pr)
    {
      ghost var mt0, clmt := host.mt, host.clmt;
      var clnum := host.clnum;
      pr := Resize(pr, clnum, 0.0);
      var ic := 0;
      while ic < clnum
        invariant ic <= clnum && |pr| == clnum
        invariant host.mt == FinsClusters(mt0, clmt, ic)
        invariant forall c :: 0 <= c < ic ==> pr[c] == ClusterProp(mt0, clmt[c])
      {
        SetPropNext(mt0, clmt, clnum, ic);
        ic := ic + 1;
      }
      total := Total(pr);
    }

    /** One pass of set_prop()'s loop: set_prop(ic) on the segments as the
        clusters before left them. */
    method SetPropNext(ghost mt0: seq<Segment>, ghost clmt: seq<seq<nat>>, clnum: nat, ic: nat)
      requires host.clmt == clmt && ic < clnum <= |clmt| && clnum == |pr| && ClustersEdged(mt0, clmt)
      requires host.mt == FinsClusters(mt0, clmt, ic)
      requires forall c :: 0 <= c < ic ==> pr[c] == ClusterProp(mt0, clmt[c])
      modifies this`pr, host`mt
      ensures |pr| == clnum && host.mt == FinsClusters(mt0, clmt, ic + 1)
      ensures forall c :: 0 <= c < ic + 1 ==> pr[c] == ClusterProp(mt0, clmt[c])
    {
      ClustersLoopStep(mt0, clmt, ic, host.mt);
      SetPropCluster(ic);
    }

    /** `update_prop(c)`: pr is resized to clnum (new entries 0); cluster c,
        if below clnum, gets its propensity and weights set anew; prTotal
        becomes the sum. */
    method UpdateProp(c: nat)
      requires c < host.clnum ==> c < |host.clmt| && AllEdged(host.mt, host.clmt[c])
      modifies this`pr, this`prTotal, host`mt
      ensures pr == if c < host.clnum
        then Resize(old(pr), host.clnum, 0.0)[c := ClusterProp(old(host.mt), host.clmt[c])]
        else Resize(old(pr), host.clnum, 0.0)
      ensures host.mt == if c < host.clnum then FinsAll(old(host.mt), host.clmt[c]) else old(host.mt)
      ensures prTotal == Total(pr)
    {
      pr := Resize(pr, host.clnum, 0.0);
      if c < host.clnum {
        SetPropCluster(c);
      }
      prTotal := Total(pr);
    }

    /** `find_random_node`: with k the random number drawn in (0, prTotal],
        the walk over the nodes of segments 1..mtnum stops at node a of
        segment w, the first node where the running sum of the weights
        reaches k; found is false if the walk never gets there. */
    method FindRandomNode(k: FinT) returns (found: bool, w: nat, a: nat)
      requires Edged(host.mt, host.mtnum)
      ensures WalkOutcome(host.mt, host.mtnum, k, found, w, a)
    {
      found, w, a := WalkNodes(host.mt, host.mtnum, k);
    }
  }

  /** What find_random_node promises for the random number k: when it
      reports a node (a of segment w), the walk over segments 1..n stops
      there; when it reports none, the walk never stops; and a k in
      (0, total weight] always picks a node of positive weight. */
  predicate WalkOutcome(mt: seq<Segment>, n: nat, k: FinT, found: bool, w: nat, a: nat)
    requires Edged(mt, n)
  {
    (found ==> 1 <= w <= n && a <= |mt[w].g| && Reaches(Walk(mt, n), k, Offset(mt, w) + a))
    && (!found ==> Misses(Walk(mt, n), k))
    && (0.0 < k <= Total(Walk(mt, n)) ==> found && NodeWeight(mt[w], a) > 0.0)
  }

  /** The walk of find_random_node over the nodes of segments 1..n of mt. */
  method WalkNodes(mt: seq<Segment>, n: nat, k: FinT) returns (found: bool, w: nat, a: nat)
    requires Edged(mt, n)
    ensures WalkOutcome(mt, n, k, found, w, a)
  {
    ghost var s := Walk(mt, n);
    var ksum: FinT := 0.0;
    found, w, a := false, 1, 0;
    while w <= n
      invariant 1 <= w <= n + 1 && Edged(mt, w - 1)
      invariant MissesUpTo(s, k, Offset(mt, w)) && ksum == Cum(s, Offset(mt, w))
    {
      SegmentInWalk(mt, n, w);
      var hit, at, sum := VisitSegment(s, Offset(mt, w), mt[w], k, ksum);
      if hit {
        found, a := true, at;
        HitOutcome(mt, n, k, w, a);
        return;
      }
      a := at;
      ksum := sum;
      w := w + 1;
    }
    MissOutcome(mt, n, k, w, a);
  }

  /** The walk stopping at node a of segment w is the outcome reported as
      found. */
  lemma HitOutcome(mt: seq<Segment>, n: nat, k: FinT, w: nat, a: nat)
    requires Edged(mt, n) && 1 <= w <= n && a <= |mt[w].g|
    requires Reaches(Walk(mt, n), k, Offset(mt, w) + a)
    ensures WalkOutcome(mt, n, k, true, w, a)
  {
    PicksWeighted(mt, n, w, a, k);
    if 0.0 < k <= Total(Walk(mt, n)) {
      assert NodeWeight(mt[w], a) > 0.0;
    }
  }

  /** No running sum over the whole walk reaching k is the outcome reported
      as not found. */
  lemma MissOutcome(mt: seq<Segment>, n: nat, k: FinT, w: nat, a: nat)
    requires Edged(mt, n) && w == n + 1 && MissesUpTo(Walk(mt, n), k, Offset(mt, w))
    ensures WalkOutcome(mt, n, k, false, w, a)
  {
    var s := Walk(mt, n);
    OffsetLength(mt, w);
    assert Misses(s, k);
    if 0.0 < k <= Total(s) {
      WithinTotal(s, k);
    }
  }

  /** No running sum of the first j weights reaches k. */
  predicate MissesUpTo(s: seq<FinT>, k: FinT, j: nat)
  {
    j <= |s| && forall i :: 1 <= i <= j ==> Cum(s, i) < k
  }

  /** t occurs in s from position off on. */
  predicate Stretch(s: seq<FinT>, off: nat, t: seq<FinT>)
  {
    off + |t| <= |s| && forall i :: 0 <= i < |t| ==> s[off + i] == t[i]
  }

  /** The running sums over a stretch t of s that starts at off continue
      from the running sum at off. */
  lemma {:induction false} CumShift(s: seq<FinT>, off: nat, t: seq<FinT>, i: nat)
    requires Stretch(s, off, t) && i <= |t|
    ensures Cum(s, off + i) == Cum(s, off) + Cum(t, i)
  {
    if i > 0 {
      CumShift(s, off, t, i - 1);
      assert s[off + (i - 1)] == t[i - 1];
    }
  }

  /** Segment w's nodes form the stretch of the walk from Offset(w) to
      Offset(w + 1). */
  lemma SegmentInWalk(mt: seq<Segment>, n: nat, w: nat)
    requires Edged(mt, n) && 1 <= w <= n
    ensures Edged(mt, w - 1) && Edged(mt, w)
    ensures Offset(mt, w + 1) == Offset(mt, w) + |mt[w].g| + 1 <= |Walk(mt, n)|
    ensures Stretch(Walk(mt, n), Offset(mt, w), NodeWeights(mt[w]))
  {
    assert Edged(mt, w - 1);
    WalkPrefix(mt, n, w);
    var s, o, t, p := Walk(mt, n), Offset(mt, w), NodeWeights(mt[w]), Walk(mt, w);
    assert p == Walk(mt, w - 1) + t;
    OffsetLength(mt, w);
    forall a | 0 <= a < |t|
      ensures s[o + a] == t[a]
    {
      assert p[o + a] == t[a];
    }
  }

  /** One pass of find_random_node's outer loop: the scan of segment m's
      nodes, which sit at positions off .. off + |m.g| of the walk s, with
      the running sum carried over from the nodes before. */
  method VisitSegment(ghost s: seq<FinT>, ghost off: nat, m: Segment, k: FinT, ksum: FinT) returns (hit: bool, a: nat, sum: FinT)
    requires 0 < |m.g| && Stretch(s, off, NodeWeights(m))
    requires MissesUpTo(s, k, off) && ksum == Cum(s, off)
    ensures hit ==> a <= |m.g| && Reaches(s, k, off + a) && (0.0 < k ==> NodeWeight(m, a) > 0.0)
    ensures !hit ==> MissesUpTo(s, k, off + |m.g| + 1) && sum == Cum(s, off + |m.g| + 1)
  {
    ghost var t := NodeWeights(m);
    hit, a, sum := ScanNodes(m, k, ksum);
    forall i | 0 <= i <= |t|
      ensures Cum(s, off + i) == ksum + Cum(t, i)
    {
      CumShift(s, off, t, i);
    }
    if hit {
      forall i | 1 <= i <= off + a
        ensures Cum(s, i) < k
      {
        if off < i {
          assert Cum(s, off + (i - off)) == ksum + Cum(t, i - off);
        }
      }
      assert Cum(s, off + (a + 1)) == ksum + Cum(t, a + 1);
      if 0.0 < k {
        StopHasWeight(s, k, off + a);
      }
    } else {
      forall i | 1 <= i <= off + |t|
        ensures Cum(s, i) < k
      {
        if off < i {
          assert Cum(s, off + (i - off)) == ksum + Cum(t, i - off);
        }
      }
    }
  }

  /** A walk stopped by k > 0 stops at a node of positive weight. */
  lemma PicksWeighted(mt: seq<Segment>, n: nat, w: nat, a: nat, k: FinT)
    requires Edged(mt, n) && 1 <= w <= n && a <= |mt[w].g|
    requires Reaches(Walk(mt, n), k, Offset(mt, w) + a)
    ensures 0.0 < k ==> NodeWeight(mt[w], a) > 0.0
  {
    WalkAt(mt, n, w, a);
    if 0.0 < k {
      StopHasWeight(Walk(mt, n), k, Offset(mt, w) + a);
    }
  }

  lemma ClusterLoopStep(mt0: seq<Segment>, ws: seq<nat>, i: nat, f: seq<Segment>)
    requires i < |ws| && AllEdged(mt0, ws) && AllEdged(mt0, ws[..i]) && f == FinsAll(mt0, ws[..i])
    ensures AllEdged(mt0, ws[..i + 1]) && ws[i] < |f| && |f[ws[i]].g| > 0
    ensures FinsAll(mt0, ws[..i + 1]) == f[ws[i] := FinsSet(f[ws[i]])]
    ensures ClusterProp(mt0, ws[..i + 1]) == ClusterProp(mt0, ws[..i]) + SegmentProp(f[ws[i]])
  {
    assert ws[..i + 1][..i] == ws[..i];
    FinsAllShape(mt0, ws[..i]);
    SegmentPropShape(f[ws[i]], mt0[ws[i]]);
  }

  /** One pass of set_prop()'s loop: cluster ic's segments have edges in
      the segments as the clusters before left them, its propensity is
      unchanged by them, and its pass extends FinsClusters by one cluster. */
  lemma ClustersLoopStep(mt0: seq<Segment>, clmt: seq<seq<nat>>, ic: nat, f: seq<Segment>)
    requires ic < |clmt| && ClustersEdged(mt0, clmt) && f == FinsClusters(mt0, clmt, ic)
    ensures AllEdged(f, clmt[ic]) && FinsClusters(mt0, clmt, ic + 1) == FinsAll(f, clmt[ic])
    ensures ClusterProp(f, clmt[ic]) == ClusterProp(mt0, clmt[ic])
  {
    FinsClustersShape(mt0, clmt, ic);
    ClusterPropShape(mt0, f, clmt[ic]);
  }

  /** Segments with the same edge count and neighbour counts have the same
      propensity term. */
  lemma SegmentPropShape(m: Segment, m1: Segment)
    requires |m.g| == |m1.g| > 0 && m.nn == m1.nn
    ensures SegmentProp(m) == SegmentProp(m1)
  {
  }

  /** update_prop(c) moves the total by the change of cluster c's
      propensity alone. */
  lemma UpdateMovesTotal(pr: seq<FinT>, c: nat, x: FinT)
    requires c < |pr|
    ensures Total(pr[c := x]) == Total(pr) - pr[c] + x
  {
    TotalBump(pr, c, x - pr[c]);
    assert pr[c := pr[c] + (x - pr[c])] == pr[c := x];
  }
}

