/** Model of include/structure.h: the network of segments and the
  bookkeeping vectors rebuilt from it.

  The network object of the source is built by class inheritance
  (Structure, then CoreTransformer, AbilityForFission and AbilityForFusion
  on top of it).  Here one class, `Network`, holds all its fields; the
  members of structure.h are its methods, and the members of the derived
  headers are methods of their own modules taking the network as argument.

  Index 0 of `mt` is the mock segment that makes segment indices 1-based;
  the live segments are mt[1..mtnum]. */
module Structure {
  import opened Edges
  import opened Segments

  /** Minimal length of a segment that can bend into a cycle. */
  const MinLoopLength: nat := 2

  /** Total node numbers by degree: nn[0] for degree 1, nn[1] for degree 2,
      nn[2] for degree 3. */
  type NodeCounts = s: seq<nat> | |s| == 3 witness [0, 0, 0]

  /** A segment table whose live part is mt[1..n]: either still empty (no
      segment added yet) or holding the mock segment and n live ones. */
  predicate Shaped(mt: seq<Segment>, n: nat)
  {
    |mt| == n + 1 || (mt == [] && n == 0)
  }

  // ---------------------------------------------------------------------
  // Sums over the live segments mt[1..n]

  /** Number of edges in mt[1..n]. */
  function Mass(mt: seq<Segment>, n: nat): nat
    requires n == 0 || n < |mt|
  {
    if n == 0 then 0 else Mass(mt, n - 1) + |mt[n].g|
  }

  /** Number of edges in the segments of mt[1..n] that belong to cluster c. */
  function ClusterMass(mt: seq<Segment>, n: nat, c: nat): nat
    requires n == 0 || n < |mt|
  {
    if n == 0 then 0
    else ClusterMass(mt, n - 1, c) + (if mt[n].cl == c then |mt[n].g| else 0)
  }

  /** Sum of num_nodes(deg) over mt[1..n]. */
  function NodeSum(mt: seq<Segment>, n: nat, deg: nat): nat
    requires n == 0 || n < |mt|
    requires 1 <= deg <= 3
  {
    if n == 0 then 0 else NodeSum(mt, n - 1, deg) + mt[n].NumNodes(deg)
  }

  /** Node counts of the whole network by degree, as update_nn computes
      them: each node of degree 3 is seen from three segment ends. */
  function NodeNumbers(mt: seq<Segment>, n: nat): (r: NodeCounts)
    requires n == 0 || n < |mt|
    ensures r[0] == NodeSum(mt, n, 1) && r[1] == NodeSum(mt, n, 2)
    ensures r[2] * 3 <= NodeSum(mt, n, 3) < r[2] * 3 + 3
  {
    [NodeSum(mt, n, 1), NodeSum(mt, n, 2), NodeSum(mt, n, 3) / 3]
  }

  /** The cluster sizes `make_indma` stores in cls: cls[c] is the number of
      edges in cluster c, for c < clnum. */
  function ClusterSizes(mt: seq<Segment>, n: nat, clnum: nat): (r: seq<nat>)
    requires n == 0 || n < |mt|
    ensures |r| == clnum
    ensures forall c :: 0 <= c < clnum ==> r[c] == ClusterMass(mt, n, c)
  {
    seq(clnum, c requires 0 <= c => ClusterMass(mt, n, c))
  }

  /** Every edge belongs to exactly one cluster, so when all segments carry
      a cluster id below clnum the cluster sizes add up to the mass. */
  lemma {:induction false} ClusterMassesSum(mt: seq<Segment>, n: nat, clnum: nat)
    requires n == 0 || n < |mt|
    requires forall j :: 1 <= j <= n ==> mt[j].cl < clnum
    ensures SumUpTo(ClusterSizes(mt, n, clnum), clnum) == Mass(mt, n)
  {
    if n > 0 {
      ClusterMassesSum(mt, n - 1, clnum);
      SumOfStep(mt, n, clnum, clnum);
      assert mt[n].cl < clnum;
    } else {
      SumOfNone(mt, clnum, clnum);
    }
  }

  lemma {:induction false} SumOfNone(mt: seq<Segment>, clnum: nat, m: nat)
    requires m <= clnum
    ensures SumUpTo(ClusterSizes(mt, 0, clnum), m) == 0
  {
    if m > 0 {
      SumOfNone(mt, clnum, m - 1);
    }
  }

  /** Sum of the first m entries of s. */
  function SumUpTo(s: seq<nat>, m: nat): nat
    requires m <= |s|
  {
    if m == 0 then 0 else SumUpTo(s, m - 1) + s[m - 1]
  }

  lemma {:induction false} SumOfStep(mt: seq<Segment>, n: nat, clnum: nat, m: nat)
    requires 0 < n < |mt| && m <= clnum
    ensures SumUpTo(ClusterSizes(mt, n, clnum), m)
      == SumUpTo(ClusterSizes(mt, n - 1, clnum), m) + (if mt[n].cl < m then |mt[n].g| else 0)
  {
    if m > 0 {
      SumOfStep(mt, n, clnum, m - 1);
    }
  }

  /** Mass only looks at mt[1..n]. */
  lemma {:induction false} MassPrefix(mt: seq<Segment>, extra: seq<Segment>, n: nat)
    requires n == 0 || n < |mt|
    ensures Mass(mt + extra, n) == Mass(mt, n)
  {
    if n > 0 {
      MassPrefix(mt, extra, n - 1);
    }
  }

  // ---------------------------------------------------------------------
  // The maps from edge index to segment and position (make_indma)

  /** `std::vector::resize`: keeps the first entries, pads with zeros. */
  function Resize<T(0)>(s: seq<T>, n: nat, zero: T): (r: seq<T>)
    ensures |r| == n
    ensures forall i :: 0 <= i < n ==> r[i] == if i < |s| then s[i] else zero
  {
    if n <= |s| then s[..n] else s + seq(n - |s|, _ => zero)
  }

  /** The map m after the writes of make_indma for segments 1..done and
      positions 0..k-1 of segment done+1: the entry of each edge index gets
      the segment (pickSegment) or the position of that edge; an edge index
      outside the map is not written. */
  function EdgeMap(m: seq<nat>, mt: seq<Segment>, done: nat, k: nat, pickSegment: bool): (r: seq<nat>)
    requires done == 0 || done < |mt|
    requires k > 0 ==> done + 1 < |mt| && k <= |mt[done + 1].g|
    ensures |r| == |m|
    decreases done, k
  {
    if k > 0 then
      var prev := EdgeMap(m, mt, done, k - 1, pickSegment);
      var i := mt[done + 1].g[k - 1].ind;
      if i < |prev| then prev[i := if pickSegment then done + 1 else k - 1] else prev
    else if done == 0 then m
    else EdgeMap(m, mt, done - 1, |mt[done].g|, pickSegment)
  }

  /** Edge (j, k) is among the first `done` segments and `k0` positions. */
  predicate Processed(j: nat, k: nat, done: nat, k0: nat)
  {
    j <= done || (j == done + 1 && k < k0)
  }

  /** The edges of mt[1..n] carry pairwise distinct network indices below
      `size`. */
  predicate DistinctInds(mt: seq<Segment>, n: nat, size: nat)
    requires Shaped(mt, n)
  {
    (forall j, k :: 1 <= j <= n && 0 <= k < |mt[j].g| ==> mt[j].g[k].ind < size) &&
    (forall j1, k1, j2, k2 ::
       (1 <= j1 <= n && 0 <= k1 < |mt[j1].g| && 1 <= j2 <= n && 0 <= k2 < |mt[j2].g| &&
        mt[j1].g[k1].ind == mt[j2].g[k2].ind) ==> j1 == j2 && k1 == k2)
  }

  /** When edge indices are distinct and fit the map, every processed edge's
      entry names its own segment and position. */
  lemma {:induction false} EdgeMapFinds(m: seq<nat>, mt: seq<Segment>, n: nat, done: nat, k: nat,
                                        pickSegment: bool, j: nat, a: nat)
    requires Shaped(mt, n) && DistinctInds(mt, n, |m|)
    requires done == 0 || done < |mt|
    requires done <= n && (k > 0 ==> done + 1 <= n && k <= |mt[done + 1].g|)
    requires 1 <= j <= n && a < |mt[j].g| && Processed(j, a, done, k)
    ensures EdgeMap(m, mt, done, k, pickSegment)[mt[j].g[a].ind] == if pickSegment then j else a
    decreases done, k
  {
    if k > 0 {
      if !(j == done + 1 && a == k - 1) {
        EdgeMapFinds(m, mt, n, done, k - 1, pickSegment, j, a);
      }
    } else if done > 0 {
      EdgeMapFinds(m, mt, n, done - 1, |mt[done].g|, pickSegment, j, a);
    }
  }

  // ---------------------------------------------------------------------
  // Segment classes (populate_cluster_vectors)

  /** The class of a segment by the degrees of its end nodes. */
  datatype Kind =
    | Lone            // both ends free: a disconnected linear segment (11)
    | Loop            // closed on itself: a disconnected cycle (22)
    | Inner           // both ends at degree-3 nodes (33)
    | Tip(end: nat)   // free at `end`, degree-3 node at the other end (13)
    | Dangling        // free at one end, a single neighbour at the other
    | Unclassified    // none of the above: the source's internal check fails

  function KindOf(m: Segment): Kind
  {
    var e := m.HasOneFreeEnd();
    if e != 0 then (if m.nn[Opposite(e)] == 2 then Tip(e) else Dangling)
    else if m.nn[1] == 0 && m.nn[2] == 0 then Lone
    else if m.IsCycle() then Loop
    else if m.nn[1] == 2 && m.nn[2] == 2 then Inner
    else Unclassified
  }

  /** What each class means in terms of the neighbour counts. */
  lemma KindOfMeaning(m: Segment)
    ensures KindOf(m).Tip? ==> var e := KindOf(m).end;
      (e == 1 || e == 2) && m.nn[e] == 0 && m.nn[Opposite(e)] == 2
    ensures KindOf(m) == Dangling <==>
      (m.nn[1] == 0 && m.nn[2] == 1) || (m.nn[1] == 1 && m.nn[2] == 0)
    ensures KindOf(m) == Lone <==> m.nn[1] == 0 && m.nn[2] == 0
    ensures KindOf(m) == Loop <==> m.IsCycle()
    ensures KindOf(m) == Inner <==> m.nn[1] == 2 && m.nn[2] == 2 && !m.IsCycle()
  {
  }

  /** The live segments of kind k, in increasing order (mt11, mt22, mt33). */
  function KindList(mt: seq<Segment>, n: nat, k: Kind): seq<nat>
    requires n == 0 || n < |mt|
  {
    if n == 0 then [] else KindList(mt, n - 1, k) + (if KindOf(mt[n]) == k then [n] else [])
  }

  /** The live segments of kind k in cluster c (an entry of mtc33). */
  function KindListIn(mt: seq<Segment>, n: nat, k: Kind, c: nat): seq<nat>
    requires n == 0 || n < |mt|
  {
    if n == 0 then []
    else KindListIn(mt, n - 1, k, c) + (if KindOf(mt[n]) == k && mt[n].cl == c then [n] else [])
  }

  /** The last live segment of kind k in cluster c, or Huge if there is none
      (an entry of mtc11 or mtc22). */
  function LastIn(mt: seq<Segment>, n: nat, k: Kind, c: nat): (r: nat)
    requires n == 0 || n < |mt|
    ensures r == Huge || (1 <= r <= n && KindOf(mt[r]) == k && mt[r].cl == c)
  {
    if n == 0 then Huge
    else if KindOf(mt[n]) == k && mt[n].cl == c then n
    else LastIn(mt, n - 1, k, c)
  }

  /** (segment, free end) of the live segments of kind Tip (mt13). */
  function TipList(mt: seq<Segment>, n: nat): seq<(nat, nat)>
    requires n == 0 || n < |mt|
  {
    if n == 0 then []
    else TipList(mt, n - 1) + (if KindOf(mt[n]).Tip? then [(n, KindOf(mt[n]).end)] else [])
  }

  /** The same, restricted to cluster c (an entry of mtc13). */
  function TipListIn(mt: seq<Segment>, n: nat, c: nat): seq<(nat, nat)>
    requires n == 0 || n < |mt|
  {
    if n == 0 then []
    else TipListIn(mt, n - 1, c)
         + (if KindOf(mt[n]).Tip? && mt[n].cl == c then [(n, KindOf(mt[n]).end)] else [])
  }

  /** Degree-3 ends as populate_cluster_vectors counts them: one for a Tip
      segment, two for an Inner one. */
  function BranchSum(mt: seq<Segment>, n: nat): nat
    requires n == 0 || n < |mt|
  {
    if n == 0 then 0
    else BranchSum(mt, n - 1) + BranchCount(KindOf(mt[n]))
  }

  /** Every live segment has a class (the source's internal check). */
  predicate AllClassified(mt: seq<Segment>, n: nat)
    requires n == 0 || n < |mt|
  {
    n == 0 || (AllClassified(mt, n - 1) && KindOf(mt[n]) != Unclassified)
  }

  lemma {:induction false} AllClassifiedMeaning(mt: seq<Segment>, n: nat)
    requires n == 0 || n < |mt|
    ensures AllClassified(mt, n) <==> forall j :: 1 <= j <= n ==> KindOf(mt[j]) != Unclassified
  {
    if n > 0 {
      AllClassifiedMeaning(mt, n - 1);
    }
  }

  /** Append x to entry c of a per-cluster vector (an out-of-range cluster id
      is not written). */
  function PushAt<T>(v: seq<seq<T>>, c: nat, x: T): (r: seq<seq<T>>)
    ensures |r| == |v|
  {
    if c < |v| then v[c := v[c] + [x]] else v
  }

  /** Store x at entry c of a per-cluster vector. */
  function SetAt(v: seq<nat>, c: nat, x: nat): (r: seq<nat>)
    ensures |r| == |v|
  {
    if c < |v| then v[c := x] else v
  }

  /** A vector of n copies of x (a freshly assigned per-cluster vector). */
  function Blank<T>(n: nat, x: T): (r: seq<T>)
    ensures |r| == n && forall i :: 0 <= i < n ==> r[i] == x
  {
    seq(n, _ => x)
  }

  /** The vectors populate_cluster_vectors fills: clmt, the class lists
      and their per-cluster versions, the end counts behind nn (degree-3
      ends not yet divided by 3), and whether every segment was classified. */
  datatype ClassVectors = ClassVectors(
    clmt: seq<seq<nat>>,
    mt11: seq<nat>, mtc11: seq<nat>,
    mt22: seq<nat>, mtc22: seq<nat>,
    mt33: seq<nat>, mtc33: seq<seq<nat>>,
    mt13: seq<(nat, nat)>, mtc13: seq<seq<(nat, nat)>>,
    free: nat, joints: nat, branched: nat,
    ok: bool)

  /** Free ends a segment of kind k adds to nn[0] in populate_cluster_vectors. */
  function FreeEndCount(k: Kind): nat
  {
    match k
    case Tip(_) => 1
    case Dangling => 1
    case Lone => 2
    case _ => 0
  }

  /** Ends at degree-3 nodes a segment of kind k adds to nn[2]. */
  function BranchCount(k: Kind): nat
  {
    match k
    case Tip(_) => 1
    case Inner => 2
    case _ => 0
  }

  /** What segment m, at index j, adds to the vectors. */
  function Classify(v: ClassVectors, m: Segment, j: nat): ClassVectors
  {
    var k := KindOf(m);
    ClassVectors(
      PushAt(v.clmt, m.cl, j),
      if k == Lone then v.mt11 + [j] else v.mt11,
      if k == Lone then SetAt(v.mtc11, m.cl, j) else v.mtc11,
      if k == Loop then v.mt22 + [j] else v.mt22,
      if k == Loop then SetAt(v.mtc22, m.cl, j) else v.mtc22,
      if k == Inner then v.mt33 + [j] else v.mt33,
      if k == Inner then PushAt(v.mtc33, m.cl, j) else v.mtc33,
      if k.Tip? then v.mt13 + [(j, k.end)] else v.mt13,
      if k.Tip? then PushAt(v.mtc13, m.cl, (j, k.end)) else v.mtc13,
      v.free + FreeEndCount(k), v.joints + m.NumNodes(2), v.branched + BranchCount(k),
      v.ok && k != Unclassified)
  }

  /** clmt after segments 1..n: each appended to the entry of its cluster. */
  function ClusterSegments(mt: seq<Segment>, n: nat, clnum: nat): (r: seq<seq<nat>>)
    requires n == 0 || n < |mt|
    ensures |r| == clnum
  {
    if n == 0 then Blank(clnum, []) else PushAt(ClusterSegments(mt, n - 1, clnum), mt[n].cl, n)
  }

  /** mtc11 or mtc22 after segments 1..n: per cluster, the last segment of
      kind k, or Huge. */
  function ClusterLasts(mt: seq<Segment>, n: nat, k: Kind, clnum: nat): (r: seq<nat>)
    requires n == 0 || n < |mt|
    ensures |r| == clnum
  {
    if n == 0 then Blank(clnum, Huge)
    else if KindOf(mt[n]) == k then SetAt(ClusterLasts(mt, n - 1, k, clnum), mt[n].cl, n)
    else ClusterLasts(mt, n - 1, k, clnum)
  }

  /** mtc33 after segments 1..n: per cluster, the segments of kind k. */
  function ClusterKindLists(mt: seq<Segment>, n: nat, k: Kind, clnum: nat): (r: seq<seq<nat>>)
    requires n == 0 || n < |mt|
    ensures |r| == clnum
  {
    if n == 0 then Blank(clnum, [])
    else if KindOf(mt[n]) == k then PushAt(ClusterKindLists(mt, n - 1, k, clnum), mt[n].cl, n)
    else ClusterKindLists(mt, n - 1, k, clnum)
  }

  /** mtc13 after segments 1..n: per cluster, the (segment, free end) pairs
      of Tip segments. */
  function ClusterTipLists(mt: seq<Segment>, n: nat, clnum: nat): (r: seq<seq<(nat, nat)>>)
    requires n == 0 || n < |mt|
    ensures |r| == clnum
  {
    if n == 0 then Blank(clnum, [])
    else if KindOf(mt[n]).Tip? then
      PushAt(ClusterTipLists(mt, n - 1, clnum), mt[n].cl, (n, KindOf(mt[n]).end))
    else ClusterTipLists(mt, n - 1, clnum)
  }

  /** The vectors after segments 1..n have been classified in order. */
  function Classified(mt: seq<Segment>, n: nat, clnum: nat): ClassVectors
    requires n == 0 || n < |mt|
  {
    ClassVectors(ClusterSegments(mt, n, clnum),
                 KindList(mt, n, Lone), ClusterLasts(mt, n, Lone, clnum),
                 KindList(mt, n, Loop), ClusterLasts(mt, n, Loop, clnum),
                 KindList(mt, n, Inner), ClusterKindLists(mt, n, Inner, clnum),
                 TipList(mt, n), ClusterTipLists(mt, n, clnum),
                 NodeSum(mt, n, 1), NodeSum(mt, n, 2), BranchSum(mt, n),
                 AllClassified(mt, n))
  }

  /** The degree-1 contribution of a segment by its kind. */
  lemma FreeEndsByKind(m: Segment)
    ensures m.NumNodes(1) == FreeEndCount(KindOf(m))
  {
  }

  /** Classifying segment n extends the vectors of segments 1..n-1. */
  lemma ClassifiedStep(mt: seq<Segment>, n: nat, clnum: nat)
    requires 1 <= n < |mt|
    ensures Classified(mt, n, clnum) == Classify(Classified(mt, n - 1, clnum), mt[n], n)
  {
    var v, w := Classified(mt, n - 1, clnum), Classify(Classified(mt, n - 1, clnum), mt[n], n);
    ClassifiedStepEnds(mt, n, clnum);
    assert ClusterSegments(mt, n, clnum) == w.clmt;
    assert KindList(mt, n, Lone) == w.mt11 && ClusterLasts(mt, n, Lone, clnum) == w.mtc11;
    assert KindList(mt, n, Loop) == w.mt22 && ClusterLasts(mt, n, Loop, clnum) == w.mtc22;
    assert KindList(mt, n, Inner) == w.mt33 && ClusterKindLists(mt, n, Inner, clnum) == w.mtc33;
    assert TipList(mt, n) == w.mt13 && ClusterTipLists(mt, n, clnum) == w.mtc13;
  }

  lemma ClassifiedStepEnds(mt: seq<Segment>, n: nat, clnum: nat)
    requires 1 <= n < |mt|
    ensures Classified(mt, n, clnum).free == Classify(Classified(mt, n - 1, clnum), mt[n], n).free
    ensures Classified(mt, n, clnum).joints == Classify(Classified(mt, n - 1, clnum), mt[n], n).joints
    ensures Classified(mt, n, clnum).branched == Classify(Classified(mt, n - 1, clnum), mt[n], n).branched
    ensures Classified(mt, n, clnum).ok == Classify(Classified(mt, n - 1, clnum), mt[n], n).ok
  {
    FreeEndsByKind(mt[n]);
  }

  /** The body of the loop of populate_cluster_vectors: classify segment m,
      at index j, and record it. */
  method ClassifySegment(v: ClassVectors, m: Segment, j: nat) returns (w: ClassVectors)
    ensures w == Classify(v, m, j)
  {
    ghost var k := KindOf(m);
    var clmt, mt11, mtc11, mt22, mtc22 := v.clmt, v.mt11, v.mtc11, v.mt22, v.mtc22;
    var mt33, mtc33, mt13, mtc13, ok := v.mt33, v.mtc33, v.mt13, v.mtc13, v.ok;
    var nn: NodeCounts := [v.free, v.joints, v.branched];
    clmt := PushAt(clmt, m.cl, j);
    nn := nn[1 := nn[1] + m.NumNodes(2)];
    var e := m.HasOneFreeEnd();
    if e != 0 {
      var oe := if e == 1 then 2 else 1;
      nn := nn[0 := nn[0] + 1];
      if m.nn[oe] == 2 {
        assert k == Tip(e);
        mtc13 := PushAt(mtc13, m.cl, (j, e));
        mt13 := mt13 + [(j, e)];
        nn := nn[2 := nn[2] + 1];
      } else {
        assert k == Dangling;
      }
    } else if m.nn[1] == 0 && m.nn[2] == 0 {
      assert k == Lone;
      mtc11 := SetAt(mtc11, m.cl, j);
      mt11 := mt11 + [j];
      nn := nn[0 := nn[0] + 2];
    } else if m.IsCycle() {
      assert k == Loop;
      mtc22 := SetAt(mtc22, m.cl, j);
      mt22 := mt22 + [j];
    } else if m.nn[1] == 2 && m.nn[2] == 2 {
      assert k == Inner;
      mtc33 := PushAt(mtc33, m.cl, j);
      mt33 := mt33 + [j];
      nn := nn[2 := nn[2] + 2];
    } else {
      assert k == Unclassified;
      ok := false;
    }
    w := ClassVectors(clmt, mt11, mtc11, mt22, mtc22, mt33, mtc33, mt13, mtc13, nn[0], nn[1], nn[2], ok);
  }

  /** Entry c of clmt lists exactly the live segments of cluster c. */
  lemma {:induction false} ClusterSegmentsLists(mt: seq<Segment>, n: nat, clnum: nat, c: nat)
    requires n == 0 || n < |mt|
    requires c < clnum
    ensures ClusterSegments(mt, n, clnum)[c] == SegmentsOf(mt, n, c)
  {
    if n > 0 {
      ClusterSegmentsLists(mt, n - 1, clnum, c);
    }
  }

  /** Entry c of mtc11 (k = Lone) or mtc22 (k = Loop) is the last segment of
      that kind in cluster c, or Huge when the cluster has none. */
  lemma {:induction false} ClusterLastsFind(mt: seq<Segment>, n: nat, k: Kind, clnum: nat, c: nat)
    requires n == 0 || n < |mt|
    requires c < clnum
    ensures ClusterLasts(mt, n, k, clnum)[c] == LastIn(mt, n, k, c)
  {
    if n > 0 {
      ClusterLastsFind(mt, n - 1, k, clnum, c);
    }
  }

  /** Entry c of mtc33 lists the segments of kind k in cluster c. */
  lemma {:induction false} ClusterKindListsFind(mt: seq<Segment>, n: nat, k: Kind, clnum: nat, c: nat)
    requires n == 0 || n < |mt|
    requires c < clnum
    ensures ClusterKindLists(mt, n, k, clnum)[c] == KindListIn(mt, n, k, c)
  {
    if n > 0 {
      ClusterKindListsFind(mt, n - 1, k, clnum, c);
    }
  }

  /** Entry c of mtc13 lists the (segment, free end) pairs of the Tip
      segments of cluster c. */
  lemma {:induction false} ClusterTipListsFind(mt: seq<Segment>, n: nat, clnum: nat, c: nat)
    requires n == 0 || n < |mt|
    requires c < clnum
    ensures ClusterTipLists(mt, n, clnum)[c] == TipListIn(mt, n, c)
  {
    if n > 0 {
      ClusterTipListsFind(mt, n - 1, clnum, c);
    }
  }

  /** The node numbers populate_cluster_vectors stores. */
  function PopulatedNodeNumbers(mt: seq<Segment>, n: nat): NodeCounts
    requires n == 0 || n < |mt|
  {
    [NodeSum(mt, n, 1), NodeSum(mt, n, 2), BranchSum(mt, n) / 3]
  }

  /** The live segments of cluster c, in increasing order. */
  function SegmentsOf(mt: seq<Segment>, n: nat, c: nat): (r: seq<nat>)
    requires n == 0 || n < |mt|
    ensures forall j {:trigger j in r} :: j in r <==> 1 <= j <= n && mt[j].cl == c
  {
    if n == 0 then [] else SegmentsOf(mt, n - 1, c) + (if mt[n].cl == c then [n] else [])
  }

  /** When every segment is classified, populate_cluster_vectors and
      update_node_numbers agree on the node numbers. */
  lemma {:induction false} PopulatedNodeNumbersAgree(mt: seq<Segment>, n: nat)
    requires n == 0 || n < |mt|
    requires AllClassified(mt, n)
    ensures PopulatedNodeNumbers(mt, n) == NodeNumbers(mt, n)
  {
    BranchSumCountsBranchedEnds(mt, n);
  }

  lemma {:induction false} BranchSumCountsBranchedEnds(mt: seq<Segment>, n: nat)
    requires n == 0 || n < |mt|
    requires AllClassified(mt, n)
    ensures BranchSum(mt, n) == NodeSum(mt, n, 3)
  {
    if n > 0 {
      BranchSumCountsBranchedEnds(mt, n - 1);
      assert KindOf(mt[n]) != Unclassified;
    }
  }

  /** Strictly increasing, hence free of repetitions. */
  predicate Increasing(s: seq<nat>)
  {
    forall a, b :: 0 <= a < b < |s| ==> s[a] < s[b]
  }

  /** The class vector of kind k lists, in increasing order and so once
      each, exactly the live segments of kind k. */
  lemma {:induction false} KindListExact(mt: seq<Segment>, n: nat, k: Kind)
    requires n == 0 || n < |mt|
    ensures Increasing(KindList(mt, n, k))
    ensures forall j :: j in KindList(mt, n, k) <==> 1 <= j <= n && KindOf(mt[j]) == k
  {
    if n > 0 {
      KindListExact(mt, n - 1, k);
      var l := KindList(mt, n - 1, k);
      assert KindList(mt, n, k) == l + (if KindOf(mt[n]) == k then [n] else []);
      forall a | 0 <= a < |l|
        ensures l[a] < n
      {
        assert l[a] in l;
      }
    }
  }

  /** mt13 lists, in increasing segment order, exactly the (segment, free
      end) pairs of the live Tip segments. */
  lemma {:induction false} TipListExact(mt: seq<Segment>, n: nat)
    requires n == 0 || n < |mt|
    ensures forall a :: 0 <= a < |TipList(mt, n)| ==>
      var p := TipList(mt, n)[a]; 1 <= p.0 <= n && KindOf(mt[p.0]) == Tip(p.1)
    ensures forall a, b :: 0 <= a < b < |TipList(mt, n)| ==> TipList(mt, n)[a].0 < TipList(mt, n)[b].0
    ensures forall j: nat, e: nat :: 1 <= j <= n && KindOf(mt[j]) == Tip(e) ==> (j, e) in TipList(mt, n)
  {
    if n > 0 {
      TipListExact(mt, n - 1);
      var k := KindOf(mt[n]);
      var l := TipList(mt, n - 1);
      var t := if k.Tip? then [(n, k.end)] else [];
      assert TipList(mt, n) == l + t;
      forall j: nat, e: nat | 1 <= j <= n && KindOf(mt[j]) == Tip(e)
        ensures (j, e) in TipList(mt, n)
      {
        if j < n {
          assert (j, e) in l;
        } else {
          assert TipList(mt, n)[|l|] == (j, e);
        }
      }
    }
  }

  /** Hence every live segment that is neither dangling nor unclassified
      appears in exactly one of mt11, mt22, mt33 and mt13 (once, by the
      ordering above), and the others in none. */
  lemma ExactlyOneClass(mt: seq<Segment>, n: nat, j: nat)
    requires n < |mt| && 1 <= j <= n
    ensures (if j in KindList(mt, n, Lone) then 1 else 0) + (if j in KindList(mt, n, Loop) then 1 else 0)
            + (if j in KindList(mt, n, Inner) then 1 else 0) + (if (j, 1) in TipList(mt, n) then 1 else 0)
            + (if (j, 2) in TipList(mt, n) then 1 else 0)
            == if KindOf(mt[j]) == Unclassified || KindOf(mt[j]) == Dangling then 0 else 1
  {
    KindListExact(mt, n, Lone);
    KindListExact(mt, n, Loop);
    KindListExact(mt, n, Inner);
    TipListExact(mt, n);
    TipEnd(mt[j]);
  }

  /** The free end of a Tip segment is 1 or 2. */
  lemma TipEnd(m: Segment)
    ensures KindOf(m).Tip? ==> KindOf(m).end == 1 || KindOf(m).end == 2
  {
  }

  /** A network of n disconnected linear segments has 2n free ends, one
      interior node fewer than edges on each segment, and no branch point. */
  lemma {:induction false} LoneSegmentsNodes(mt: seq<Segment>, n: nat)
    requires n == 0 || n < |mt|
    requires forall j :: 1 <= j <= n ==> mt[j].nn[1] == 0 && mt[j].nn[2] == 0 && |mt[j].g| > 0
    ensures NodeNumbers(mt, n) == [2 * n, Mass(mt, n) - n, 0]
    ensures Mass(mt, n) >= n
  {
    if n > 0 {
      LoneSegmentsNodes(mt, n - 1);
      assert !mt[n].IsCycle();
    }
  }

  // ---------------------------------------------------------------------
  // Edge adjacency lists per cluster (make_adjacency_list_edges)

  /** The segment ids listed are real segments. */
  predicate InRange(mt: seq<Segment>, segs: seq<nat>)
  {
    forall i :: 0 <= i < |segs| ==> segs[i] < |mt|
  }

  /** The cluster-local index of the edge at end ee of segment w, a
      neighbour recorded in a slot of a neighbour table; nothing when the
      slot names no real segment end (the source reads out of range). */
  function EndEdge(mt: seq<Segment>, w: nat, ee: nat): (r: seq<nat>)
    ensures |r| <= 1
  {
    if w < |mt| && (ee == 1 || ee == 2) && |mt[w].g| > 0 then [mt[w].g[mt[w].End2A(ee)].indcl] else []
  }

  /** The edges of other segments attached at one end, slot by slot for
      slots 1..n of its neighbour rows `row` (segments) and `ends` (their
      ends). */
  function EndLinks(mt: seq<Segment>, row: seq<nat>, ends: seq<nat>, n: nat): (r: seq<nat>)
    requires n < |row| && n < |ends|
    ensures |r| <= n
  {
    if n == 0 then [] else EndLinks(mt, row, ends, n - 1) + EndEdge(mt, row[n], ends[n])
  }

  /** The edges across end e of segment j. */
  function AcrossEnd(mt: seq<Segment>, j: nat, e: nat): seq<nat>
    requires j < |mt| && (e == 1 || e == 2)
  {
    EndLinks(mt, mt[j].neig[e], mt[j].neen[e], mt[j].nn[e])
  }

  /** The adjacency list of edge k of segment j: the first edge is linked to
      the edges across end 1 and, forwards, to the next edge (or across end
      2 for a one-edge segment); the last edge to the previous edge and
      across end 2; a bulk edge to both its neighbours on the segment. */
  function EdgeLinks(mt: seq<Segment>, j: nat, k: nat): seq<nat>
    requires j < |mt| && k < |mt[j].g|
  {
    var g := mt[j].g;
    if k == 0 then
      AcrossEnd(mt, j, 1) + (if |g| == 1 then AcrossEnd(mt, j, 2) else [g[1].indcl])
    else if k == |g| - 1 then
      [g[k - 1].indcl] + AcrossEnd(mt, j, 2)
    else
      [g[k - 1].indcl, g[k + 1].indcl]
  }

  /** The lists a after make_adjacency_list_edges has handled the segments
      segs[..done] and positions 0..k-1 of segs[done]: each edge's links are
      appended to the entry of its cluster-local index (an index outside
      the lists is not written). */
  function Adjacency(a: seq<seq<nat>>, mt: seq<Segment>, segs: seq<nat>, done: nat, k: nat): (r: seq<seq<nat>>)
    requires InRange(mt, segs) && done <= |segs|
    requires k > 0 ==> done < |segs| && k <= |mt[segs[done]].g|
    ensures |r| == |a|
    decreases done, k
  {
    if k > 0 then
      var prev := Adjacency(a, mt, segs, done, k - 1);
      var j := segs[done];
      var ind := mt[j].g[k - 1].indcl;
      if ind < |prev| then prev[ind := prev[ind] + EdgeLinks(mt, j, k - 1)] else prev
    else if done == 0 then a
    else Adjacency(a, mt, segs, done - 1, |mt[segs[done - 1]].g|)
  }

  /** Edge k of segs[i] is handled once segs[..done] and positions 0..k0-1
      of segs[done] are. */
  predicate Handled(i: nat, k: nat, done: nat, k0: nat)
  {
    i < done || (i == done && k < k0)
  }

  /** The cluster-local index of edge k of segment segs[i]. */
  function Indcl(mt: seq<Segment>, segs: seq<nat>, i: nat, k: nat): nat
    requires InRange(mt, segs) && i < |segs| && k < |mt[segs[i]].g|
  {
    mt[segs[i]].g[k].indcl
  }

  /** The edges of the listed segments carry pairwise distinct cluster-local
      indices below `size`. */
  predicate DistinctIndcls(mt: seq<Segment>, segs: seq<nat>, size: nat)
    requires InRange(mt, segs)
  {
    (forall i, k :: 0 <= i < |segs| && 0 <= k < |mt[segs[i]].g| ==> Indcl(mt, segs, i, k) < size) &&
    (forall i1, k1, i2, k2 ::
       (0 <= i1 < |segs| && 0 <= k1 < |mt[segs[i1]].g| && 0 <= i2 < |segs| && 0 <= k2 < |mt[segs[i2]].g| &&
        (i1 != i2 || k1 != k2)) ==> Indcl(mt, segs, i1, k1) != Indcl(mt, segs, i2, k2))
  }

  /** The entry of an edge not yet handled is still the initial one. */
  lemma {:induction false} AdjacencyUntouched(a: seq<seq<nat>>, mt: seq<Segment>, segs: seq<nat>,
                                              done: nat, k: nat, i: nat, b: nat)
    requires InRange(mt, segs) && DistinctIndcls(mt, segs, |a|)
    requires done <= |segs| && (k > 0 ==> done < |segs| && k <= |mt[segs[done]].g|)
    requires i < |segs| && b < |mt[segs[i]].g| && !Handled(i, b, done, k)
    ensures Adjacency(a, mt, segs, done, k)[Indcl(mt, segs, i, b)] == a[Indcl(mt, segs, i, b)]
    decreases done, k
  {
    if k > 0 {
      AdjacencyUntouched(a, mt, segs, done, k - 1, i, b);
      assert Indcl(mt, segs, done, k - 1) != Indcl(mt, segs, i, b);
    } else if done > 0 {
      AdjacencyUntouched(a, mt, segs, done - 1, |mt[segs[done - 1]].g|, i, b);
    }
  }

  /** When the cluster-local indices are distinct and fit the lists, every
      handled edge's entry is its initial entry followed by its links. */
  lemma {:induction false} AdjacencyFinds(a: seq<seq<nat>>, mt: seq<Segment>, segs: seq<nat>,
                                          done: nat, k: nat, i: nat, b: nat)
    requires InRange(mt, segs) && DistinctIndcls(mt, segs, |a|)
    requires done <= |segs| && (k > 0 ==> done < |segs| && k <= |mt[segs[done]].g|)
    requires i < |segs| && b < |mt[segs[i]].g| && Handled(i, b, done, k)
    ensures Adjacency(a, mt, segs, done, k)[Indcl(mt, segs, i, b)]
            == a[Indcl(mt, segs, i, b)] + EdgeLinks(mt, segs[i], b)
    decreases done, k
  {
    if k > 0 {
      var ind := Indcl(mt, segs, done, k - 1);
      assert ind < |a|;
      if i == done && b == k - 1 {
        AdjacencyUntouched(a, mt, segs, done, k - 1, i, b);
      } else {
        AdjacencyFinds(a, mt, segs, done, k - 1, i, b);
        assert ind != Indcl(mt, segs, i, b);
      }
    } else {
      AdjacencyFinds(a, mt, segs, done - 1, |mt[segs[done - 1]].g|, i, b);
    }
  }

  /** The lists make_adjacency_list_edges builds from empty: the entry of
      every edge of the cluster is exactly that edge's links. */
  lemma AdjacencyLists(mt: seq<Segment>, segs: seq<nat>, size: nat, i: nat, b: nat)
    requires InRange(mt, segs) && DistinctIndcls(mt, segs, size)
    requires i < |segs| && b < |mt[segs[i]].g|
    ensures Adjacency(Blank(size, []), mt, segs, |segs|, 0)[Indcl(mt, segs, i, b)] == EdgeLinks(mt, segs[i], b)
  {
    AdjacencyFinds(Blank(size, []), mt, segs, |segs|, 0, i, b);
  }

  /** A segment without neighbours and of at least two edges is a path: its
      first edge is linked to the second, its last to the one before, and
      each bulk edge to both neighbours. */
  lemma LoneSegmentPath(mt: seq<Segment>, j: nat, k: nat)
    requires j < |mt| && k < |mt[j].g| && |mt[j].g| >= 2
    requires mt[j].nn[1] == 0 && mt[j].nn[2] == 0
    ensures var g := mt[j].g;
      EdgeLinks(mt, j, k) ==
        if k == 0 then [g[1].indcl]
        else if k == |g| - 1 then [g[k - 1].indcl]
        else [g[k - 1].indcl, g[k + 1].indcl]
  {
  }

  /** The loop over the slots of end e of segment j in
      `make_adjacency_list_edges`: the edges of the neighbouring segments
      at that end, in slot order. */
  method CollectEndLinks(mt: seq<Segment>, j: nat, e: nat) returns (r: seq<nat>)
    requires j < |mt| && (e == 1 || e == 2)
    ensures r == AcrossEnd(mt, j, e)
  {
    var row, ends, n := mt[j].neig[e], mt[j].neen[e], mt[j].nn[e];
    r := [];
    var s := 1;
    while s <= n
      invariant 1 <= s <= n + 1 && n < |row| && n < |ends|
      invariant r == EndLinks(mt, row, ends, s - 1)
    {
      var w, ee := row[s], ends[s];
      if w < |mt| && (ee == 1 || ee == 2) && |mt[w].g| > 0 {
        var a := mt[w].End2A(ee);
        r := r + [mt[w].g[a].indcl];
      }
      s := s + 1;
    }
  }

  /** The links pushed for edge k of segment j in
      `make_adjacency_list_edges`, branch by branch. */
  method CollectEdgeLinks(mt: seq<Segment>, j: nat, k: nat) returns (links: seq<nat>)
    requires j < |mt| && k < |mt[j].g|
    ensures links == EdgeLinks(mt, j, k)
  {
    var g := mt[j].g;
    if k == 0 {
      links := CollectEndLinks(mt, j, 1);
      if |g| == 1 {
        var more := CollectEndLinks(mt, j, 2);
        links := links + more;
      } else {
        links := links + [g[k + 1].indcl];
      }
    } else if k == |g| - 1 {
      var more := CollectEndLinks(mt, j, 2);
      links := [g[k - 1].indcl] + more;
    } else {
      links := [g[k - 1].indcl, g[k + 1].indcl];
    }
  }

  /** The first loop of `make_indma`: the edge counts of the clusters. */
  method SizeClusters(mt: seq<Segment>, n: nat, clnum: nat) returns (cls: seq<nat>)
    requires n == 0 || n < |mt|
    ensures cls == ClusterSizes(mt, n, clnum)
  {
    cls := seq(clnum, _ => 0);
    var j := 1;
    while j <= n
      invariant 1 <= j <= n + 1
      invariant cls == ClusterSizes(mt, j - 1, clnum)
    {
      var c := mt[j].cl;
      if c < |cls| {
        cls := cls[c := cls[c] + |mt[j].g|];
      }
      j := j + 1;
    }
  }

  /** The second loop of `make_indma`: for every edge of segments 1..n,
      record its segment in glm and its position in gla. */
  method MapEdges(glm0: seq<nat>, gla0: seq<nat>, mt: seq<Segment>, n: nat) returns (glm: seq<nat>, gla: seq<nat>)
    requires n == 0 || n < |mt|
    ensures glm == EdgeMap(glm0, mt, n, 0, true)
    ensures gla == EdgeMap(gla0, mt, n, 0, false)
  {
    glm, gla := glm0, gla0;
    var j := 1;
    while j <= n
      invariant 1 <= j <= n + 1
      invariant glm == EdgeMap(glm0, mt, j - 1, 0, true)
      invariant gla == EdgeMap(gla0, mt, j - 1, 0, false)
    {
      var g := mt[j].g;
      var k := 0;
      while k < |g|
        invariant 0 <= k <= |g|
        invariant glm == EdgeMap(glm0, mt, j - 1, k, true)
        invariant gla == EdgeMap(gla0, mt, j - 1, k, false)
      {
        var i := g[k].ind;
        if i < |glm| {
          glm := glm[i := j];
        }
        if i < |gla| {
          gla := gla[i := k];
        }
        k := k + 1;
      }
      j := j + 1;
    }
  }

  /** The segment lists of the clusters name live segments only. */
  lemma ClusterSegmentsInRange(mt: seq<Segment>, n: nat, clnum: nat)
    requires n == 0 || n < |mt|
    ensures forall c :: 0 <= c < clnum ==> InRange(mt, ClusterSegments(mt, n, clnum)[c])
  {
    forall c | 0 <= c < clnum
      ensures InRange(mt, ClusterSegments(mt, n, clnum)[c])
    {
      ClusterSegmentsLists(mt, n, clnum, c);
      var l := SegmentsOf(mt, n, c);
      forall i | 0 <= i < |l|
        ensures l[i] < |mt|
      {
        assert l[i] in l;
      }
    }
  }

  /** The loop of `populate_cluster_vectors` over segments 1..n. */
  method ClassifyAll(mt: seq<Segment>, n: nat, clnum: nat) returns (v: ClassVectors)
    requires n == 0 || n < |mt|
    ensures v == Classified(mt, n, clnum)
  {
    v := Classified(mt, 0, clnum);
    for j := 1 to n + 1
      invariant v == Classified(mt, j - 1, clnum)
    {
      ClassifiedStep(mt, j, clnum);
      v := ClassifySegment(v, mt[j], j);
    }
  }

  /** The network: the segments with their neighbour tables, and the
      vectors derived from them. */
  class Network {
    /** The segments; mt[0] is the mock segment. */
    var mt: seq<Segment>
    /** Number of live segments. */
    var mtnum: nat
    /** Number of clusters (connected components). */
    var clnum: nat
    /** Number of edges. */
    var mtmass: nat
    /** Node numbers by degree. */
    var nn: NodeCounts
    /** Cluster sizes in edges. */
    var cls: seq<nat>
    /** Edge index to segment index. */
    var glm: seq<nat>
    /** Edge index to position inside its segment. */
    var gla: seq<nat>
    /** Segment indices by cluster. */
    var clmt: seq<seq<nat>>
    /** Disconnected linear segments, all and by cluster. */
    var mt11: seq<nat>
    var mtc11: seq<nat>
    /** Disconnected cycles, all and by cluster. */
    var mt22: seq<nat>
    var mtc22: seq<nat>
    /** Segments between two degree-3 nodes, all and by cluster. */
    var mt33: seq<nat>
    var mtc33: seq<seq<nat>>
    /** (segment, free end) of segments between a free end and a degree-3
        node, all and by cluster. */
    var mt13: seq<(nat, nat)>
    var mtc13: seq<seq<(nat, nat)>>
    /** Edge adjacency lists per cluster. */
    var clagl: seq<seq<seq<nat>>>
    /** Visit marks of the cluster search (held by AbilityForFission). */
    var vis: seq<nat>

    ghost predicate Valid()
      reads this`mt, this`mtnum
    {
      Shaped(mt, mtnum)
    }

    /** The cluster sizes and edge maps make_indma leaves, from the maps
        glm0 and gla0 it found. */
    ghost predicate Indexed(glm0: seq<nat>, gla0: seq<nat>)
      reads this`mt, this`mtnum, this`clnum, this`mtmass, this`cls, this`glm, this`gla
    {
      Valid() && cls == ClusterSizes(mt, mtnum, clnum) &&
      glm == EdgeMap(Resize(glm0, mtmass, 0), mt, mtnum, 0, true) &&
      gla == EdgeMap(Resize(gla0, mtmass, 0), mt, mtnum, 0, false)
    }

    /** The cluster vectors populate_cluster_vectors leaves: the segments
        of each cluster, the class lists and their per-cluster versions,
        and the node numbers. */
    ghost predicate Populated()
      reads this`mt, this`mtnum, this`clnum, this`clmt, this`mt11, this`mtc11, this`mt22
      reads this`mtc22, this`mt33, this`mtc33, this`mt13, this`mtc13, this`nn
    {
      Valid() && clmt == ClusterSegments(mt, mtnum, clnum) &&
      mt11 == KindList(mt, mtnum, Lone) && mtc11 == ClusterLasts(mt, mtnum, Lone, clnum) &&
      mt22 == KindList(mt, mtnum, Loop) && mtc22 == ClusterLasts(mt, mtnum, Loop, clnum) &&
      mt33 == KindList(mt, mtnum, Inner) && mtc33 == ClusterKindLists(mt, mtnum, Inner, clnum) &&
      mt13 == TipList(mt, mtnum) && mtc13 == ClusterTipLists(mt, mtnum, clnum) &&
      nn == PopulatedNodeNumbers(mt, mtnum)
    }

    /** Every cluster has a size and a segment list naming real segments. */
    ghost predicate ListsInRange()
      reads this`mt, this`clnum, this`cls, this`clmt
    {
      clnum <= |cls| && clnum <= |clmt| && forall c :: 0 <= c < clnum ==> InRange(mt, clmt[c])
    }

    /** The adjacency lists update_adjacency leaves, from the lists clagl0
        it found: one per cluster (more if there were more), each rebuilt
        from the cluster's segments; entries past the clusters untouched. */
    ghost predicate Adjacent(clagl0: seq<seq<seq<nat>>>)
      reads this`mt, this`clnum, this`cls, this`clmt, this`clagl
    {
      ListsInRange() &&
      |clagl| == (if |clagl0| < clnum then clnum else |clagl0|) &&
      (forall c :: 0 <= c < clnum ==> clagl[c] == Adjacency(Blank(cls[c], []), mt, clmt[c], |clmt[c]|, 0)) &&
      (forall c :: clnum <= c < |clagl| ==> clagl[c] == clagl0[c])
    }

    /** An empty network. */
    constructor ()
      ensures Valid()
      ensures mt == [] && mtnum == 0 && clnum == 0 && mtmass == 0 && nn == [0, 0, 0]
      ensures cls == [] && glm == [] && gla == [] && clmt == [] && clagl == [] && vis == []
      ensures mt11 == [] && mtc11 == [] && mt22 == [] && mtc22 == [] && mt33 == [] && mtc33 == []
      ensures mt13 == [] && mtc13 == []
    {
      mt, mtnum, clnum, mtmass, nn := [], 0, 0, 0, [0, 0, 0];
      cls, glm, gla, clmt, clagl, vis := [], [], [], [], [], [];
      mt11, mtc11, mt22, mtc22, mt33, mtc33, mt13, mtc13 := [], [], [], [], [], [], [], [];
    }

    /** `add_disconnected_segment(segmass)`: a new lone segment forming a
        cluster of its own, with the next edge indices; the mock segment is
        added first on first use. */
    method AddDisconnectedSegment(segmass: nat)
      requires Valid()
      modifies this`mt, this`mtnum, this`clnum, this`mtmass
      ensures Valid()
      ensures mt == (if old(mt) == [] then [MockSegment(0)] else old(mt))
                    + [FreshSegment(segmass, old(clnum), old(mtmass))]
      ensures mtnum == old(mtnum) + 1 && clnum == old(clnum) + 1 && mtmass == old(mtmass) + segmass
    {
      if mt == [] {
        mt := [MockSegment(0)];
      }
      var s := NewSegment(segmass, clnum, mtmass);
      mt := mt + [s];
      mtnum := mtnum + 1;
      clnum := clnum + 1;
      mtmass := mtmass + segmass;
    }

    /** `make_indma`: cluster sizes, and the maps from edge index to
        segment and to position (resized to the edge count first). */
    method MakeIndma()
      requires Valid()
      modifies this`cls, this`glm, this`gla
      ensures Indexed(old(glm), old(gla))
    {
      cls := SizeClusters(mt, mtnum, clnum);
      glm, gla := MapEdges(Resize(glm, mtmass, 0), Resize(gla, mtmass, 0), mt, mtnum);
    }

    /** `populate_cluster_vectors`: classify every live segment, list the
        segments of each cluster and count nodes by degree.  ok reports
        whether every segment could be classified (the source's internal
        check, inactive in its release build). */
    method PopulateClusterVectors() returns (ok: bool)
      requires Valid()
      modifies this`clmt, this`mt11, this`mtc11, this`mt22, this`mtc22
      modifies this`mt33, this`mtc33, this`mt13, this`mtc13, this`nn
      ensures Populated()
      ensures ok == AllClassified(mt, mtnum)
    {
      var v := ClassifyAll(mt, mtnum, clnum);
      Store(v);
      ok := v.ok;
    }

    /** Store the classification in the cluster vectors; the degree-3 count
        is the number of branched segment ends over three. */
    method Store(v: ClassVectors)
      modifies this`clmt, this`mt11, this`mtc11, this`mt22, this`mtc22
      modifies this`mt33, this`mtc33, this`mt13, this`mtc13, this`nn
      ensures clmt == v.clmt && mt11 == v.mt11 && mtc11 == v.mtc11 && mt22 == v.mt22 && mtc22 == v.mtc22
      ensures mt33 == v.mt33 && mtc33 == v.mtc33 && mt13 == v.mt13 && mtc13 == v.mtc13
      ensures nn == [v.free, v.joints, v.branched / 3]
    {
      clmt, mt11, mtc11, mt22, mtc22 := v.clmt, v.mt11, v.mtc11, v.mt22, v.mtc22;
      mt33, mtc33, mt13, mtc13 := v.mt33, v.mtc33, v.mt13, v.mtc13;
      nn := [v.free, v.joints, v.branched / 3];
    }

    /** `make_adjacency_list_edges(c, a)`: the edge adjacency lists of
        cluster c, one per cluster-local edge index, rebuilt from empty. */
    method MakeAdjacencyListEdges(c: nat) returns (a: seq<seq<nat>>)
      requires c < |cls| && c < |clmt| && InRange(mt, clmt[c])
      ensures a == Adjacency(Blank(cls[c], []), mt, clmt[c], |clmt[c]|, 0)
    {
      var segs, ms := clmt[c], mt;
      ghost var a0 := Blank(cls[c], []);
      a := seq(cls[c], _ => []);
      assert a == a0;
      var i := 0;
      while i < |segs|
        invariant i <= |segs|
        invariant a == Adjacency(a0, ms, segs, i, 0)
      {
        var j := segs[i];
        var g := ms[j].g;
        var k := 0;
        while k < |g|
          invariant k <= |g|
          invariant a == Adjacency(a0, ms, segs, i, k)
        {
          var ind := g[k].indcl;
          var links := CollectEdgeLinks(ms, j, k);
          if ind < |a| {
            a := a[ind := a[ind] + links];
          }
          k := k + 1;
        }
        i := i + 1;
      }
    }

    /** `update_adjacency`: grow the per-cluster lists to the cluster count
        if they are fewer, then rebuild the lists of every cluster. */
    method UpdateAdjacency()
      requires ListsInRange()
      modifies this`clagl
      ensures Adjacent(old(clagl))
    {
      if |clagl| < clnum {
        clagl := Resize(clagl, clnum, []);
      }
      var c := 0;
      while c < clnum
        invariant c <= clnum <= |clagl|
        invariant |clagl| == if |old(clagl)| < clnum then clnum else |old(clagl)|
        invariant forall d :: 0 <= d < c ==>
                    clagl[d] == Adjacency(Blank(cls[d], []), mt, clmt[d], |clmt[d]|, 0)
        invariant forall d :: clnum <= d < |clagl| ==> clagl[d] == old(clagl)[d]
        modifies this`clagl
      {
        var l := MakeAdjacencyListEdges(c);
        clagl := clagl[c := l];
        c := c + 1;
      }
    }

    /** `basic_update`: make_indma, then populate_cluster_vectors. */
    method BasicUpdate()
      requires Valid()
      modifies this`cls, this`glm, this`gla
      modifies this`clmt, this`mt11, this`mtc11, this`mt22, this`mtc22
      modifies this`mt33, this`mtc33, this`mt13, this`mtc13, this`nn
      ensures Indexed(old(glm), old(gla)) && Populated()
    {
      MakeIndma();
      ghost var glm0, gla0 := old(glm), old(gla);
      assert Indexed(glm0, gla0);
      var _ := PopulateClusterVectors();
    }

    /** `update_structure`: basic_update, then update_adjacency. */
    method UpdateStructure()
      requires Valid()
      modifies this`cls, this`glm, this`gla
      modifies this`clmt, this`mt11, this`mtc11, this`mt22, this`mtc22
      modifies this`mt33, this`mtc33, this`mt13, this`mtc13, this`nn, this`clagl
      ensures Indexed(old(glm), old(gla)) && Populated() && Adjacent(old(clagl))
    {
      BasicUpdate();
      ClusterSegmentsInRange(mt, mtnum, clnum);
      UpdateAdjacency();
    }

    /** The counting loop inside `update_nn`: the sum of num_nodes(deg)
        over the live segments, divided by 3 for degree 3. */
    method CountNodes(deg: nat) returns (k: nat)
      requires Valid() && 1 <= deg <= 3
      ensures k == NodeNumbers(mt, mtnum)[deg - 1]
    {
      k := 0;
      var i := 1;
      while i <= mtnum
        invariant 1 <= i <= mtnum + 1
        invariant k == NodeSum(mt, i - 1, deg)
      {
        k := k + mt[i].NumNodes(deg);
        i := i + 1;
      }
      if deg == 3 {
        k := k / 3;
      }
    }

    /** `update_nn<deg>`: recount the nodes of one degree. */
    method UpdateNn(deg: nat)
      requires Valid() && 1 <= deg <= 3
      modifies this`nn
      ensures nn == old(nn)[deg - 1 := NodeNumbers(mt, mtnum)[deg - 1]]
    {
      var k := CountNodes(deg);
      nn := nn[deg - 1 := k];
    }

    /** `update_node_numbers`: recount the nodes of every degree. */
    method UpdateNodeNumbers()
      requires Valid()
      modifies this`nn
      ensures nn == NodeNumbers(mt, mtnum)
    {
      UpdateNn(1);
      UpdateNn(2);
      UpdateNn(3);
    }
  }
}
