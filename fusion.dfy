/*
  Model of include/ability_for_fusion.h: the node-type specific fusions.

  fuse11 joins two free ends (of one segment, closing it into a cycle, or
  of two segments, which become one); fuse12 joins a free end to a node
  inside a segment, which is first divided there by fiss2, making a node
  of degree 3; fuse1L joins a free end to the node of a separate cycle.
  Each returns the cluster ids the two participants had before.

  As in the other transformation modules the network is the value State
  and each operation is a function of it, with a method proved equal to
  that function.
*/
module Fusion {
  import opened Segments
  import opened Structure
  import opened CoreTransformer
  import opened Fission
  import opened FissionAtNode

  // ---------------------------------------------------------------------
  // Writing a node

  /** End e of x now has the two neighbours a and b (slots 1 and 2). */
  function Wired(x: Segment, e: nat, a: (nat, nat), b: (nat, nat)): (r: Segment)
    requires e == 1 || e == 2
    ensures Live(r, e) == [a, b] && r.g == x.g && r.cl == x.cl
    ensures var o := Opposite(e); r.nn[o] == x.nn[o] && r.neig[o] == x.neig[o] && r.neen[o] == x.neen[o]
  {
    SetSlot(SetSlot(x, e, 1, a.0, a.1), e, 2, b.0, b.1).(nn := x.nn[e := 2])
  }

  /** `update_cl_fuse(c1, c2)` on the network. */
  function ClustersFused(t: State, c1: nat, c2: nat): (r: State)
    requires t.Good()
    ensures r.Good() && r.mtnum == t.mtnum
  {
    var (m, clnum) := ClFused(t.mt, t.mtnum, t.clnum, c1, c2);
    State(m, t.mtnum, clnum)
  }

  /** `update_cl_fuse(c1, c2)` keeps the edges (by network index), the
      neighbour tables and the edge total, and moves every live segment's
      cluster id by MergeMap. */
  lemma ClustersFusedMeaning(t: State, c1: nat, c2: nat)
    requires t.Good()
    ensures var r := ClustersFused(t, c1, c2);
      r.clnum == Dec(t.clnum) && Mass(r.mt, r.mtnum) == Mass(t.mt, t.mtnum) &&
      forall k :: 1 <= k <= t.mtnum ==>
        r.mt[k] == t.mt[k].(g := r.mt[k].g, cl := r.mt[k].cl) && Inds(r.mt[k].g) == Inds(t.mt[k].g) &&
        r.mt[k].cl == MergeMap(t.mt[k].cl, c1, c2, t.clnum)
  {
    ClFusedMeaning(t.mt, t.mtnum, t.clnum, c1, c2);
    ClFusedTables(t.mt, t.mtnum, t.clnum, c1, c2);
  }

  /** Merging the clusters of two segments puts them in one cluster. */
  lemma MergeMapJoins(c1: nat, c2: nat, clnum: nat)
    ensures MergeMap(c1, c1, c2, clnum) == MergeMap(c2, c1, c2, clnum)
  {
  }

  // ---------------------------------------------------------------------
  // fuse_to_loop

  /** `fuse_to_loop(w)`: the two free ends of w are joined to each other. */
  function Looped(s: State, w: nat): (r: (State, nat, nat))
    requires s.Good() && 1 <= w <= s.mtnum
    requires s.mt[w].nn[1] == 0 && s.mt[w].nn[2] == 0
  {
    var x := s.mt[w];
    var y := SetSlot(SetSlot(x, 1, 1, w, 2), 2, 1, w, 1).(nn := x.nn[1 := 1][2 := 1]);
    (s.(mt := s.mt[w := y]), x.cl, x.cl)
  }

  /** After fuse_to_loop, w is a cycle: each end has one neighbour, the
      other end of w.  Its edges and cluster stay, and nothing else of the
      network changes. */
  ghost predicate LoopedFrom(s: State, r: State, w: nat)
  {
    s.Good() && 1 <= w <= s.mtnum &&
    r.Good() && r.mtnum == s.mtnum && r.clnum == s.clnum &&
    r.mt[w].IsCycle() && Live(r.mt[w], 1) == [(w, 2)] && Live(r.mt[w], 2) == [(w, 1)] &&
    r.mt[w].g == s.mt[w].g && r.mt[w].cl == s.mt[w].cl &&
    forall k :: 0 <= k < |s.mt| && k != w ==> r.mt[k] == s.mt[k]
  }

  lemma LoopedMeaning(s: State, w: nat)
    requires s.Good() && 1 <= w <= s.mtnum
    requires s.mt[w].nn[1] == 0 && s.mt[w].nn[2] == 0
    ensures var (r, cl1, cl2) := Looped(s, w);
      LoopedFrom(s, r, w) && cl1 == s.mt[w].cl && cl2 == s.mt[w].cl &&
      Mass(r.mt, r.mtnum) == Mass(s.mt, s.mtnum)
  {
    var r := Looped(s, w).0;
    MassUpdate(s.mt, s.mtnum, w, r.mt[w]);
  }

  /** Closing a lone segment of length L into a cycle turns its two nodes
      of degree 1 into one more node of degree 2: it counts L nodes of
      degree 2 instead of L - 1. */
  lemma LoopedNodes(s: State, w: nat)
    requires s.Good() && 1 <= w <= s.mtnum
    requires s.mt[w].nn[1] == 0 && s.mt[w].nn[2] == 0 && |s.mt[w].g| > 0
    ensures var y := Looped(s, w).0.mt[w];
      s.mt[w].NumNodes(1) == 2 && y.NumNodes(1) == 0 &&
      s.mt[w].NumNodes(2) + 1 == |s.mt[w].g| && y.NumNodes(2) == |s.mt[w].g| &&
      y.NumNodes(3) == 0 && s.mt[w].NumNodes(3) == 0
  {
    LoopedMeaning(s, w);
  }

  method FuseToLoop(s: State, w: nat) returns (r: State, cl1: nat, cl2: nat)
    requires s.Good() && 1 <= w <= s.mtnum
    requires s.mt[w].nn[1] == 0 && s.mt[w].nn[2] == 0
    ensures (r, cl1, cl2) == Looped(s, w)
  {
    var y := s.mt[w];
    y := y.(nn := y.nn[1 := 1][2 := 1]);
    y := SetSlot(y, 1, 1, w, 2);
    y := SetSlot(y, 2, 1, w, 1);
    r := s.(mt := s.mt[w := y]);
    cl1, cl2 := y.cl, y.cl;
  }

  // ---------------------------------------------------------------------
  // fuse11

  /** `fuse11(w1, e1, w2, e2)`: two ends of one segment close it into a
      cycle; ends of the same number are fused antiparallel; otherwise
      parallel, the segment whose end 1 is joined coming first. */
  function Fused11(s: State, w1: nat, e1: nat, w2: nat, e2: nat): (r: (State, nat, nat))
    requires s.Good() && 1 <= w1 <= s.mtnum && 1 <= w2 <= s.mtnum
    requires (e1 == 1 || e1 == 2) && (e2 == 1 || e2 == 2)
    requires s.mt[w1].nn[e1] == 0 && s.mt[w2].nn[e2] == 0
    requires w1 == w2 ==> s.mt[w1].nn[1] == 0 && s.mt[w1].nn[2] == 0
  {
    if w2 == w1 then Looped(s, w1)
    else if e1 == e2 then FusedAntiparallel(s, e1, w1, w2)
    else if e1 == 1 then FusedParallel(s, w1, w2)
    else FusedParallel(s, w2, w1)
  }

  /** fuse11 of two segments is the splice of their ends (one segment
      holding the edges of both, the edge total kept); of one segment it
      closes the loop.  Either way it returns the two participants'
      original cluster ids. */
  lemma Fused11Meaning(s: State, w1: nat, e1: nat, w2: nat, e2: nat)
    requires s.Good() && 1 <= w1 <= s.mtnum && 1 <= w2 <= s.mtnum
    requires (e1 == 1 || e1 == 2) && (e2 == 1 || e2 == 2)
    requires s.mt[w1].nn[e1] == 0 && s.mt[w2].nn[e2] == 0
    requires w1 == w2 ==> s.mt[w1].nn[1] == 0 && s.mt[w1].nn[2] == 0
    ensures var (r, cl1, cl2) := Fused11(s, w1, e1, w2, e2);
      multiset{cl1, cl2} == multiset{s.mt[w1].cl, s.mt[w2].cl} &&
      Mass(r.mt, r.mtnum) == Mass(s.mt, s.mtnum) &&
      (w1 == w2 ==> LoopedFrom(s, r, w1)) &&
      (w1 != w2 ==> SplicedFrom(s, r, w1, e1, w2, e2))
  {
    if w1 == w2 {
      LoopedMeaning(s, w1);
    } else {
      Fused11Splices(s, w1, e1, w2, e2);
    }
  }

  /** fuse11 of two segments picks the fusion Spliced picks. */
  lemma Fused11Splices(s: State, w1: nat, e1: nat, w2: nat, e2: nat)
    requires s.Good() && 1 <= w1 <= s.mtnum && 1 <= w2 <= s.mtnum && w1 != w2
    requires (e1 == 1 || e1 == 2) && (e2 == 1 || e2 == 2)
    requires s.mt[w1].nn[e1] == 0 && s.mt[w2].nn[e2] == 0
    ensures var (r, cl1, cl2) := Fused11(s, w1, e1, w2, e2);
      r == Spliced(s, w1, e1, w2, e2) && multiset{cl1, cl2} == multiset{s.mt[w1].cl, s.mt[w2].cl}
  {
    var r := Fused11(s, w1, e1, w2, e2).0;
    if e1 == e2 {
      assert r == FusedAntiparallel(s, e1, w1, w2).0;
      assert r == SplicedAntiparallel(s, w1, e1, w2, e2);
    } else if e1 == 1 {
      assert r == FusedParallel(s, w1, w2).0;
      assert r == SplicedParallel(s, w1, e1, w2, e2);
    } else {
      assert r == FusedParallel(s, w2, w1).0;
      assert r == SplicedParallel(s, w2, e2, w1, e1);
    }
  }

  method Fuse11(s: State, w1: nat, e1: nat, w2: nat, e2: nat) returns (r: State, cl1: nat, cl2: nat)
    requires s.Good() && 1 <= w1 <= s.mtnum && 1 <= w2 <= s.mtnum
    requires (e1 == 1 || e1 == 2) && (e2 == 1 || e2 == 2)
    requires s.mt[w1].nn[e1] == 0 && s.mt[w2].nn[e2] == 0
    requires w1 == w2 ==> s.mt[w1].nn[1] == 0 && s.mt[w1].nn[2] == 0
    ensures (r, cl1, cl2) == Fused11(s, w1, e1, w2, e2)
  {
    if w2 == w1 {
      r, cl1, cl2 := FuseToLoop(s, w1);
    } else if e1 == e2 {
      r, cl1, cl2 := FuseAntiparallel(s, e1, w1, w2);
    } else if e1 == 1 {
      r, cl1, cl2 := FuseParallel(s, w1, w2);
    } else {
      r, cl1, cl2 := FuseParallel(s, w2, w1);
    }
  }

  // ---------------------------------------------------------------------
  // fuse1L

  /** The neighbour writes of fuse1L: end e1 of w1 meets both ends of the
      cycle w2 at one node. */
  function CycleWired(m: seq<Segment>, w1: nat, e1: nat, w2: nat): (r: seq<Segment>)
    requires w1 < |m| && w2 < |m| && (e1 == 1 || e1 == 2)
    ensures |r| == |m|
    ensures w1 != w2 ==>
      var o := Opposite(e1);
      Live(r[w1], e1) == [(w2, 1), (w2, 2)] &&
      Live(r[w2], 1) == [(w2, 2), (w1, e1)] && Live(r[w2], 2) == [(w2, 1), (w1, e1)] &&
      r[w1].nn[o] == m[w1].nn[o] && r[w1].neig[o] == m[w1].neig[o] && r[w1].neen[o] == m[w1].neen[o]
    ensures forall k :: 0 <= k < |m| ==> r[k].g == m[k].g && r[k].cl == m[k].cl
    ensures forall k :: 0 <= k < |m| && k != w1 && k != w2 ==> r[k] == m[k]
  {
    var m1 := m[w1 := Wired(m[w1], e1, (w2, 1), (w2, 2))];
    var m2 := m1[w2 := Wired(m1[w2], 1, (w2, 2), (w1, e1))];
    m2[w2 := Wired(m2[w2], 2, (w2, 1), (w1, e1))]
  }

  /** `fuse1L(w1, e1, w2)`: the node of the cycle w2 becomes a node of
      degree 3 with end e1 of w1, and the two clusters merge. */
  function FusedToCycle(s: State, w1: nat, e1: nat, w2: nat): (r: (State, nat, nat))
    requires s.Good() && 1 <= w1 <= s.mtnum && 1 <= w2 <= s.mtnum && (e1 == 1 || e1 == 2)
    ensures r.0.Good() && r.0.mtnum == s.mtnum
  {
    var cl1, cl2 := s.mt[w1].cl, s.mt[w2].cl;
    var t := s.(mt := CycleWired(s.mt, w1, e1, w2));
    (if t.mt[w1].cl != t.mt[w2].cl then ClustersFused(t, t.mt[w1].cl, t.mt[w2].cl) else t, cl1, cl2)
  }

  /** After fuse1L: end e1 of w1 records both ends of w2, and each end of
      w2 records the other end of w2 and end e1 of w1; w1 and w2 are in
      one cluster, one cluster fewer if they were in two.  The other end
      of w1 is untouched, every other segment keeps its neighbours, every
      segment keeps its edges, and the edge total is kept. */
  lemma FusedToCycleMeaning(s: State, w1: nat, e1: nat, w2: nat)
    requires s.Good() && 1 <= w1 <= s.mtnum && 1 <= w2 <= s.mtnum && (e1 == 1 || e1 == 2)
    requires w1 != w2
    ensures var (r, cl1, cl2) := FusedToCycle(s, w1, e1, w2);
      var o := Opposite(e1);
      cl1 == s.mt[w1].cl && cl2 == s.mt[w2].cl &&
      Live(r.mt[w1], e1) == [(w2, 1), (w2, 2)] &&
      Live(r.mt[w2], 1) == [(w2, 2), (w1, e1)] && Live(r.mt[w2], 2) == [(w2, 1), (w1, e1)] &&
      r.mt[w1].nn[o] == s.mt[w1].nn[o] && r.mt[w1].neig[o] == s.mt[w1].neig[o] &&
      r.mt[w1].neen[o] == s.mt[w1].neen[o] &&
      r.mt[w1].cl == r.mt[w2].cl && r.clnum == (if cl1 != cl2 then Dec(s.clnum) else s.clnum) &&
      Mass(r.mt, r.mtnum) == Mass(s.mt, s.mtnum) &&
      (forall k :: 1 <= k <= s.mtnum ==> Inds(r.mt[k].g) == Inds(s.mt[k].g)) &&
      (forall k :: 1 <= k <= s.mtnum && k != w1 && k != w2 ==>
         r.mt[k] == s.mt[k].(g := r.mt[k].g, cl := r.mt[k].cl) &&
         r.mt[k].cl == (if cl1 != cl2 then MergeMap(s.mt[k].cl, cl1, cl2, s.clnum) else s.mt[k].cl))
  {
    FusedToCycleWires(s, w1, e1, w2);
    FusedToCycleClusters(s, w1, e1, w2);
  }

  /** The neighbour lists fuse1L writes, and the other end of w1 untouched. */
  lemma FusedToCycleWires(s: State, w1: nat, e1: nat, w2: nat)
    requires s.Good() && 1 <= w1 <= s.mtnum && 1 <= w2 <= s.mtnum && (e1 == 1 || e1 == 2)
    requires w1 != w2
    ensures var (r, cl1, cl2) := FusedToCycle(s, w1, e1, w2);
      var o := Opposite(e1);
      Live(r.mt[w1], e1) == [(w2, 1), (w2, 2)] &&
      Live(r.mt[w2], 1) == [(w2, 2), (w1, e1)] && Live(r.mt[w2], 2) == [(w2, 1), (w1, e1)] &&
      r.mt[w1].nn[o] == s.mt[w1].nn[o] && r.mt[w1].neig[o] == s.mt[w1].neig[o] &&
      r.mt[w1].neen[o] == s.mt[w1].neen[o]
  {
    var t := s.(mt := CycleWired(s.mt, w1, e1, w2));
    if s.mt[w1].cl != s.mt[w2].cl {
      ClustersFusedMeaning(t, s.mt[w1].cl, s.mt[w2].cl);
    }
  }

  /** The clusters after fuse1L, the edges and the edge total. */
  lemma FusedToCycleClusters(s: State, w1: nat, e1: nat, w2: nat)
    requires s.Good() && 1 <= w1 <= s.mtnum && 1 <= w2 <= s.mtnum && (e1 == 1 || e1 == 2)
    requires w1 != w2
    ensures var (r, cl1, cl2) := FusedToCycle(s, w1, e1, w2);
      cl1 == s.mt[w1].cl && cl2 == s.mt[w2].cl &&
      r.mt[w1].cl == r.mt[w2].cl && r.clnum == (if cl1 != cl2 then Dec(s.clnum) else s.clnum) &&
      Mass(r.mt, r.mtnum) == Mass(s.mt, s.mtnum) &&
      (forall k :: 1 <= k <= s.mtnum ==> Inds(r.mt[k].g) == Inds(s.mt[k].g)) &&
      (forall k :: 1 <= k <= s.mtnum && k != w1 && k != w2 ==>
         r.mt[k] == s.mt[k].(g := r.mt[k].g, cl := r.mt[k].cl) &&
         r.mt[k].cl == (if cl1 != cl2 then MergeMap(s.mt[k].cl, cl1, cl2, s.clnum) else s.mt[k].cl))
  {
    var t := s.(mt := CycleWired(s.mt, w1, e1, w2));
    MassFrame(s.mt, t.mt, s.mtnum);
    if s.mt[w1].cl != s.mt[w2].cl {
      ClustersFusedMeaning(t, s.mt[w1].cl, s.mt[w2].cl);
      MergeMapJoins(s.mt[w1].cl, s.mt[w2].cl, s.clnum);
    }
  }

  method Fuse1L(s: State, w1: nat, e1: nat, w2: nat) returns (r: State, cl1: nat, cl2: nat)
    requires s.Good() && 1 <= w1 <= s.mtnum && 1 <= w2 <= s.mtnum && (e1 == 1 || e1 == 2)
    ensures (r, cl1, cl2) == FusedToCycle(s, w1, e1, w2)
  {
    cl1, cl2 := s.mt[w1].cl, s.mt[w2].cl;
    var mt := s.mt;
    mt := mt[w1 := Wired(mt[w1], e1, (w2, 1), (w2, 2))];
    mt := mt[w2 := Wired(mt[w2], 1, (w2, 2), (w1, e1))];
    mt := mt[w2 := Wired(mt[w2], 2, (w2, 1), (w1, e1))];
    r := s.(mt := mt);
    if mt[w1].cl != mt[w2].cl {
      var m, clnum := UpdateClFuse(mt, s.mtnum, s.clnum, mt[w1].cl, mt[w2].cl);
      r := State(m, s.mtnum, clnum);
    }
  }

  // ---------------------------------------------------------------------
  // fuse12

  /** The neighbour writes of fuse12 once w2 is divided and mi is the
      piece that starts at the division node: end `end` of w1, end 2 of
      w2 and end 1 of mi meet at one node.  When w1 is w2, its free end
      meets its own division node: end 1 meets end 2 of w1 and end 1 of
      mi, or end 2 of mi meets end 2 of w1 and end 1 of mi. */
  function Wired12(m: seq<Segment>, w1: nat, end: nat, w2: nat, mi: nat): (r: seq<Segment>)
    requires w1 < |m| && w2 < |m| && mi < |m| && (end == 1 || end == 2)
    ensures |r| == |m|
    ensures forall k :: 0 <= k < |m| ==> r[k].g == m[k].g && r[k].cl == m[k].cl
  {
    if w1 == w2 then
      if end == 1 then
        var m1 := m[w1 := Wired(Wired(m[w1], 1, (w1, 2), (mi, 1)), 2, (w1, 1), (mi, 1))];
        m1[mi := Wired(m1[mi], 1, (w1, 1), (w1, 2))]
      else
        var m1 := m[w1 := Wired(m[w1], 2, (mi, 1), (mi, 2))];
        m1[mi := Wired(Wired(m1[mi], 1, (w1, 2), (mi, 2)), 2, (w1, 2), (mi, 1))]
    else WiredApart(m, w1, end, w2, mi)
  }

  /** The writes of fuse12 for two different segments. */
  function WiredApart(m: seq<Segment>, w1: nat, end: nat, w2: nat, mi: nat): (r: seq<Segment>)
    requires w1 < |m| && w2 < |m| && mi < |m| && (end == 1 || end == 2)
    ensures |r| == |m|
    ensures forall k :: 0 <= k < |m| ==> r[k].g == m[k].g && r[k].cl == m[k].cl
    ensures w1 != w2 && w1 != mi ==>
      Live(r[w1], end) == [(w2, 2), (mi, 1)] && Live(r[w2], 2) == [(w1, end), (mi, 1)] &&
      Live(r[mi], 1) == [(w1, end), (w2, 2)]
  {
    var m1 := m[w1 := Wired(m[w1], end, (w2, 2), (mi, 1))];
    var m2 := m1[w2 := Wired(m1[w2], 2, (w1, end), (mi, 1))];
    m2[mi := Wired(m2[mi], 1, (w1, end), (w2, 2))]
  }

  /** The cluster merges ending fuse12: mi's cluster joins w2's, then
      w2's joins w1's, each only when they differ. */
  function Merged12(t: State, w1: nat, w2: nat, mi: nat): (r: State)
    requires t.Good() && 1 <= w1 <= t.mtnum && 1 <= w2 <= t.mtnum && 1 <= mi <= t.mtnum
    ensures r.Good() && r.mtnum == t.mtnum
  {
    var t1 := if t.mt[w2].cl != t.mt[mi].cl then ClustersFused(t, t.mt[w2].cl, t.mt[mi].cl) else t;
    if t1.mt[w2].cl != t1.mt[w1].cl then ClustersFused(t1, t1.mt[w1].cl, t1.mt[w2].cl) else t1
  }

  /** The merges put w1, w2 and mi in one cluster, and change no edge (by
      network index), no neighbour table and not the edge total. */
  lemma Merged12Joins(t: State, w1: nat, w2: nat, mi: nat)
    requires t.Good() && 1 <= w1 <= t.mtnum && 1 <= w2 <= t.mtnum && 1 <= mi <= t.mtnum
    ensures var r := Merged12(t, w1, w2, mi);
      r.mt[w1].cl == r.mt[w2].cl && r.mt[w2].cl == r.mt[mi].cl &&
      Mass(r.mt, r.mtnum) == Mass(t.mt, t.mtnum) &&
      forall k :: 1 <= k <= t.mtnum ==>
        r.mt[k] == t.mt[k].(g := r.mt[k].g, cl := r.mt[k].cl) && Inds(r.mt[k].g) == Inds(t.mt[k].g)
  {
    var t1 := if t.mt[w2].cl != t.mt[mi].cl then ClustersFused(t, t.mt[w2].cl, t.mt[mi].cl) else t;
    if t.mt[w2].cl != t.mt[mi].cl {
      ClustersFusedMeaning(t, t.mt[w2].cl, t.mt[mi].cl);
      MergeMapJoins(t.mt[w2].cl, t.mt[mi].cl, t.clnum);
    }
    if t1.mt[w2].cl != t1.mt[w1].cl {
      ClustersFusedMeaning(t1, t1.mt[w1].cl, t1.mt[w2].cl);
      MergeMapJoins(t1.mt[w1].cl, t1.mt[w2].cl, t1.clnum);
    }
  }

  /** The piece of w2 that starts at the division node: w2 itself when it
      is a cycle (fiss2 opens it), the new last segment otherwise. */
  function Piece(s: State, w2: nat): nat
    requires 1 <= w2 < |s.mt|
  {
    if s.mt[w2].IsCycle() then w2 else s.mtnum + 1
  }

  /** `fuse12(w1, end, w2, a2)`: fiss2 divides w2 after its a2-th edge,
      and end `end` of w1 is joined to the node made there.  The clusters
      returned are those w1 and w2 had before. */
  function Fused12(s: State, vis: seq<nat>, w1: nat, end: nat, w2: nat, a2: nat): (r: Outcome)
    requires s.Good() && Linked(s.mt, s.mtnum) && 1 <= w1 <= s.mtnum && (end == 1 || end == 2)
    requires 1 <= w2 <= s.mtnum && 0 < a2 < |s.mt[w2].g|
  {
    AttachedAfter(s, Fissioned2(s, vis, w2, a2), w1, end, w2)
  }

  /** fuse12 from the outcome o of its fiss2: an exit is passed on. */
  function AttachedAfter(s: State, o: Outcome, w1: nat, end: nat, w2: nat): (r: Outcome)
    requires s.Good() && 1 <= w1 <= s.mtnum && (end == 1 || end == 2) && 1 <= w2 <= s.mtnum
    requires o.Done? ==> o.split.s.Good() && s.mtnum <= o.split.s.mtnum
  {
    match o
    case Exit(msg) => Exit(msg)
    case Done(sp) => Done(Attached(sp, w1, end, w2, Piece(s, w2), s.mt[w1].cl, s.mt[w2].cl))
  }

  /** The part of fuse12 after fiss2: the writes and the cluster merges,
      on the network fiss2 left. */
  function Attached(sp: Split, w1: nat, end: nat, w2: nat, mi: nat, cl1: nat, cl2: nat): (r: Split)
    requires sp.s.Good() && 1 <= w1 <= sp.s.mtnum && 1 <= w2 <= sp.s.mtnum && 1 <= mi && (end == 1 || end == 2)
  {
    var f := sp.s;
    if mi <= f.mtnum then Split(Merged12(f.(mt := Wired12(f.mt, w1, end, w2, mi)), w1, w2, mi), sp.vis, cl1, cl2)
    else Split(f, sp.vis, cl1, cl2)
  }

  /** For two different segments the joining leaves the segment count,
      the edges (by network index) and the edge total as they were, and
      when mi exists makes the junction of end `end` of w1, end 2 of w2
      and end 1 of mi, all three in one cluster. */
  lemma AttachedMeaning(sp: Split, w1: nat, end: nat, w2: nat, mi: nat, cl1: nat, cl2: nat)
    requires sp.s.Good() && 1 <= w1 <= sp.s.mtnum && 1 <= w2 <= sp.s.mtnum && 1 <= mi && (end == 1 || end == 2)
    requires w1 != w2 && w1 != mi
    ensures var r := Attached(sp, w1, end, w2, mi, cl1, cl2);
      var f := r.s.mt;
      r.cl1 == cl1 && r.cl2 == cl2 && r.s.Good() && r.s.mtnum == sp.s.mtnum &&
      Mass(f, r.s.mtnum) == Mass(sp.s.mt, sp.s.mtnum) &&
      (forall k :: 1 <= k <= r.s.mtnum ==> Inds(f[k].g) == Inds(sp.s.mt[k].g)) &&
      (mi <= r.s.mtnum ==>
         Live(f[w1], end) == [(w2, 2), (mi, 1)] && Live(f[w2], 2) == [(w1, end), (mi, 1)] &&
         Live(f[mi], 1) == [(w1, end), (w2, 2)] &&
         f[w1].cl == f[w2].cl && f[w2].cl == f[mi].cl)
  {
    var f := sp.s;
    if mi <= f.mtnum {
      var t := f.(mt := Wired12(f.mt, w1, end, w2, mi));
      MassFrame(f.mt, t.mt, f.mtnum);
      Merged12Joins(t, w1, w2, mi);
    }
  }

  /** What fuse12 of two different segments promises (see Fused12Junction). */
  ghost predicate Joined12(s: State, sp: Split, w1: nat, end: nat, w2: nat, a2: nat)
  {
    s.Good() && 1 <= w1 <= s.mtnum && 1 <= w2 <= s.mtnum && (end == 1 || end == 2) && a2 <= |s.mt[w2].g| &&
    sp.s.Good() && s.mtnum <= sp.s.mtnum &&
    var f, n, mi, g := sp.s.mt, s.mtnum, Piece(s, w2), s.mt[w2].g;
    sp.cl1 == s.mt[w1].cl && sp.cl2 == s.mt[w2].cl &&
    Mass(f, sp.s.mtnum) == Mass(s.mt, n) &&
    (sp.s.mtnum == n + 1 ==> Inds(f[w2].g) == Inds(g[..a2]) && Inds(f[n + 1].g) == Inds(g[a2..])) &&
    (mi <= sp.s.mtnum ==>
       Live(f[w1], end) == [(w2, 2), (mi, 1)] && Live(f[w2], 2) == [(w1, end), (mi, 1)] &&
       Live(f[mi], 1) == [(w1, end), (w2, 2)] &&
       f[w1].cl == f[w2].cl && f[w2].cl == f[mi].cl)
  }

  /** fuse12 of a free end and a node inside another segment keeps the
      edge total and returns the two participants' clusters; when w2 was
      divided into w2 and mi, w2 keeps its first a2 edges and mi takes the
      rest; and end `end` of w1, end 2 of w2 and end 1 of mi each record
      the other two, all three in one cluster. */
  lemma Fused12Junction(s: State, vis: seq<nat>, w1: nat, end: nat, w2: nat, a2: nat)
    requires s.Good() && Linked(s.mt, s.mtnum) && ClustersBelow(s.mt, s.mtnum, s.clnum)
    requires 1 <= w1 <= s.mtnum && (end == 1 || end == 2) && 1 <= w2 <= s.mtnum && w1 != w2
    requires 0 < a2 < |s.mt[w2].g|
    ensures var r := Fused12(s, vis, w1, end, w2, a2);
      r.Done? ==> Joined12(s, r.split, w1, end, w2, a2)
  {
    Fissioned2KeepsMass(s, vis, w2, a2);
    Fissioned2Divides(s, vis, w2, a2);
    var o := Fissioned2(s, vis, w2, a2);
    if o.Done? {
      AttachedJoins(s, o.split, w1, end, w2, a2);
    }
  }

  /** The joining, from any division of w2 that keeps the edge total. */
  lemma AttachedJoins(s: State, sp: Split, w1: nat, end: nat, w2: nat, a2: nat)
    requires s.Good() && 1 <= w1 <= s.mtnum && (end == 1 || end == 2) && 1 <= w2 <= s.mtnum && w1 != w2
    requires 0 < a2 < |s.mt[w2].g|
    requires sp.s.Good() && (sp.s.mtnum == s.mtnum + 1 || sp.s.mtnum == s.mtnum)
    requires Mass(sp.s.mt, sp.s.mtnum) == Mass(s.mt, s.mtnum)
    requires sp.s.mtnum == s.mtnum + 1 ==> Divides(s, sp.s, w2, a2)
    ensures Joined12(s, Attached(sp, w1, end, w2, Piece(s, w2), s.mt[w1].cl, s.mt[w2].cl), w1, end, w2, a2)
  {
    AttachedMeaning(sp, w1, end, w2, Piece(s, w2), s.mt[w1].cl, s.mt[w2].cl);
  }

  /** The writes of fuse12, in the source's order. */
  method Wire12(m: seq<Segment>, w1: nat, end: nat, w2: nat, mi: nat) returns (r: seq<Segment>)
    requires w1 < |m| && w2 < |m| && mi < |m| && (end == 1 || end == 2)
    ensures r == Wired12(m, w1, end, w2, mi)
  {
    r := m;
    if w1 == w2 {
      if end == 1 {
        r := r[w1 := Wired(r[w1], 1, (w1, 2), (mi, 1))];
        r := r[w1 := Wired(r[w1], 2, (w1, 1), (mi, 1))];
        r := r[mi := Wired(r[mi], 1, (w1, 1), (w1, 2))];
      } else {
        r := r[w1 := Wired(r[w1], 2, (mi, 1), (mi, 2))];
        r := r[mi := Wired(r[mi], 1, (w1, 2), (mi, 2))];
        r := r[mi := Wired(r[mi], 2, (w1, 2), (mi, 1))];
      }
    } else {
      r := r[w1 := Wired(r[w1], end, (w2, 2), (mi, 1))];
      r := r[w2 := Wired(r[w2], 2, (w1, end), (mi, 1))];
      r := r[mi := Wired(r[mi], 1, (w1, end), (w2, 2))];
    }
  }

  /** The cluster merges of fuse12. */
  method Merge12(t: State, w1: nat, w2: nat, mi: nat) returns (r: State)
    requires t.Good() && 1 <= w1 <= t.mtnum && 1 <= w2 <= t.mtnum && 1 <= mi <= t.mtnum
    ensures r == Merged12(t, w1, w2, mi)
  {
    r := t;
    if r.mt[w2].cl != r.mt[mi].cl {
      var m, clnum := UpdateClFuse(r.mt, r.mtnum, r.clnum, r.mt[w2].cl, r.mt[mi].cl);
      r := State(m, r.mtnum, clnum);
    }
    if r.mt[w2].cl != r.mt[w1].cl {
      var m, clnum := UpdateClFuse(r.mt, r.mtnum, r.clnum, r.mt[w1].cl, r.mt[w2].cl);
      r := State(m, r.mtnum, clnum);
    }
  }

  /** The part of fuse12 after fiss2. */
  method Attach(sp: Split, w1: nat, end: nat, w2: nat, mi: nat, cl1: nat, cl2: nat) returns (r: Split)
    requires sp.s.Good() && 1 <= w1 <= sp.s.mtnum && 1 <= w2 <= sp.s.mtnum && 1 <= mi && (end == 1 || end == 2)
    ensures r == Attached(sp, w1, end, w2, mi, cl1, cl2)
  {
    var f := sp.s;
    if mi <= f.mtnum {
      var mt := Wire12(f.mt, w1, end, w2, mi);
      f := Merge12(f.(mt := mt), w1, w2, mi);
    }
    r := Split(f, sp.vis, cl1, cl2);
  }

  method Fuse12(s: State, vis: seq<nat>, w1: nat, end: nat, w2: nat, a2: nat) returns (r: Outcome)
    requires s.Good() && Linked(s.mt, s.mtnum) && 1 <= w1 <= s.mtnum && (end == 1 || end == 2)
    requires 1 <= w2 <= s.mtnum && 0 < a2 < |s.mt[w2].g|
    ensures r == Fused12(s, vis, w1, end, w2, a2)
  {
    var o := Fiss2(s, vis, w2, a2);
    r := AttachAfter(s, o, w1, end, w2);
  }

  method AttachAfter(s: State, o: Outcome, w1: nat, end: nat, w2: nat) returns (r: Outcome)
    requires s.Good() && 1 <= w1 <= s.mtnum && (end == 1 || end == 2) && 1 <= w2 <= s.mtnum
    requires o.Done? ==> o.split.s.Good() && s.mtnum <= o.split.s.mtnum
    ensures r == AttachedAfter(s, o, w1, end, w2)
  {
    var cl1, cl2 := s.mt[w1].cl, s.mt[w2].cl;
    var mi := if s.mt[w2].IsCycle() then w2 else s.mtnum + 1;
    match o
    case Exit(msg) =>
      r := Exit(msg);
    case Done(sp) =>
      var sp' := Attach(sp, w1, end, w2, mi, cl1, cl2);
      r := Done(sp');
  }
}
