/*
  Model of the rest of include/ability_for_fission.h: fiss3, the fission of
  a segment at one of its ends (a node of degree 3, or of degree 2 when the
  segment lies in a loop), and fiss, the dispatch between fiss2 and fiss3.

  fiss3(w, e) cuts the junction at end e of w: the cluster is split if the
  cut disconnects it (update_cl_fiss), w's end e forgets its neighbours
  (update_neigs), and when the two segments left at the junction are each
  other's only neighbours there, they are fused into one (fuse_parallel or
  fuse_antiparallel).  The cluster ids of the pieces are read back through
  the edge-to-segment map that update_structure rebuilds.
*/
module FissionAtNode {
  import opened Edges
  import opened Segments
  import opened Structure
  import opened CoreTransformer
  import opened Fission

  // ---------------------------------------------------------------------
  // What fiss3 reads before it changes anything

  /** The network index of the edge at end e of segment k (`get_ind` of
      g.front() or g.back()), or Huge when k is not a segment with edges. */
  function EndInd(mt: seq<Segment>, k: nat, e: nat): nat
    requires e == 1 || e == 2
  {
    if 1 <= k < |mt| && |mt[k].g| > 0 then mt[k].g[mt[k].End2A(e)].ind else Huge
  }

  /** ind2 of fiss3: the edge, at the junction, of the neighbour recorded in
      slot 1 of end e of w. */
  function SlotOneInd(mt: seq<Segment>, w: nat, e: nat): nat
    requires w < |mt| && (e == 1 || e == 2)
  {
    var (nb, ne) := Entry(mt[w], e, 1);
    if ne == 1 || ne == 2 then EndInd(mt, nb, ne) else Huge
  }

  /** `double_neig_indexes(e)`: the occupied slots of end e, padded with 0
      to nn[e] entries. */
  function NeigSlots(s: Segment, e: nat): (r: seq<nat>)
    requires e == 1 || e == 2
    ensures |r| == s.nn[e] && forall k :: 0 <= k < |r| ==> r[k] < MaxDegree
  {
    var z := NonzeroSlots(s.neig[e], s.nn[e]);
    z + seq(s.nn[e] - |z|, _ => 0)
  }

  /** The two neighbours (n[0], e[0]) and (n[1], e[1]) that fiss3 reads at
      an end with two neighbours. */
  function Pair(s: Segment, e: nat): (nat, nat, nat, nat)
    requires (e == 1 || e == 2) && s.nn[e] == 2
  {
    var ninds := NeigSlots(s, e);
    var (n0, e0) := Entry(s, e, ninds[0]);
    var (n1, e1) := Entry(s, e, ninds[1]);
    (n0, e0, n1, e1)
  }

  /** In a linked network the two neighbours are the ones in slots 1 and 2,
      each an end of a live segment. */
  lemma PairLinked(mt: seq<Segment>, n: nat, w: nat, e: nat)
    requires Linked(mt, n) && 1 <= w <= n && (e == 1 || e == 2) && mt[w].nn[e] == 2
    ensures var (n0, e0, n1, e1) := Pair(mt[w], e);
      (n0, e0) == Entry(mt[w], e, 1) && (n1, e1) == Entry(mt[w], e, 2) &&
      1 <= n0 <= n && 1 <= n1 <= n && (e0 == 1 || e0 == 2) && (e1 == 1 || e1 == 2)
  {
    var row := mt[w].neig[e];
    assert row[1] != 0 && row[2] != 0;
    assert NonzeroSlots(row, 1) == [1];
    assert NonzeroSlots(row, 2) == [1, 2];
  }

  // ---------------------------------------------------------------------
  // The cut

  /** The first steps of fiss3: `update_cl_fiss(w, e)`, then, when w lay on
      no cycle, `update_gIndcl(clini)` for the part of the cluster that w
      keeps. */
  function Cut(s: State, vis: seq<nat>, w: nat, e: nat): (r: (State, seq<nat>, bool))
    requires s.Good() && Linked(s.mt, s.mtnum) && 1 <= w <= s.mtnum && (e == 1 || e == 2)
    ensures r.0.Good() && r.0.mtnum == s.mtnum
  {
    var (c, v, cyc) := ClusterCut(s, vis, w, e);
    if cyc then (c, v, cyc)
    else (State(GIndcl(c.mt, c.mtnum, s.mt[w].cl), c.mtnum, c.clnum), v, cyc)
  }

  /** The cut moves edges between clusters only: every live segment keeps
      its edges (by network index) and its neighbour tables, w keeps its
      cluster, the edge total is kept and every cluster id stays below the
      count.  On a cycle nothing changes; otherwise the neighbours at end e
      form the new cluster clnum, and both clusters are numbered densely. */
  ghost predicate CutFrom(s: State, c: State, cyc: bool, w: nat, e: nat)
  {
    s.Good() && Linked(s.mt, s.mtnum) && c.Good() && c.mtnum == s.mtnum &&
    1 <= w <= s.mtnum && (e == 1 || e == 2) &&
    var n := s.mtnum;
    c.mt[w].cl == s.mt[w].cl && Mass(c.mt, n) == Mass(s.mt, n) && ClustersBelow(c.mt, n, c.clnum) &&
    (forall k :: 1 <= k <= n ==>
       Inds(c.mt[k].g) == Inds(s.mt[k].g) && c.mt[k].nn == s.mt[k].nn &&
       c.mt[k].neig == s.mt[k].neig && c.mt[k].neen == s.mt[k].neen) &&
    (cyc ==> c == s && Leads(s.mt, n, (w, e), (w, Opposite(e)), w)) &&
    (!cyc ==>
       c.clnum == s.clnum + 1 && Dense(c.mt, n, s.mt[w].cl) && Dense(c.mt, n, s.clnum) &&
       forall j :: 1 <= j <= s.mt[w].nn[e] && s.mt[w].neig[e][j] != w ==>
         c.mt[s.mt[w].neig[e][j]].cl == s.clnum)
  }

  lemma CutMeaning(s: State, vis: seq<nat>, w: nat, e: nat)
    requires s.Good() && Linked(s.mt, s.mtnum) && ClustersBelow(s.mt, s.mtnum, s.clnum)
    requires 1 <= w <= s.mtnum && (e == 1 || e == 2)
    ensures var ct := Cut(s, vis, w, e); CutFrom(s, ct.0, ct.2, w, e)
  {
    var n := s.mtnum;
    var (c, v, cyc) := ClusterCut(s, vis, w, e);
    ClusterCutCycle(s, vis, w, e);
    ClusterCutRegroups(s, vis, w, e);
    ClusterCutNumbering(s, vis, w, e);
    ClusterCutTakesNeighbours(s, vis, w, e);
    if !cyc {
      var clini := s.mt[w].cl;
      var r := GIndcl(c.mt, n, clini);
      GIndclFrame(c.mt, n, clini);
      GIndclMass(c.mt, n, clini);
      GIndclDistinct(c.mt, n, clini);
      GIndclKeepsOther(c.mt, n, clini, s.clnum);
      forall k | 1 <= k <= n
        ensures Inds(r[k].g) == Inds(s.mt[k].g)
      {
        GIndclKeeps(c.mt, n, clini, k);
      }
    }
  }

  // ---------------------------------------------------------------------
  // Unlinking the junction

  /** `update_neigs(w, e, 1, nn[e])`: each neighbour recorded at end e of w
      drops its reference to (w, e), and so does w. */
  function Unlinked(c: State, w: nat, e: nat): (r: State)
    requires c.Good() && 1 <= w <= c.mtnum && (e == 1 || e == 2)
    ensures r.Good() && r.mtnum == c.mtnum && r.clnum == c.clnum && TablesOnly(c.mt, r.mt)
  {
    State(NeigsUpdated(c.mt, w, e, 1, c.mt[w].nn[e] + 1, 0, 0, true), c.mtnum, c.clnum)
  }

  /** End e of w meets the ends (n0, e0) and (n1, e1) of two other segments
      at a node of degree 3, and each of the three ends records the other
      two. */
  ghost predicate Junction(mt: seq<Segment>, w: nat, e: nat, n0: nat, e0: nat, n1: nat, e1: nat)
  {
    (e == 1 || e == 2) && (e0 == 1 || e0 == 2) && (e1 == 1 || e1 == 2) &&
    w < |mt| && n0 < |mt| && n1 < |mt| && w != n0 && w != n1 && n0 != n1 &&
    Live(mt[w], e) == [(n0, e0), (n1, e1)] &&
    multiset(Live(mt[n0], e0)) == multiset{(w, e), (n1, e1)} &&
    multiset(Live(mt[n1], e1)) == multiset{(w, e), (n0, e0)}
  }

  /** An entry held among the live slots is found by the back-reference
      search. */
  lemma RecordedFound(s: Segment, e: nat, w: nat, we: nat)
    requires (e == 1 || e == 2) && (w, we) in multiset(Live(s, e))
    ensures BackRef(s, e, w, we) != 0
  {
    var l := Live(s, e);
    var j :| 0 <= j < |l| && l[j] == (w, we);
    assert Entry(s, e, j + 1) == (w, we);
    BackRefMeaning(s, e, w, we);
  }

  /** The first step of the unlinking: slot 1 of end e of w names
      (n0, e0), which drops (w, e); w's slot 1 takes its slot 2, which still
      names (n1, e1). */
  lemma UnlinkFirst(m: seq<Segment>, w: nat, e: nat, n0: nat, e0: nat, n1: nat, e1: nat)
    requires Junction(m, w, e, n0, e0, n1, e1)
    ensures var r := UpdateNeigsStep(m, w, e, 1, 0, 0, true);
      TablesOnly(m, r) &&
      r[w].nn[e] == 1 && r[w].nn[Opposite(e)] == m[w].nn[Opposite(e)] && Entry(r[w], e, 2) == (n1, e1) &&
      Live(r[n0], e0) == [(n1, e1)] && r[n0].nn[Opposite(e0)] == m[n0].nn[Opposite(e0)] &&
      forall k :: 0 <= k < |m| && k != w && k != n0 ==> r[k] == m[k]
  {
    assert Entry(m[w], e, 1) == Live(m[w], e)[0] == (n0, e0);
    assert Entry(m[w], e, 2) == Live(m[w], e)[1] == (n1, e1);
    RecordedFound(m[n0], e0, w, e);
    var i0 := BackRef(m[n0], e0, w, e);
    BackRefMeaning(m[n0], e0, w, e);
    UnlinkFirstShape(m, w, e, n0, e0, i0);
    RemoveSlotEntries(m[w], e, 1);
    DropsOnly(m[n0], e0, i0, (w, e), (n1, e1));
  }

  /** The step's new segments, when slot 1 names another segment that
      records w in slot i. */
  lemma UnlinkFirstShape(m: seq<Segment>, w: nat, e: nat, n0: nat, e0: nat, i: nat)
    requires (e == 1 || e == 2) && (e0 == 1 || e0 == 2) && w < |m| && n0 < |m| && w != n0
    requires m[w].nn[e] == 2 && Entry(m[w], e, 1) == (n0, e0) && BackRef(m[n0], e0, w, e) == i != 0
    ensures UpdateNeigsStep(m, w, e, 1, 0, 0, true) ==
      m[n0 := RemoveSlot(m[n0], e0, i)][w := RemoveSlot(m[w], e, 1)]
  {
  }

  /** Removing the slot that holds a from an end holding just a and b
      leaves b alone, and the other end as it was. */
  lemma DropsOnly(s: Segment, e: nat, i: nat, a: (nat, nat), b: (nat, nat))
    requires (e == 1 || e == 2) && 1 <= i <= s.nn[e] && Entry(s, e, i) == a
    requires multiset(Live(s, e)) == multiset{a, b}
    ensures Live(RemoveSlot(s, e, i), e) == [b]
    ensures RemoveSlot(s, e, i).nn[Opposite(e)] == s.nn[Opposite(e)]
  {
    var r := RemoveSlot(s, e, i);
    RemoveSlotMeaning(s, e, i);
    RemoveSlotEntries(s, e, i);
    assert multiset(Live(r, e)) == multiset{b};
    assert Live(r, e)[0] in multiset(Live(r, e));
  }

  /** The second step: slot 2 of end e of w, stale but still naming
      (n1, e1), makes n1 drop (w, e); w's count drops to 0. */
  lemma UnlinkSecond(m: seq<Segment>, w: nat, e: nat, n1: nat, e1: nat, n0: nat, e0: nat)
    requires (e == 1 || e == 2) && (e1 == 1 || e1 == 2) && w < |m| && n1 < |m| && w != n1
    requires m[w].nn[e] == 1 && Entry(m[w], e, 2) == (n1, e1)
    requires multiset(Live(m[n1], e1)) == multiset{(w, e), (n0, e0)}
    ensures var r := UpdateNeigsStep(m, w, e, 2, 0, 0, true);
      TablesOnly(m, r) &&
      r[w].nn[e] == 0 && r[w].nn[Opposite(e)] == m[w].nn[Opposite(e)] &&
      Live(r[n1], e1) == [(n0, e0)] && r[n1].nn[Opposite(e1)] == m[n1].nn[Opposite(e1)] &&
      forall k :: 0 <= k < |m| && k != w && k != n1 ==> r[k] == m[k]
  {
    RecordedFound(m[n1], e1, w, e);
    var i1 := BackRef(m[n1], e1, w, e);
    BackRefMeaning(m[n1], e1, w, e);
    RemoveSlotEntries(m[w], e, 2);
    DropsOnly(m[n1], e1, i1, (w, e), (n0, e0));
  }

  /** r is m with end e of w freed and (n0, e0), (n1, e1) recording each
      other only; nothing else changes. */
  ghost predicate Unlinks(m: seq<Segment>, r: seq<Segment>, w: nat, e: nat, n0: nat, e0: nat, n1: nat, e1: nat)
  {
    (e == 1 || e == 2) && (e0 == 1 || e0 == 2) && (e1 == 1 || e1 == 2) &&
    w < |m| && n0 < |m| && n1 < |m| && TablesOnly(m, r) &&
    r[w].nn[e] == 0 && r[w].nn[Opposite(e)] == m[w].nn[Opposite(e)] &&
    Live(r[n0], e0) == [(n1, e1)] && r[n0].nn[Opposite(e0)] == m[n0].nn[Opposite(e0)] &&
    Live(r[n1], e1) == [(n0, e0)] && r[n1].nn[Opposite(e1)] == m[n1].nn[Opposite(e1)] &&
    forall k :: 0 <= k < |m| && k != w && k != n0 && k != n1 ==> r[k] == m[k]
  }

  /** At a junction, unlinking w frees its end e and leaves (n0, e0) and
      (n1, e1) recording each other only; nothing else changes. */
  lemma UnlinkedJunction(m: seq<Segment>, w: nat, e: nat, n0: nat, e0: nat, n1: nat, e1: nat)
    requires Junction(m, w, e, n0, e0, n1, e1)
    ensures Unlinks(m, NeigsUpdated(m, w, e, 1, 3, 0, 0, true), w, e, n0, e0, n1, e1)
  {
    var m1 := UpdateNeigsStep(m, w, e, 1, 0, 0, true);
    assert NeigsUpdated(m, w, e, 1, 2, 0, 0, true) == m1;
    UnlinkFirst(m, w, e, n0, e0, n1, e1);
    UnlinkSecond(m1, w, e, n1, e1, n0, e0);
    TablesOnlyTrans(m, m1, NeigsUpdated(m, w, e, 1, 3, 0, 0, true));
  }

  // ---------------------------------------------------------------------
  // Mending the junction

  /** The ends (n0, e0) and (n1, e1) record each other in the slot that
      `single_neig_index` picks (a missing slot counts as no record). */
  predicate MutuallyLinked(mt: seq<Segment>, n0: nat, e0: nat, n1: nat, e1: nat)
    requires n0 < |mt| && n1 < |mt| && (e0 == 1 || e0 == 2) && (e1 == 1 || e1 == 2)
  {
    var i0, i1 := mt[n0].SingleNeigIndex(e0), mt[n1].SingleNeigIndex(e1);
    i0 < MaxDegree && i1 < MaxDegree &&
    Entry(mt[n0], e0, i0) == (n1, e1) && Entry(mt[n1], e1, i1) == (n0, e0)
  }

  /** Reading a sequence backwards keeps its elements. */
  lemma {:induction false} RevMultiset<T>(s: seq<T>)
    ensures multiset(Rev(s)) == multiset(s)
  {
    if |s| > 0 {
      var t := s[1..];
      RevMultiset(t);
      assert Rev(s) == Rev(t) + [s[0]];
      assert s == [s[0]] + t;
    }
  }

  /** The fusion at the end of fiss3: fuse_antiparallel when the two ends
      have the same number, otherwise fuse_parallel with first the segment
      whose end 1 is joined. */
  function Spliced(t: State, n0: nat, e0: nat, n1: nat, e1: nat): (r: State)
    requires t.Good() && 1 <= n0 <= t.mtnum && 1 <= n1 <= t.mtnum && n0 != n1
    requires (e0 == 1 || e0 == 2) && (e1 == 1 || e1 == 2)
    requires t.mt[n0].nn[e0] == 0 && t.mt[n1].nn[e1] == 0
    ensures SplicedFrom(t, r, n0, e0, n1, e1)
  {
    if e0 == e1 then SplicedAntiparallel(t, n0, e0, n1, e1)
    else if e0 == 1 then SplicedParallel(t, n0, e0, n1, e1)
    else SplicedParallel(t, n1, e1, n0, e0)
  }

  function SplicedAntiparallel(t: State, n0: nat, e0: nat, n1: nat, e1: nat): (r: State)
    requires t.Good() && 1 <= n0 <= t.mtnum && 1 <= n1 <= t.mtnum && n0 != n1
    requires (e0 == 1 || e0 == 2) && e1 == e0
    requires t.mt[n0].nn[e0] == 0 && t.mt[n1].nn[e1] == 0
    ensures SplicedFrom(t, r, n0, e0, n1, e1)
  {
    var a, b := Inds(t.mt[n0].g), Inds(t.mt[n1].g);
    var r := FusedAntiparallel(t, e0, n0, n1).0;
    FusedAntiparallelMeaning(t, e0, n0, n1);
    RevMultiset(a);
    RevMultiset(b);
    FusedSplices(t, r, n0, e0, n1, e1, if e0 == 1 then Rev(a) + b else a + Rev(b),
                 t.mt[n0].nn[Opposite(e0)], t.mt[n1].nn[Opposite(e1)]);
    r
  }

  function SplicedParallel(t: State, n0: nat, e0: nat, n1: nat, e1: nat): (r: State)
    requires t.Good() && 1 <= n0 <= t.mtnum && 1 <= n1 <= t.mtnum && n0 != n1
    requires e0 == 1 && e1 == 2
    requires t.mt[n0].nn[e0] == 0 && t.mt[n1].nn[e1] == 0
    ensures SplicedFrom(t, r, n0, e0, n1, e1)
  {
    var r := FusedParallel(t, n0, n1).0;
    FusedParallelMeaning(t, n0, n1);
    FusedSplices(t, r, n0, e0, n1, e1, Inds(t.mt[n1].g) + Inds(t.mt[n0].g), t.mt[n1].nn[1], t.mt[n0].nn[2]);
    r
  }

  /** A fusion of the pair that leaves the fused segment holding inds, with
      counts (c1, c2) at its ends, is a splice when inds holds the edges of
      both and the counts are the far ends' ones. */
  lemma FusedSplices(t: State, r: State, n0: nat, e0: nat, n1: nat, e1: nat, inds: seq<nat>, c1: nat, c2: nat)
    requires t.Good() && 1 <= n0 <= t.mtnum && 1 <= n1 <= t.mtnum && n0 != n1
    requires (e0 == 1 || e0 == 2) && (e1 == 1 || e1 == 2)
    requires var (w1, w2) := FusionOrder(n0, e0, n1, e1);
      Fused(t, r, w1, w2) && Holds(r, if w1 == t.mtnum then w2 else w1, inds, c1, c2)
    requires multiset(inds) == multiset(Inds(t.mt[n0].g)) + multiset(Inds(t.mt[n1].g))
    requires multiset{c1, c2} == multiset{t.mt[n0].nn[Opposite(e0)], t.mt[n1].nn[Opposite(e1)]}
    ensures SplicedFrom(t, r, n0, e0, n1, e1)
  {
  }

  /** The fused pair, in the order the fusion takes it. */
  function FusionOrder(n0: nat, e0: nat, n1: nat, e1: nat): (nat, nat)
  {
    if e0 == e1 || e0 == 1 then (n0, n1) else (n1, n0)
  }

  /** What the fusion leaves: one segment less and the edge total kept.
      The fused segment q (at the place of the first of the pair, or of the
      second when the first was the last segment) holds the edges of both,
      its ends are the far ends of the two, and its cluster is numbered
      densely; every other segment holds what it held, the last one moving
      into the emptied place. */
  ghost predicate SplicedFrom(t: State, r: State, n0: nat, e0: nat, n1: nat, e1: nat)
  {
    t.Good() && 1 <= n0 <= t.mtnum && 1 <= n1 <= t.mtnum && n0 != n1 &&
    (e0 == 1 || e0 == 2) && (e1 == 1 || e1 == 2) &&
    var n := t.mtnum;
    var (w1, w2) := FusionOrder(n0, e0, n1, e1);
    var q := if w1 == n then w2 else w1;
    r.Good() && r.mtnum + 1 == n && 1 <= q <= r.mtnum && Mass(r.mt, r.mtnum) == Mass(t.mt, n) &&
    multiset(Inds(r.mt[q].g)) == multiset(Inds(t.mt[n0].g)) + multiset(Inds(t.mt[n1].g)) &&
    multiset{r.mt[q].nn[1], r.mt[q].nn[2]} ==
      multiset{t.mt[n0].nn[Opposite(e0)], t.mt[n1].nn[Opposite(e1)]} &&
    Dense(r.mt, r.mtnum, r.mt[q].cl) &&
    FusedOthers(t, r, w1, w2)
  }

  /** The outcome of the mending: the network, or the source's fatal exit
      with its message. */
  datatype Mend = Whole(s: State) | Halted(msg: string)

  /** The exits taken when one or both of the ends left at the junction
      have no neighbour. */
  const FirstBare: string := "mt[n[0]].nn[e[0]] == 0 && mt[n[1]].nn[e[1]] == 1"
  const SecondBare: string := "mt[n[0]].nn[e[0]] == 1 && mt[n[1]].nn[e[1]] == 0"
  const BothBare: string := "mt[n[0]].nn[e[0]] == 0 && mt[n[1]].nn[e[1]] == 0"

  /** Every exit message of the mending. */
  const MendExits: set<string> := {FirstBare, SecondBare, BothBare}

  /** The tail of fiss3 for the two ends (n0, e0), (n1, e1) left at the
      junction: if each has one neighbour and they record each other,
      `update_neigs(n[0], e[0], 1, 1)` unlinks them and they are fused; if
      either has none, the source exits. */
  function Mended(u: State, n0: nat, e0: nat, n1: nat, e1: nat): (r: Mend)
    requires u.Good() && 1 <= n0 <= u.mtnum && 1 <= n1 <= u.mtnum && n0 != n1
    requires (e0 == 1 || e0 == 2) && (e1 == 1 || e1 == 2)
    ensures r.Halted? <==> u.mt[n0].nn[e0] + u.mt[n1].nn[e1] < 2
    ensures r.Halted? ==> r.msg in MendExits
    ensures r.Whole? && r.s.mtnum == u.mtnum ==> r.s == u
    ensures r.Whole? ==> r.s.Good() && Mass(r.s.mt, r.s.mtnum) == Mass(u.mt, u.mtnum)
    ensures r.Whole? && r.s.mtnum != u.mtnum ==>
      r.s.mtnum + 1 == u.mtnum &&
      u.mt[n0].nn[e0] == 1 && u.mt[n1].nn[e1] == 1 && MutuallyLinked(u.mt, n0, e0, n1, e1)
  {
    var k0, k1 := u.mt[n0].nn[e0], u.mt[n1].nn[e1];
    if k0 == 1 && k1 == 1 then
      if MutuallyLinked(u.mt, n0, e0, n1, e1) then Whole(Fusion(u, n0, e0, n1, e1)) else Whole(u)
    else if k0 == 0 && k1 == 1 then Halted(FirstBare)
    else if k0 == 1 && k1 == 0 then Halted(SecondBare)
    else if k0 == 0 && k1 == 0 then Halted(BothBare)
    else Whole(u)
  }

  /** The fusion branch of the mending, for two ends with one neighbour
      each that record each other: `update_neigs(n[0], e[0], 1, 1)` frees
      both (SoleLinkFreed), then they are fused. */
  function Fusion(u: State, n0: nat, e0: nat, n1: nat, e1: nat): (r: State)
    requires u.Good() && 1 <= n0 <= u.mtnum && 1 <= n1 <= u.mtnum && n0 != n1
    requires (e0 == 1 || e0 == 2) && (e1 == 1 || e1 == 2)
    requires u.mt[n0].nn[e0] == 1 && u.mt[n1].nn[e1] == 1 && MutuallyLinked(u.mt, n0, e0, n1, e1)
    ensures r.Good() && r.mtnum + 1 == u.mtnum && Mass(r.mt, r.mtnum) == Mass(u.mt, u.mtnum)
  {
    var m := NeigsUpdated(u.mt, n0, e0, 1, 2, 0, 0, true);
    SoleLinkFreed(u.mt, n0, e0, n1, e1);
    MassFrame(u.mt, m, u.mtnum);
    Spliced(State(m, u.mtnum, u.clnum), n0, e0, n1, e1)
  }

  /** `if (f && n[0] != n[1])`: the mending runs only when end e of w had
      two neighbours, read before the cut, and they are different segments. */
  function Healed(s: State, u: State, w: nat, e: nat): (r: Mend)
    requires s.Good() && Linked(s.mt, s.mtnum) && 1 <= w <= s.mtnum && (e == 1 || e == 2)
    requires u.Good() && u.mtnum == s.mtnum
    ensures r.Halted? ==> s.mt[w].nn[e] == 2 && r.msg in MendExits
    ensures r.Whole? ==> r.s.Good() && Mass(r.s.mt, r.s.mtnum) == Mass(u.mt, u.mtnum)
    ensures r.Whole? && r.s.mtnum == u.mtnum ==> r.s == u
    ensures r.Whole? && r.s.mtnum != u.mtnum ==> r.s.mtnum + 1 == u.mtnum && s.mt[w].nn[e] == 2
  {
    if s.mt[w].nn[e] == 2 then
      var (n0, e0, n1, e1) := Pair(s.mt[w], e);
      PairLinked(s.mt, s.mtnum, w, e);
      if n0 != n1 then Mended(u, n0, e0, n1, e1) else Whole(u)
    else Whole(u)
  }

  // ---------------------------------------------------------------------
  // fiss3

  /** The cluster of the segment holding edge ind once update_structure has
      rebuilt the edge-to-segment map glm (`mt[glm[ind]].get_cl()`), or
      Huge when ind or its entry is out of range. */
  function EdgeCluster(f: State, glm0: seq<nat>, ind: nat): nat
    requires f.Good()
  {
    var glm := EdgeMap(Resize(glm0, Mass(f.mt, f.mtnum), 0), f.mt, f.mtnum, 0, true);
    if ind < |glm| && glm[ind] < |f.mt| then f.mt[glm[ind]].cl else Huge
  }

  /** `fiss3(w, e)`: the end edge of w and the junction edge of its slot-1
      neighbour are read first; then the cut, the unlinking and the
      mending; the clusters returned are those of the segments now holding
      these two edges. */
  function Fissioned3(s: State, vis: seq<nat>, glm0: seq<nat>, w: nat, e: nat): (r: Outcome)
    requires s.Good() && Linked(s.mt, s.mtnum) && 1 <= w <= s.mtnum && (e == 1 || e == 2)
  {
    var ind1, ind2 := EndInd(s.mt, w, e), SlotOneInd(s.mt, w, e);
    var (c, v, cyc) := Cut(s, vis, w, e);
    match Healed(s, Unlinked(c, w, e), w, e)
    case Halted(msg) => Exit(msg)
    case Whole(f) => Done(Split(f, v, EdgeCluster(f, glm0, ind1), EdgeCluster(f, glm0, ind2)))
  }

  /** The cut of fiss3. */
  method CutAt(s: State, vis: seq<nat>, w: nat, e: nat) returns (c: State, v: seq<nat>, inCycle: bool)
    requires s.Good() && Linked(s.mt, s.mtnum) && 1 <= w <= s.mtnum && (e == 1 || e == 2)
    ensures (c, v, inCycle) == Cut(s, vis, w, e)
  {
    var clini := s.mt[w].cl;
    c, v, inCycle := UpdateClFiss(s, vis, w, e);
    if !inCycle {
      var mt := UpdateGIndcl(c.mt, c.mtnum, clini);
      c := c.(mt := mt);
    }
  }

  /** The mending of fiss3, for a pair of different segments. */
  method MendPair(u: State, n0: nat, e0: nat, n1: nat, e1: nat) returns (r: Mend)
    requires u.Good() && 1 <= n0 <= u.mtnum && 1 <= n1 <= u.mtnum && n0 != n1
    requires (e0 == 1 || e0 == 2) && (e1 == 1 || e1 == 2)
    ensures r == Mended(u, n0, e0, n1, e1)
  {
    var k0, k1 := u.mt[n0].nn[e0], u.mt[n1].nn[e1];
    if k0 == 1 && k1 == 1 {
      var i0 := FindSingleNeigIndex(u.mt[n0], e0);
      var i1 := FindSingleNeigIndex(u.mt[n1], e1);
      var linked := i0 < MaxDegree && i1 < MaxDegree && Entry(u.mt[n0], e0, i0) == (n1, e1) && Entry(u.mt[n1], e1, i1) == (n0, e0);
      assert linked == MutuallyLinked(u.mt, n0, e0, n1, e1);
      if linked {
        var f := FuseEnds(u, n0, e0, n1, e1);
        r := Whole(f);
      } else {
        r := Whole(u);
      }
    } else if k0 == 0 && k1 == 1 {
      r := Halted(FirstBare);
    } else if k0 == 1 && k1 == 0 {
      r := Halted(SecondBare);
    } else if k0 == 0 && k1 == 0 {
      r := Halted(BothBare);
    } else {
      r := Whole(u);
    }
  }

  /** The fusion branch of the mending. */
  method FuseEnds(u: State, n0: nat, e0: nat, n1: nat, e1: nat) returns (r: State)
    requires u.Good() && 1 <= n0 <= u.mtnum && 1 <= n1 <= u.mtnum && n0 != n1
    requires (e0 == 1 || e0 == 2) && (e1 == 1 || e1 == 2)
    requires u.mt[n0].nn[e0] == 1 && u.mt[n1].nn[e1] == 1 && MutuallyLinked(u.mt, n0, e0, n1, e1)
    ensures r == Fusion(u, n0, e0, n1, e1)
  {
    var m := UpdateNeigs(u.mt, n0, e0, 1, 1, 0, 0, true);
    SoleLinkFreed(u.mt, n0, e0, n1, e1);
    r := Splice(State(m, u.mtnum, u.clnum), n0, e0, n1, e1);
  }

  /** The fusion itself, by the kind the two ends call for. */
  method Splice(t: State, n0: nat, e0: nat, n1: nat, e1: nat) returns (r: State)
    requires t.Good() && 1 <= n0 <= t.mtnum && 1 <= n1 <= t.mtnum && n0 != n1
    requires (e0 == 1 || e0 == 2) && (e1 == 1 || e1 == 2)
    requires t.mt[n0].nn[e0] == 0 && t.mt[n1].nn[e1] == 0
    ensures r == Spliced(t, n0, e0, n1, e1)
  {
    var cla, clb;
    if e0 == e1 {
      r, cla, clb := FuseAntiparallel(t, e0, n0, n1);
    } else if e0 == 1 {
      r, cla, clb := FuseParallel(t, n0, n1);
    } else {
      r, cla, clb := FuseParallel(t, n1, n0);
    }
  }

  /** The guard of the mending and the mending, after the unlinking. */
  method Heal(s: State, u: State, w: nat, e: nat) returns (r: Mend)
    requires s.Good() && Linked(s.mt, s.mtnum) && 1 <= w <= s.mtnum && (e == 1 || e == 2)
    requires u.Good() && u.mtnum == s.mtnum
    ensures r == Healed(s, u, w, e)
  {
    r := Whole(u);
    if s.mt[w].nn[e] == 2 {
      var ninds := DoubleNeigIndexes(s.mt[w], e);
      assert ninds == NeigSlots(s.mt[w], e);
      var n0, e0 := s.mt[w].neig[e][ninds[0]], s.mt[w].neen[e][ninds[0]];
      var n1, e1 := s.mt[w].neig[e][ninds[1]], s.mt[w].neen[e][ninds[1]];
      PairLinked(s.mt, s.mtnum, w, e);
      if n0 != n1 {
        r := MendPair(u, n0, e0, n1, e1);
      }
    }
  }

  /** The clusters of the segments holding edges ind1 and ind2, read once
      update_structure has rebuilt the edge-to-segment map. */
  method ReadClusters(f: State, glm0: seq<nat>, ind1: nat, ind2: nat) returns (cl1: nat, cl2: nat)
    requires f.Good()
    ensures cl1 == EdgeCluster(f, glm0, ind1) && cl2 == EdgeCluster(f, glm0, ind2)
  {
    var glm, gla := MapEdges(Resize(glm0, Mass(f.mt, f.mtnum), 0), [], f.mt, f.mtnum);
    cl1 := if ind1 < |glm| && glm[ind1] < |f.mt| then f.mt[glm[ind1]].cl else Huge;
    cl2 := if ind2 < |glm| && glm[ind2] < |f.mt| then f.mt[glm[ind2]].cl else Huge;
  }

  /** `fiss3(w, e)`. */
  method Fiss3(s: State, vis: seq<nat>, glm0: seq<nat>, w: nat, e: nat) returns (r: Outcome)
    requires s.Good() && Linked(s.mt, s.mtnum) && 1 <= w <= s.mtnum && (e == 1 || e == 2)
    ensures r == Fissioned3(s, vis, glm0, w, e)
  {
    var ind1, ind2 := EndInd(s.mt, w, e), SlotOneInd(s.mt, w, e);
    var c, v, inCycle := CutAt(s, vis, w, e);
    var mt := UpdateNeigs(c.mt, w, e, 1, c.mt[w].nn[e], 0, 0, true);
    var h := Heal(s, State(mt, c.mtnum, c.clnum), w, e);
    match h
    case Halted(msg) =>
      r := Exit(msg);
    case Whole(f) =>
      var cl1, cl2 := ReadClusters(f, glm0, ind1, ind2);
      r := Done(Split(f, v, cl1, cl2));
  }

  // ---------------------------------------------------------------------
  // What fiss3 promises

  /** Edge indices that are distinct stay so when every segment keeps its
      edges by network index. */
  lemma DistinctIndsFrame(m: seq<Segment>, r: seq<Segment>, n: nat, size: nat)
    requires Shaped(m, n) && Shaped(r, n) && DistinctInds(m, n, size)
    requires forall k :: 1 <= k <= n ==> Inds(r[k].g) == Inds(m[k].g)
    ensures DistinctInds(r, n, size)
  {
    forall j, k | 1 <= j <= n && 0 <= k < |r[j].g|
      ensures r[j].g[k].ind == m[j].g[k].ind
    {
      assert Inds(r[j].g)[k] == Inds(m[j].g)[k];
    }
  }

  /** The cut and the unlinking, each described by what it does: the
      stages of fiss3 before the mending. */
  ghost predicate Opened3(s: State, c: State, cyc: bool, u: State, w: nat, e: nat)
  {
    CutFrom(s, c, cyc, w, e) && u.Good() && u.mtnum == s.mtnum && u.clnum == c.clnum &&
    TablesOnly(c.mt, u.mt)
  }

  lemma Fissioned3Opened(s: State, vis: seq<nat>, w: nat, e: nat)
    requires s.Good() && Linked(s.mt, s.mtnum) && ClustersBelow(s.mt, s.mtnum, s.clnum)
    requires 1 <= w <= s.mtnum && (e == 1 || e == 2)
    ensures var ct := Cut(s, vis, w, e); Opened3(s, ct.0, ct.2, Unlinked(ct.0, w, e), w, e)
  {
    CutMeaning(s, vis, w, e);
  }

  /** fiss3 keeps the edge total; it leaves as many segments as before, or
      one less when it fused the two segments left at the junction. */
  lemma Fissioned3KeepsMass(s: State, vis: seq<nat>, glm0: seq<nat>, w: nat, e: nat)
    requires s.Good() && Linked(s.mt, s.mtnum) && ClustersBelow(s.mt, s.mtnum, s.clnum)
    requires 1 <= w <= s.mtnum && (e == 1 || e == 2)
    ensures var r := Fissioned3(s, vis, glm0, w, e);
      r.Done? ==>
        (r.split.s.mtnum == s.mtnum || r.split.s.mtnum + 1 == s.mtnum) &&
        Mass(r.split.s.mt, r.split.s.mtnum) == Mass(s.mt, s.mtnum)
  {
    var (c, v, cyc) := Cut(s, vis, w, e);
    var u := Unlinked(c, w, e);
    Fissioned3Opened(s, vis, w, e);
    MassFrame(c.mt, u.mt, s.mtnum);
  }

  /** fiss3 exits only when end e of w had two neighbours and the mending
      found one of them with no neighbour left, or an end it had to fuse
      still linked. */
  lemma Fissioned3Exits(s: State, vis: seq<nat>, glm0: seq<nat>, w: nat, e: nat)
    requires s.Good() && Linked(s.mt, s.mtnum) && 1 <= w <= s.mtnum && (e == 1 || e == 2)
    ensures var r := Fissioned3(s, vis, glm0, w, e);
      r.Exit? ==> s.mt[w].nn[e] == 2 && s.mt[w].neig[e][1] != s.mt[w].neig[e][2]
  {
    if s.mt[w].nn[e] == 2 {
      PairLinked(s.mt, s.mtnum, w, e);
    }
  }

  /** The clusters of the pieces when fiss3 fused nothing: w keeps its
      cluster clini and, the edge at its end e still being its own, cl1 is
      clini.  When the cut split the cluster, both clusters are numbered
      densely and the neighbour recorded in slot 1 of end e (which holds
      the edge ind2 names) is in the new cluster clnum, so cl2 is clnum;
      otherwise w lay on a cycle and no cluster id changed. */
  ghost predicate Clustered3(s: State, sp: Split, w: nat, e: nat)
    requires s.Good() && 1 <= w <= s.mtnum && (e == 1 || e == 2)
  {
    var n, f := s.mtnum, sp.s;
    var (nb, ne) := Entry(s.mt[w], e, 1);
    f.Good() && f.mtnum == n && f.mt[w].cl == s.mt[w].cl && ClustersBelow(f.mt, n, f.clnum) &&
    (|s.mt[w].g| > 0 ==> sp.cl1 == s.mt[w].cl) &&
    (f.clnum == s.clnum ==>
       Leads(s.mt, n, (w, e), (w, Opposite(e)), w) && forall k :: 1 <= k <= n ==> f.mt[k].cl == s.mt[k].cl) &&
    (f.clnum != s.clnum ==>
       f.clnum == s.clnum + 1 && Dense(f.mt, n, s.mt[w].cl) && Dense(f.mt, n, s.clnum) &&
       (1 <= s.mt[w].nn[e] && 1 <= nb <= n && nb != w && |s.mt[nb].g| > 0 ==> sp.cl2 == s.clnum))
  }

  lemma Fissioned3Clusters(s: State, vis: seq<nat>, glm0: seq<nat>, w: nat, e: nat)
    requires s.Good() && Linked(s.mt, s.mtnum) && ClustersBelow(s.mt, s.mtnum, s.clnum)
    requires 1 <= w <= s.mtnum && (e == 1 || e == 2)
    requires DistinctInds(s.mt, s.mtnum, Mass(s.mt, s.mtnum))
    ensures var r := Fissioned3(s, vis, glm0, w, e);
      r.Done? && r.split.s.mtnum == s.mtnum ==> Clustered3(s, r.split, w, e)
  {
    var (c, v, cyc) := Cut(s, vis, w, e);
    var u := Unlinked(c, w, e);
    Fissioned3Opened(s, vis, w, e);
    var r := Fissioned3(s, vis, glm0, w, e);
    if r.Done? && r.split.s.mtnum == s.mtnum {
      StagedClusters3(s, c, cyc, u, v, glm0, w, e);
    }
  }

  lemma StagedClusters3(s: State, c: State, cyc: bool, u: State, v: seq<nat>, glm0: seq<nat>, w: nat, e: nat)
    requires Opened3(s, c, cyc, u, w, e) && DistinctInds(s.mt, s.mtnum, Mass(s.mt, s.mtnum))
    ensures Clustered3(s, Split(u, v, EdgeCluster(u, glm0, EndInd(s.mt, w, e)),
                                EdgeCluster(u, glm0, SlotOneInd(s.mt, w, e))), w, e)
  {
    var n := s.mtnum;
    MassFrame(c.mt, u.mt, n);
    DistinctIndsFrame(s.mt, u.mt, n, Mass(s.mt, n));
    if |s.mt[w].g| > 0 {
      EndIndFrame(s.mt, u.mt, w, e);
      EndEdgeCluster(u, glm0, w, e);
    }
    if !cyc {
      DenseTables(c.mt, u.mt, n, s.mt[w].cl);
      DenseTables(c.mt, u.mt, n, s.clnum);
      var (nb, ne) := Entry(s.mt[w], e, 1);
      if 1 <= s.mt[w].nn[e] && 1 <= nb <= n && nb != w && |s.mt[nb].g| > 0 {
        EndIndFrame(s.mt, u.mt, nb, ne);
        EndEdgeCluster(u, glm0, nb, ne);
      }
    }
  }

  /** Segments holding the same edges have the same end edges. */
  lemma EndIndFrame(m: seq<Segment>, r: seq<Segment>, k: nat, e: nat)
    requires k < |m| && k < |r| && |m| == |r| && (e == 1 || e == 2) && Inds(r[k].g) == Inds(m[k].g)
    ensures EndInd(r, k, e) == EndInd(m, k, e)
  {
    if 1 <= k && |m[k].g| > 0 {
      assert Inds(r[k].g)[m[k].End2A(e)] == Inds(m[k].g)[m[k].End2A(e)];
    }
  }

  /** With edge indices distinct and below the edge total, the rebuilt map
      sends the end edge of every live segment back to that segment, so
      its cluster is read. */
  lemma EndEdgeCluster(f: State, glm0: seq<nat>, k: nat, e: nat)
    requires f.Good() && DistinctInds(f.mt, f.mtnum, Mass(f.mt, f.mtnum))
    requires 1 <= k <= f.mtnum && |f.mt[k].g| > 0 && (e == 1 || e == 2)
    ensures EdgeCluster(f, glm0, EndInd(f.mt, k, e)) == f.mt[k].cl
  {
    var n := f.mtnum;
    EdgeMapFinds(Resize(glm0, Mass(f.mt, n), 0), f.mt, n, n, 0, true, k, f.mt[k].End2A(e));
  }

  /** r is m with the link between (n0, e0) and (n1, e1) removed: both
      ends free, every other end and segment as it was. */
  ghost predicate Parted(m: seq<Segment>, r: seq<Segment>, n0: nat, e0: nat, n1: nat, e1: nat)
  {
    (e0 == 1 || e0 == 2) && (e1 == 1 || e1 == 2) && n0 < |m| && n1 < |m| && TablesOnly(m, r) &&
    r[n0].nn[e0] == 0 && r[n0].nn[Opposite(e0)] == m[n0].nn[Opposite(e0)] &&
    r[n1].nn[e1] == 0 && r[n1].nn[Opposite(e1)] == m[n1].nn[Opposite(e1)] &&
    forall k :: 0 <= k < |m| && k != n0 && k != n1 ==> r[k] == m[k]
  }

  /** Two ends with one neighbour each that record each other are freed by
      `update_neigs(n0, e0, 1, 1)`: the fusion of the mending never meets
      an end that still has a neighbour. */
  lemma SoleLinkFreed(m: seq<Segment>, n0: nat, e0: nat, n1: nat, e1: nat)
    requires 1 <= n0 < |m| && 1 <= n1 < |m| && n0 != n1 && (e0 == 1 || e0 == 2) && (e1 == 1 || e1 == 2)
    requires m[n0].nn[e0] == 1 && m[n1].nn[e1] == 1 && MutuallyLinked(m, n0, e0, n1, e1)
    ensures Parted(m, NeigsUpdated(m, n0, e0, 1, 2, 0, 0, true), n0, e0, n1, e1)
  {
    assert Live(m[n0], e0) == [(n1, e1)];
    assert Live(m[n1], e1) == [(n0, e0)];
    MutualRemoval(m, n0, e0, n1, e1);
  }

  /** Two ends that record each other only are mutually linked, and
      `update_neigs(n0, e0, 1, 1)` frees both. */
  lemma MutualRemoval(m: seq<Segment>, n0: nat, e0: nat, n1: nat, e1: nat)
    requires 1 <= n0 < |m| && 1 <= n1 < |m| && n0 != n1 && (e0 == 1 || e0 == 2) && (e1 == 1 || e1 == 2)
    requires Live(m[n0], e0) == [(n1, e1)] && Live(m[n1], e1) == [(n0, e0)]
    ensures MutuallyLinked(m, n0, e0, n1, e1)
    ensures Parted(m, NeigsUpdated(m, n0, e0, 1, 2, 0, 0, true), n0, e0, n1, e1)
  {
    assert Entry(m[n0], e0, 1) == Live(m[n0], e0)[0];
    assert Entry(m[n1], e1, 1) == Live(m[n1], e1)[0];
    RecordedFound(m[n1], e1, n0, e0);
    var i := BackRef(m[n1], e1, n0, e0);
    BackRefMeaning(m[n1], e1, n0, e0);
    UpdateNeigsStepRemoves(m, n0, e0, 1);
    RemoveSlotEntries(m[n1], e1, i);
    RemoveSlotEntries(m[n0], e0, 1);
    assert NeigsUpdated(m, n0, e0, 1, 2, 0, 0, true) == UpdateNeigsStep(m, n0, e0, 1, 0, 0, true);
  }

  /** The segments just before the fusion, against s: every live segment
      holds the edges it held; w and the pair have their junction ends
      free and their far ends as they were; every other segment has its
      counts; the edge total is kept. */
  ghost predicate Rewired(s: State, m: seq<Segment>, w: nat, e: nat, n0: nat, e0: nat, n1: nat, e1: nat)
  {
    s.Good() && |m| == |s.mt| && 1 <= w <= s.mtnum && 1 <= n0 <= s.mtnum && 1 <= n1 <= s.mtnum &&
    (e == 1 || e == 2) && (e0 == 1 || e0 == 2) && (e1 == 1 || e1 == 2) &&
    var n := s.mtnum;
    Mass(m, n) == Mass(s.mt, n) &&
    (forall k :: 1 <= k <= n ==> Inds(m[k].g) == Inds(s.mt[k].g)) &&
    (forall k :: 1 <= k <= n && k != w && k != n0 && k != n1 ==> m[k].nn == s.mt[k].nn) &&
    m[w].nn[e] == 0 && m[w].nn[Opposite(e)] == s.mt[w].nn[Opposite(e)] &&
    m[n0].nn[e0] == 0 && m[n0].nn[Opposite(e0)] == s.mt[n0].nn[Opposite(e0)] &&
    m[n1].nn[e1] == 0 && m[n1].nn[Opposite(e1)] == s.mt[n1].nn[Opposite(e1)]
  }

  lemma StagedRewired(s: State, c: State, cyc: bool, u: State, m: seq<Segment>,
                      w: nat, e: nat, n0: nat, e0: nat, n1: nat, e1: nat)
    requires Opened3(s, c, cyc, u, w, e) && Junction(s.mt, w, e, n0, e0, n1, e1) && 1 <= n0 && 1 <= n1
    requires Unlinks(c.mt, u.mt, w, e, n0, e0, n1, e1) && Parted(u.mt, m, n0, e0, n1, e1)
    ensures Rewired(s, m, w, e, n0, e0, n1, e1)
  {
    var n := s.mtnum;
    MassFrame(c.mt, u.mt, n);
    MassFrame(u.mt, m, n);
    forall k | 1 <= k <= n
      ensures Inds(m[k].g) == Inds(s.mt[k].g)
    {
      assert m[k].g == u.mt[k].g == c.mt[k].g;
    }
  }

  /** What fiss3 leaves at a junction: one segment less, the edge total
      kept; the fused segment q holds the edges of both segments left at
      the junction, its ends being their far ends; the piece of w (at
      place p) holds w's edges with end e free; every other segment holds
      what it held, the last one moving into the emptied place. */
  ghost predicate Junctioned(s: State, f: State, w: nat, e: nat, n0: nat, e0: nat, n1: nat, e1: nat)
    requires s.Good() && 1 <= w <= s.mtnum && (e == 1 || e == 2) && (e0 == 1 || e0 == 2) && (e1 == 1 || e1 == 2)
    requires 1 <= n0 <= s.mtnum && 1 <= n1 <= s.mtnum
  {
    var n := s.mtnum;
    var (w1, w2) := FusionOrder(n0, e0, n1, e1);
    var q, p := if w1 == n then w2 else w1, if w == n then w2 else w;
    f.Good() && f.mtnum + 1 == n && Mass(f.mt, f.mtnum) == Mass(s.mt, n) &&
    1 <= q <= f.mtnum && 1 <= p <= f.mtnum && p != q &&
    multiset(Inds(f.mt[q].g)) == multiset(Inds(s.mt[n0].g)) + multiset(Inds(s.mt[n1].g)) &&
    multiset{f.mt[q].nn[1], f.mt[q].nn[2]} == multiset{s.mt[n0].nn[Opposite(e0)], s.mt[n1].nn[Opposite(e1)]} &&
    Inds(f.mt[p].g) == Inds(s.mt[w].g) && f.mt[p].nn[e] == 0 && f.mt[p].nn[Opposite(e)] == s.mt[w].nn[Opposite(e)] &&
    forall k {:trigger Origin(k, n, w2)} :: 1 <= k <= f.mtnum && k != q && k != p ==>
      var o := s.mt[Origin(k, n, w2)];
      Inds(f.mt[k].g) == Inds(o.g) && f.mt[k].nn[1] == o.nn[1] && f.mt[k].nn[2] == o.nn[2]
  }

  lemma RewiredJunctioned(s: State, m: seq<Segment>, clnum: nat, f: State,
                          w: nat, e: nat, n0: nat, e0: nat, n1: nat, e1: nat)
    requires Rewired(s, m, w, e, n0, e0, n1, e1) && w != n0 && w != n1 && n0 != n1
    requires SplicedFrom(State(m, s.mtnum, clnum), f, n0, e0, n1, e1)
    ensures Junctioned(s, f, w, e, n0, e0, n1, e1)
  {
    var n := s.mtnum;
    var (w1, w2) := FusionOrder(n0, e0, n1, e1);
    var p := if w == n then w2 else w;
    assert Origin(p, n, w2) == w;
  }

  /** At a junction whose three ends record each other (the tables the
      network keeps when it is well formed), fiss3 fuses the two segments
      left at the junction and frees end e of w. */
  lemma Fissioned3Junction(s: State, vis: seq<nat>, glm0: seq<nat>, w: nat, e: nat,
                           n0: nat, e0: nat, n1: nat, e1: nat)
    requires s.Good() && Linked(s.mt, s.mtnum) && ClustersBelow(s.mt, s.mtnum, s.clnum)
    requires 1 <= w <= s.mtnum && Junction(s.mt, w, e, n0, e0, n1, e1)
    ensures 1 <= n0 <= s.mtnum && 1 <= n1 <= s.mtnum
    ensures var r := Fissioned3(s, vis, glm0, w, e);
      r.Done? && Junctioned(s, r.split.s, w, e, n0, e0, n1, e1)
  {
    var (c, v, cyc) := Cut(s, vis, w, e);
    var u := Unlinked(c, w, e);
    var m := NeigsUpdated(u.mt, n0, e0, 1, 2, 0, 0, true);
    Fissioned3JunctionStaged(s, vis, glm0, w, e, n0, e0, n1, e1);
    StagedJunctioned(s, c, cyc, u, m, w, e, n0, e0, n1, e1, Fissioned3(s, vis, glm0, w, e));
  }

  /** The stages of fiss3 at a junction, each described by what it does. */
  ghost predicate StagedJunction(s: State, c: State, cyc: bool, u: State, m: seq<Segment>,
                                 w: nat, e: nat, n0: nat, e0: nat, n1: nat, e1: nat, r: Outcome)
  {
    Opened3(s, c, cyc, u, w, e) && Junction(s.mt, w, e, n0, e0, n1, e1) && 1 <= n0 && 1 <= n1 &&
    Unlinks(c.mt, u.mt, w, e, n0, e0, n1, e1) && Parted(u.mt, m, n0, e0, n1, e1) &&
    r.Done? && SplicedFrom(State(m, s.mtnum, u.clnum), r.split.s, n0, e0, n1, e1)
  }

  lemma Fissioned3JunctionStaged(s: State, vis: seq<nat>, glm0: seq<nat>, w: nat, e: nat,
                                 n0: nat, e0: nat, n1: nat, e1: nat)
    requires s.Good() && Linked(s.mt, s.mtnum) && ClustersBelow(s.mt, s.mtnum, s.clnum)
    requires 1 <= w <= s.mtnum && Junction(s.mt, w, e, n0, e0, n1, e1)
    ensures var (c, v, cyc) := Cut(s, vis, w, e);
      var u := Unlinked(c, w, e);
      StagedJunction(s, c, cyc, u, NeigsUpdated(u.mt, n0, e0, 1, 2, 0, 0, true), w, e, n0, e0, n1, e1,
                     Fissioned3(s, vis, glm0, w, e))
  {
    var (c, v, cyc) := Cut(s, vis, w, e);
    var u := Unlinked(c, w, e);
    JunctionStages(s, vis, w, e, n0, e0, n1, e1);
    JunctionDone(s, vis, glm0, w, e, Healed(s, u, w, e));
  }

  lemma StagedJunctioned(s: State, c: State, cyc: bool, u: State, m: seq<Segment>,
                         w: nat, e: nat, n0: nat, e0: nat, n1: nat, e1: nat, r: Outcome)
    requires StagedJunction(s, c, cyc, u, m, w, e, n0, e0, n1, e1, r)
    ensures 1 <= n0 <= s.mtnum && 1 <= n1 <= s.mtnum
    ensures r.Done? && Junctioned(s, r.split.s, w, e, n0, e0, n1, e1)
  {
    StagedRewired(s, c, cyc, u, m, w, e, n0, e0, n1, e1);
    RewiredJunctioned(s, m, u.clnum, r.split.s, w, e, n0, e0, n1, e1);
  }

  /** fiss3 ends with the mending's network when the mending does not
      halt. */
  lemma JunctionDone(s: State, vis: seq<nat>, glm0: seq<nat>, w: nat, e: nat, h: Mend)
    requires s.Good() && Linked(s.mt, s.mtnum) && 1 <= w <= s.mtnum && (e == 1 || e == 2)
    requires var ct := Cut(s, vis, w, e); Unlinked(ct.0, w, e).mtnum == s.mtnum && h == Healed(s, Unlinked(ct.0, w, e), w, e)
    requires h.Whole?
    ensures var r := Fissioned3(s, vis, glm0, w, e); r.Done? && r.split.s == h.s
  {
  }

  /** The stages of fiss3 at a junction: the cut, the unlinking, and the
      mending's removal and fusion. */
  lemma JunctionStages(s: State, vis: seq<nat>, w: nat, e: nat, n0: nat, e0: nat, n1: nat, e1: nat)
    requires s.Good() && Linked(s.mt, s.mtnum) && ClustersBelow(s.mt, s.mtnum, s.clnum)
    requires 1 <= w <= s.mtnum && Junction(s.mt, w, e, n0, e0, n1, e1)
    ensures 1 <= n0 <= s.mtnum && 1 <= n1 <= s.mtnum
    ensures var (c, v, cyc) := Cut(s, vis, w, e);
      var u := Unlinked(c, w, e);
      var m := NeigsUpdated(u.mt, n0, e0, 1, 2, 0, 0, true);
      Opened3(s, c, cyc, u, w, e) && Unlinks(c.mt, u.mt, w, e, n0, e0, n1, e1) && Parted(u.mt, m, n0, e0, n1, e1) &&
      Healed(s, u, w, e) == Whole(Spliced(State(m, s.mtnum, u.clnum), n0, e0, n1, e1))
  {
    var (c, v, cyc) := Cut(s, vis, w, e);
    Fissioned3Opened(s, vis, w, e);
    JunctionFrame(s.mt, c.mt, w, e, n0, e0, n1, e1);
    var u := Unlinked(c, w, e);
    UnlinkedJunction(c.mt, w, e, n0, e0, n1, e1);
    JunctionHealed(s, c.mt, u, w, e, n0, e0, n1, e1);
  }

  /** After the unlinking, the mending takes the fusion branch. */
  lemma JunctionHealed(s: State, c: seq<Segment>, u: State, w: nat, e: nat, n0: nat, e0: nat, n1: nat, e1: nat)
    requires s.Good() && Linked(s.mt, s.mtnum) && 1 <= w <= s.mtnum && Junction(s.mt, w, e, n0, e0, n1, e1)
    requires u.Good() && u.mtnum == s.mtnum && Unlinks(c, u.mt, w, e, n0, e0, n1, e1)
    ensures 1 <= n0 <= s.mtnum && 1 <= n1 <= s.mtnum
    ensures var m := NeigsUpdated(u.mt, n0, e0, 1, 2, 0, 0, true);
      Parted(u.mt, m, n0, e0, n1, e1) &&
      Healed(s, u, w, e) == Whole(Spliced(State(m, s.mtnum, u.clnum), n0, e0, n1, e1))
  {
    assert Entry(s.mt[w], e, 1) == Live(s.mt[w], e)[0] == (n0, e0);
    assert Entry(s.mt[w], e, 2) == Live(s.mt[w], e)[1] == (n1, e1);
    PairLinked(s.mt, s.mtnum, w, e);
    MutualRemoval(u.mt, n0, e0, n1, e1);
  }

  /** The junction is read from the neighbour tables only. */
  lemma JunctionFrame(m: seq<Segment>, r: seq<Segment>, w: nat, e: nat, n0: nat, e0: nat, n1: nat, e1: nat)
    requires Junction(m, w, e, n0, e0, n1, e1) && |r| == |m|
    requires forall k :: k in {w, n0, n1} ==> r[k].nn == m[k].nn && r[k].neig == m[k].neig && r[k].neen == m[k].neen
    ensures Junction(r, w, e, n0, e0, n1, e1)
  {
    assert Live(r[w], e) == Live(m[w], e);
    assert Live(r[n0], e0) == Live(m[n0], e0);
    assert Live(r[n1], e1) == Live(m[n1], e1);
  }

  // ---------------------------------------------------------------------
  // fiss

  /** The exit fiss takes when a lies past the end of w. */
  const Unpropriate: string := "ERROR: Attempt of an unpropriate fission!"

  /** `fiss(w, a)`: a position strictly inside w is a node of degree 2 and
      goes to fiss2; position 0 is the node at end 1 and position |g| the
      node at end 2, both going to fiss3 (the source's guards on the number
      of neighbours there always hold, as an end has at most two). */
  function Fissioned(s: State, vis: seq<nat>, glm0: seq<nat>, w: nat, a: nat): (r: Outcome)
    requires s.Good() && Linked(s.mt, s.mtnum) && 1 <= w <= s.mtnum
  {
    if 0 < a < |s.mt[w].g| then Fissioned2(s, vis, w, a)
    else if a == 0 && s.mt[w].nn[1] <= 2 then Fissioned3(s, vis, glm0, w, 1)
    else if a == |s.mt[w].g| && s.mt[w].nn[2] <= 2 then Fissioned3(s, vis, glm0, w, 2)
    else Exit(Unpropriate)
  }

  method Fiss(s: State, vis: seq<nat>, glm0: seq<nat>, w: nat, a: nat) returns (r: Outcome)
    requires s.Good() && Linked(s.mt, s.mtnum) && 1 <= w <= s.mtnum
    ensures r == Fissioned(s, vis, glm0, w, a)
  {
    if 0 < a < |s.mt[w].g| {
      r := Fiss2(s, vis, w, a);
    } else if a == 0 && s.mt[w].nn[1] <= 2 {
      r := Fiss3(s, vis, glm0, w, 1);
    } else if a == |s.mt[w].g| && s.mt[w].nn[2] <= 2 {
      r := Fiss3(s, vis, glm0, w, 2);
    } else {
      r := Exit(Unpropriate);
    }
  }

  /** fiss refuses exactly the positions past the end of w: every other
      exit comes from fiss2's or fiss3's own fusion. */
  lemma FissionedRefuses(s: State, vis: seq<nat>, glm0: seq<nat>, w: nat, a: nat)
    requires s.Good() && Linked(s.mt, s.mtnum) && 1 <= w <= s.mtnum
    ensures var r := Fissioned(s, vis, glm0, w, a);
      r.Exit? && r.msg == Unpropriate <==> |s.mt[w].g| < a
  {
    if 0 < a < |s.mt[w].g| {
      Fissioned2Messages(s, vis, w, a);
    } else if a == 0 || a == |s.mt[w].g| {
      assert Unpropriate !in MendExits;
    }
  }

  /** fiss2's only exit is its fusion's. */
  lemma Fissioned2Messages(s: State, vis: seq<nat>, w: nat, a: nat)
    requires s.Good() && Linked(s.mt, s.mtnum) && 1 <= w <= s.mtnum && 0 < a < |s.mt[w].g|
    ensures var r := Fissioned2(s, vis, w, a); r.Exit? ==> r.msg != Unpropriate
  {
  }

  /** fiss keeps the edge total whenever it completes, and completes only
      at a position within w. */
  lemma FissionedKeepsMass(s: State, vis: seq<nat>, glm0: seq<nat>, w: nat, a: nat)
    requires s.Good() && Linked(s.mt, s.mtnum) && ClustersBelow(s.mt, s.mtnum, s.clnum) && 1 <= w <= s.mtnum
    ensures var r := Fissioned(s, vis, glm0, w, a);
      r.Done? ==> a <= |s.mt[w].g| && Mass(r.split.s.mt, r.split.s.mtnum) == Mass(s.mt, s.mtnum)
  {
    if 0 < a < |s.mt[w].g| {
      Fissioned2KeepsMass(s, vis, w, a);
    } else if a == 0 {
      Fissioned3KeepsMass(s, vis, glm0, w, 1);
    } else if a == |s.mt[w].g| {
      Fissioned3KeepsMass(s, vis, glm0, w, 2);
    }
  }
}
