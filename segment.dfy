/** Model of include/segment.h for maximal node degree 3: a segment is a
  linear chain of edges whose two ends (numbered 1 and 2) may be attached
  to ends of other segments.

  Each end e keeps a neighbour count nn[e] (at most 2, since a node has
  degree at most 3) and two tables neig[e][1..nn[e]] and neen[e][1..nn[e]]
  naming the neighbouring segments and which of their ends is attached.
  Slot 0 of every per-end array is unused, as in the source.  Segment index
  0 is reserved for the mock segment of the network, so a neighbour id 0
  means "no neighbour".

  A segment is a value type in the source (stored by value in the network's
  segment vector), so here it is a datatype, and every operation that edits
  it in place returns the edited segment. */
module Segments {
  import opened Edges

  /** Largest value of the source's unsigned size type (`huge<szt>`). */
  const Huge: nat := 0xFFFF_FFFF_FFFF_FFFF

  /** Maximal node degree, and the size of each per-end neighbour table. */
  const MaxDegree: nat := 3

  /** Unsigned decrement with the wrap-around of the source's size type. */
  function Dec(n: nat): (r: nat)
    ensures n > 0 ==> r + 1 == n
    ensures n == 0 ==> r == Huge
  {
    if n == 0 then Huge else n - 1
  }

  /** The neighbour counts nn[0..2]; nn[0] is unused. */
  type Counts = c: seq<nat> | |c| == 3 && c[1] <= 2 && c[2] <= 2 witness [0, 0, 0]

  /** A per-end table indexed [end][slot] with ends 1 and 2 and slots 0..2. */
  type Table = t: seq<seq<nat>> | |t| == 3 && |t[1]| == MaxDegree && |t[2]| == MaxDegree
    witness [[], [0, 0, 0], [0, 0, 0]]

  /** The tables of a segment with no neighbours (`init_ends`). */
  const EmptyTable: Table := [[], [0, 0, 0], [0, 0, 0]]

  /** The opposite end of a segment. */
  function Opposite(e: nat): (o: nat)
    requires e == 1 || e == 2
    ensures (o == 1 || o == 2) && o != e
  {
    if e == 1 then 2 else 1
  }

  datatype Segment = Segment(g: seq<Edge>, nn: Counts, neig: Table, neen: Table, cl: nat)
  {
    /** Position of the edge at end `e`: the first edge for end 1, the last
        for end 2 (the size type wraps for an empty segment). */
    function End2A(e: nat): (a: nat)
      requires e == 1 || e == 2
      ensures e == 1 ==> a == 0
      ensures |g| > 0 ==> a < |g| && (e == 2 ==> a + 1 == |g|)
    {
      if e == 1 then 0 else Dec(|g|)
    }

    /** Which single end is free (has no neighbours): 1 or 2, or 0 when both
        or neither are free (see HasOneFreeEndMeaning). */
    function HasOneFreeEnd(): nat
    {
      if nn[1] == 0 && nn[2] != 0 then 1
      else if nn[1] != 0 && nn[2] == 0 then 2
      else 0
    }

    /** The first slot 1..nn[e] holding a real neighbour, or Huge if none. */
    function SingleNeigIndex(e: nat): (i: nat)
      requires e == 1 || e == 2
      ensures i == Huge || (1 <= i <= nn[e] && neig[e][i] != 0)
      ensures (i == 2 || i == Huge) && nn[e] >= 1 ==> neig[e][1] == 0
      ensures i == Huge && nn[e] >= 2 ==> neig[e][2] == 0
    {
      if 1 <= nn[e] && neig[e][1] != 0 then 1
      else if 2 <= nn[e] && neig[e][2] != 0 then 2
      else Huge
    }

    /** A segment closed on itself: each end has a single neighbour, and it
        is the same segment at both ends (see IsCycleBySingleNeig for the
        source's formulation through single_neig_index). */
    function IsCycle(): bool
    {
      nn[1] == 1 && nn[2] == 1 && neig[1][1] != 0 && neig[1][1] == neig[2][1]
    }

    /** Number of ends without neighbours. */
    function FreeEnds(): (r: nat)
      ensures r <= 2
    {
      (if nn[1] == 0 then 1 else 0) + (if nn[2] == 0 then 1 else 0)
    }

    /** Number of ends at a degree-3 node (two neighbours). */
    function BranchedEnds(): (r: nat)
      ensures r <= 2
    {
      (if nn[1] == 2 then 1 else 0) + (if nn[2] == 2 then 1 else 0)
    }

    /** `num_nodes(deg)`: this segment's contribution to the count of nodes
        of degree `deg` (see NumNodesMeaning).  Any other degree is a fatal
        error in the source. */
    function NumNodes(deg: nat): nat
      requires 1 <= deg <= 3
    {
      if deg == 1 then
        if nn[1] != 0 && nn[2] != 0 then 0
        else if nn[1] == 0 && nn[2] == 0 then 2
        else 1
      else if deg == 2 then
        if nn[1] != 0 && nn[2] != 0 && IsCycle() then |g| else Dec(|g|)
      else
        if nn[1] == 2 && nn[2] == 2 then 2
        else if nn[1] == 2 || nn[2] == 2 then 1
        else 0
    }

    /** `set_end_fin<E>`: the weight of end E of the segment becomes 1 if that
        end has neighbours and 0 if it is free; the new weight is returned. */
    function SetEndFin(e: nat): (r: (Segment, FinT))
      requires e == 1 || e == 2
      requires |g| > 0
      ensures r.1 == if nn[e] != 0 then 1.0 else 0.0
      ensures |r.0.g| == |g| && r.0.g[End2A(e)].fin[e - 1] == r.1
      ensures r.0.g[End2A(e)] == g[End2A(e)].SetFin(e - 1, r.1)
      ensures forall k :: 0 <= k < |g| && k != End2A(e) ==> r.0.g[k] == g[k]
      ensures r.0.nn == nn && r.0.neig == neig && r.0.neen == neen && r.0.cl == cl
    {
      var a := End2A(e);
      var f: FinT := if nn[e] != 0 then 1.0 else 0.0;
      (this.(g := g[a := g[a].SetFin(e - 1, f)]), f)
    }

    /** `set_bulk_fin(a)`: the node between edges a and a+1 becomes able to
        split: g[a].fin[1] and g[a+1].fin[0] become 1; the value 1 is
        returned.  Requires a+1 to be an edge of the segment (see
        BulkFinGuardAsWritten for the check the source performs). */
    function SetBulkFin(a: nat): (r: (Segment, FinT))
      requires a + 1 < |g|
      ensures r.1 == 1.0
      ensures |r.0.g| == |g|
      ensures r.0.g[a] == g[a].SetFin(1, 1.0) && r.0.g[a + 1] == g[a + 1].SetFin(0, 1.0)
      ensures forall k :: 0 <= k < |g| && k != a && k != a + 1 ==> r.0.g[k] == g[k]
      ensures r.0.nn == nn && r.0.neig == neig && r.0.neen == neen && r.0.cl == cl
    {
      (this.(g := g[a := g[a].SetFin(1, 1.0)][a + 1 := g[a + 1].SetFin(0, 1.0)]), 1.0)
    }
  }

  /** A segment with no edges and no neighbours in cluster `cl` (the
      constructors `Segment(msgr)` and `Segment(msgr, cl)`; the mock segment
      at index 0 of a network is `MockSegment(0)`). */
  function MockSegment(cl: nat): (s: Segment)
    ensures s.g == [] && s.cl == cl
    ensures s.nn[1] == 0 && s.nn[2] == 0 && s.FreeEnds() == 2
  {
    Segment([], [0, 0, 0], EmptyTable, EmptyTable, cl)
  }

  /** The segment the constructor `Segment(segmass, cl, ei)` builds: segmass
      edges with network indices ei, ei+1, ..., cluster indices 0, 1, ...,
      all in cluster cl, and no neighbours. */
  function FreshSegment(segmass: nat, cl: nat, ei: nat): (s: Segment)
    ensures |s.g| == segmass && s.cl == cl
    ensures forall a :: 0 <= a < segmass ==> s.g[a] == NewEdge(ei + a, a, cl)
    ensures s.nn[1] == 0 && s.nn[2] == 0
  {
    MockSegment(cl).(g := seq(segmass, a requires 0 <= a < segmass => NewEdge(ei + a, a, cl)))
  }

  /** has_one_free_end names the free end exactly when one end is free and
      the other is not. */
  lemma HasOneFreeEndMeaning(s: Segment)
    ensures s.HasOneFreeEnd() == 1 <==> s.nn[1] == 0 && s.nn[2] != 0
    ensures s.HasOneFreeEnd() == 2 <==> s.nn[1] != 0 && s.nn[2] == 0
    ensures s.HasOneFreeEnd() == 0 <==> (s.nn[1] == 0 <==> s.nn[2] == 0)
  {
  }

  /** is_cycle as the source writes it: both ends have one neighbour slot
      and the first real neighbour at each end is the same segment.  When an
      end has no real neighbour the source reads slot Huge, which this model
      takes as "not a cycle". */
  lemma IsCycleBySingleNeig(s: Segment)
    ensures s.IsCycle() <==>
      s.nn[1] == 1 && s.nn[2] == 1 && s.SingleNeigIndex(1) != Huge && s.SingleNeigIndex(2) != Huge
      && s.neig[1][s.SingleNeigIndex(1)] == s.neig[2][s.SingleNeigIndex(2)]
  {
  }

  /** num_nodes counts: free ends as degree-1 nodes; the |g|-1 joints
      between consecutive edges as degree-2 nodes, plus one more when the
      segment closes on itself (the size type wraps for an empty linear
      segment); and ends with two neighbours as shares of degree-3 nodes. */
  lemma NumNodesMeaning(s: Segment, deg: nat)
    requires 1 <= deg <= 3
    ensures deg == 1 ==> s.NumNodes(deg) == s.FreeEnds()
    ensures deg == 2 && |s.g| > 0 ==> s.NumNodes(deg) == if s.IsCycle() then |s.g| else |s.g| - 1
    ensures deg == 2 && |s.g| == 0 ==> s.NumNodes(deg) == if s.IsCycle() then 0 else Huge
    ensures deg == 3 ==> s.NumNodes(deg) == s.BranchedEnds()
  {
  }

  /** A freshly built segment of positive mass is a lone linear segment:
      two free ends, segmass-1 interior nodes, no branch point. */
  lemma FreshSegmentNodes(segmass: nat, cl: nat, ei: nat)
    requires segmass > 0
    ensures FreshSegment(segmass, cl, ei).NumNodes(1) == 2
    ensures FreshSegment(segmass, cl, ei).NumNodes(2) == segmass - 1
    ensures FreshSegment(segmass, cl, ei).NumNodes(3) == 0
    ensures !FreshSegment(segmass, cl, ei).IsCycle()
  {
  }

  /** The constructor `Segment(segmass, cl, ei)`: appends the edges one at a
      time, each after the previous one. */
  method NewSegment(segmass: nat, cl: nat, ei: nat) returns (s: Segment)
    ensures s == FreshSegment(segmass, cl, ei)
  {
    s := MockSegment(cl);
    var a := 0;
    while a < segmass
      invariant a <= segmass
      invariant s == FreshSegment(a, cl, ei)
    {
      // increment_length(a-1, ...) inserts right after g[a-1], i.e. at the back
      s := s.(g := s.g[..a] + [NewEdge(ei + a, a, cl)] + s.g[a..]);
      a := a + 1;
    }
  }

  /** The edges of a segment read from the other end: reversed order, and
      each edge turned around. */
  function ReflectedEdges(g: seq<Edge>): (r: seq<Edge>)
    ensures |r| == |g|
    ensures forall k :: 0 <= k < |g| ==> r[k] == g[|g| - 1 - k].Reflect()
  {
    seq(|g|, k requires 0 <= k < |g| => g[|g| - 1 - k].Reflect())
  }

  /** Reading a segment from the other end twice gives the original edges. */
  lemma {:induction false} ReflectedEdgesInvolutive(g: seq<Edge>)
    ensures ReflectedEdges(ReflectedEdges(g)) == g
  {
    forall k | 0 <= k < |g|
      ensures ReflectedEdges(ReflectedEdges(g))[k] == g[k]
    {
      ReflectInvolutive(g[k]);
    }
  }

  /** Reflection keeps the multiset of edge indices (no edge is lost). */
  lemma {:induction false} ReflectedEdgesKeepInds(g: seq<Edge>, k: nat)
    requires k < |g|
    ensures ReflectedEdges(g)[|g| - 1 - k].ind == g[k].ind
    ensures ReflectedEdges(g)[|g| - 1 - k].cl == g[k].cl
  {
  }

  /** `reflect_g`: reverse the edge order, then turn every edge around. */
  method ReflectG(s: Segment) returns (r: Segment)
    ensures r == s.(g := ReflectedEdges(s.g))
  {
    var h := Reversed(s.g);
    var i := 0;
    while i < |h|
      invariant i <= |h| == |s.g|
      invariant forall k :: 0 <= k < i ==> h[k] == s.g[|s.g| - 1 - k].Reflect()
      invariant forall k :: i <= k < |h| ==> h[k] == s.g[|s.g| - 1 - k]
    {
      h := h[i := h[i].Reflect()];
      i := i + 1;
    }
    r := s.(g := h);
  }

  /** `std::reverse` on the edge vector. */
  function Reversed(g: seq<Edge>): (r: seq<Edge>)
    ensures |r| == |g|
    ensures forall k :: 0 <= k < |g| ==> r[k] == g[|g| - 1 - k]
  {
    if g == [] then [] else Reversed(g[1..]) + [g[0]]
  }

  /** The edges after moving the segment to cluster `newcl` with cluster
      indices numbered from `initind`: network indices and weights are kept. */
  function Relabelled(g: seq<Edge>, newcl: nat, initind: nat): (r: seq<Edge>)
    ensures |r| == |g|
    ensures forall i :: 0 <= i < |g| ==>
      r[i].cl == newcl && r[i].indcl == initind + i && r[i].ind == g[i].ind && r[i].fin == g[i].fin
  {
    seq(|g|, i requires 0 <= i < |g| => g[i].(cl := newcl, indcl := initind + i))
  }

  /** `set_gCl(newcl, initind)`: relabel every edge, returning the first
      cluster index after this segment's edges. */
  method SetGCl(s: Segment, newcl: nat, initind: nat) returns (r: Segment, next: nat)
    ensures r == s.(g := Relabelled(s.g, newcl, initind))
    ensures next == initind + |s.g|
  {
    r := s;
    var i := 0;
    while i < |r.g|
      invariant i <= |r.g| == |s.g|
      invariant forall k :: 0 <= k < i ==> r.g[k] == s.g[k].(cl := newcl, indcl := initind + k)
      invariant forall k :: i <= k < |r.g| ==> r.g[k] == s.g[k]
      invariant r.nn == s.nn && r.neig == s.neig && r.neen == s.neen && r.cl == s.cl
    {
      r := r.(g := r.g[i := r.g[i].SetCl(newcl).SetIndcl(initind + i)]);
      i := i + 1;
    }
    next := initind + |r.g|;
  }

  /** `setCl(newcl, initind)`: like set_gCl, and the segment itself moves to
      cluster newcl. */
  method SetCl(s: Segment, newcl: nat, initind: nat) returns (r: Segment, next: nat)
    ensures r == s.(cl := newcl, g := Relabelled(s.g, newcl, initind))
    ensures next == initind + |s.g|
  {
    r := s.(cl := newcl);
    r, next := SetGCl(r, newcl, initind);
  }

  /** The loop of `single_neig_index`. */
  method FindSingleNeigIndex(s: Segment, e: nat) returns (i: nat)
    requires e == 1 || e == 2
    ensures i == s.SingleNeigIndex(e)
  {
    var k := 1;
    while k <= s.nn[e]
      invariant 1 <= k <= s.nn[e] + 1
      invariant forall j :: 1 <= j < k ==> s.neig[e][j] == 0
    {
      if s.neig[e][k] != 0 {
        return k;
      }
      k := k + 1;
    }
    return Huge;
  }

  /** The slots 1..n of neighbour table row `row` holding a real neighbour,
      in increasing order. */
  function NonzeroSlots(row: seq<nat>, n: nat): (r: seq<nat>)
    requires n < |row|
    ensures |r| <= n
    ensures forall k :: 0 <= k < |r| ==> 1 <= r[k] <= n && row[r[k]] != 0
  {
    if n == 0 then []
    else NonzeroSlots(row, n - 1) + (if row[n] != 0 then [n] else [])
  }

  /** NonzeroSlots lists every occupied slot, in increasing order. */
  lemma {:induction false} NonzeroSlotsComplete(row: seq<nat>, n: nat)
    requires n < |row|
    ensures forall k, l :: 0 <= k < l < |NonzeroSlots(row, n)| ==>
      NonzeroSlots(row, n)[k] < NonzeroSlots(row, n)[l]
    ensures forall i :: 1 <= i <= n && row[i] != 0 ==> i in NonzeroSlots(row, n)
  {
    if n > 0 {
      NonzeroSlotsComplete(row, n - 1);
    }
  }

  /** `double_neig_indexes(e)`: a vector of size nn[e] whose leading entries
      are the slots of end e holding a real neighbour, the rest 0. */
  method DoubleNeigIndexes(s: Segment, e: nat) returns (r: seq<nat>)
    requires e == 1 || e == 2
    ensures |r| == s.nn[e]
    ensures var z := NonzeroSlots(s.neig[e], s.nn[e]);
      r[..|z|] == z && forall k :: |z| <= k < |r| ==> r[k] == 0
  {
    var row, size := s.neig[e], s.nn[e];
    r := seq(size, _ => 0);
    var j := 0;
    var i := 1;
    while i <= size
      invariant 1 <= i <= size + 1
      invariant |r| == size
      invariant j == |NonzeroSlots(row, i - 1)| && j <= i - 1
      invariant r[..j] == NonzeroSlots(row, i - 1)
      invariant forall k :: j <= k < |r| ==> r[k] == 0
    {
      ghost var z := NonzeroSlots(row, i - 1);
      assert NonzeroSlots(row, i) == z + (if row[i] != 0 then [i] else []);
      if row[i] != 0 {
        r := r[j := i];
        assert r[..j + 1] == z + [i];
        j := j + 1;
      }
      i := i + 1;
    }
  }

  /** The check the source performs before `set_bulk_fin(a)`: `a >= 0 ||
      a <= size-1` over the unsigned size type. */
  predicate BulkFinGuardAsWritten(a: nat, size: nat)
  {
    a >= 0 || a <= Dec(size)
  }

  /** The check admits a = size-1, the last edge, for which the write to
      g[a+1] falls outside the segment. */
  lemma BulkFinGuardAdmitsLastEdge(size: nat)
    requires size > 0
    ensures BulkFinGuardAsWritten(size - 1, size) && !(size - 1 + 1 < size)
  {
  }
}
