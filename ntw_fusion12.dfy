/** Model of include/reactions/ntw_fusion12.h (class NtwFusion12): the
  enumeration of the (free end, interior node) pairs that may fuse tip to
  side (fuse12); the propensity of the reaction is the count of pairs.

  The free end is an end of a lone segment (mt11) or the free end of a Tip
  segment (mt13); the interior node is a position 1 <= i < |g| of a lone,
  Tip, Inner (mt33) or cycle (mt22) segment. A pair whose free end lies on
  the same segment as the node, closer to it than MinLoopLength edges, is
  skipped -- but only where the source checks for it: lone end to lone
  bulk, and Tip end to Tip bulk. As written, a lone end is listed twice
  with each node of a lone segment (Candidates12); Candidates12Once lists
  it once, as the repository's tests count. */
module NtwFusion12 {
  import opened Segments
  import opened Structure
  import opened FusionCandidates

  /** A free end and the (segment, position) of an interior node. */
  type SidePair = (Node, Node)

  /** The segments whose interior nodes are targets, in the order populate
      visits them: mt11, the segments of mt13, mt33, mt22. */
  function Targets(mt11: seq<nat>, mt13: seq<Node>, mt22: seq<nat>, mt33: seq<nat>): (r: seq<nat>)
    ensures |r| == |mt11| + |mt13| + |mt33| + |mt22|
  {
    mt11 + TipSegments(mt13) + mt33 + mt22
  }

  /** All four class lists name real segments. */
  predicate ListsIn(mt: seq<Segment>, mt11: seq<nat>, mt13: seq<Node>, mt22: seq<nat>, mt33: seq<nat>)
  {
    InRange(mt, mt11) && InRange(mt, TipSegments(mt13)) && InRange(mt, mt33) && InRange(mt, mt22)
  }

  /** The skip rule: position i of segment w2 is on the free end's own
      segment and closer to that end than MinLoopLength edges. */
  predicate TooNear(mt: seq<Segment>, we1: Node, w2: nat, i: nat)
    requires w2 < |mt|
  {
    we1.0 == w2 && ((we1.1 == 1 && i < MinLoopLength) || (we1.1 == 2 && |mt[w2].g| - i < MinLoopLength))
  }

  /** One pass of the innermost loop, at position i of w2: nothing when
      the skip rule is checked (near) and applies, otherwise the pair, twice
      over when twice is set. */
  function Hit(mt: seq<Segment>, we1: Node, w2: nat, i: nat, twice: bool, near: bool): seq<SidePair>
    requires w2 < |mt|
  {
    if near && TooNear(mt, we1, w2, i) then []
    else if twice then [(we1, (w2, i)), (we1, (w2, i))]
    else [(we1, (w2, i))]
  }

  /** The innermost loop up to position hi (excluded): positions 1 .. hi-1
      of segment w2 in turn. */
  function Reach(mt: seq<Segment>, we1: Node, w2: nat, hi: nat, twice: bool, near: bool): seq<SidePair>
    requires w2 < |mt|
  {
    if hi <= 1 then [] else Reach(mt, we1, w2, hi - 1, twice, near) + Hit(mt, we1, w2, hi - 1, twice, near)
  }

  /** One target loop: the interior nodes of each segment of ws in turn. */
  function ReachAll(mt: seq<Segment>, we1: Node, ws: seq<nat>, twice: bool, near: bool): seq<SidePair>
    requires InRange(mt, ws)
  {
    if |ws| == 0 then []
    else
      var n := |ws| - 1;
      ReachAll(mt, we1, ws[..n], twice, near) + Reach(mt, we1, ws[n], |mt[ws[n]].g|, twice, near)
  }

  /** The four target loops for the free end we1, of a lone segment (lone)
      or of a Tip segment: lone bulk (each pair twice when twice is set, and
      with the skip rule for a lone end), Tip bulk (with the skip rule for a
      Tip end), Inner bulk, cycle bulk. */
  function Row(mt: seq<Segment>, we1: Node, lone: bool, twice: bool,
               mt11: seq<nat>, mt13: seq<Node>, mt22: seq<nat>, mt33: seq<nat>): seq<SidePair>
    requires ListsIn(mt, mt11, mt13, mt22, mt33)
  {
    ReachAll(mt, we1, mt11, twice, lone) + ReachAll(mt, we1, TipSegments(mt13), false, !lone)
    + ReachAll(mt, we1, mt33, false, false) + ReachAll(mt, we1, mt22, false, false)
  }

  /** The outer loop: Row for each free end of ends in turn. */
  function Rows(mt: seq<Segment>, ends: seq<Node>, lone: bool, twice: bool,
                mt11: seq<nat>, mt13: seq<Node>, mt22: seq<nat>, mt33: seq<nat>): seq<SidePair>
    requires ListsIn(mt, mt11, mt13, mt22, mt33)
  {
    if |ends| == 0 then []
    else
      var n := |ends| - 1;
      Rows(mt, ends[..n], lone, twice, mt11, mt13, mt22, mt33) + Row(mt, ends[n], lone, twice, mt11, mt13, mt22, mt33)
  }

  /** The candidate list `populate` leaves in the container, as written:
      the rows of both ends of each lone segment, each lone-to-lone pair
      added twice, then the rows of each free end of mt13. */
  function Candidates12(mt: seq<Segment>, mt11: seq<nat>, mt13: seq<Node>, mt22: seq<nat>, mt33: seq<nat>): seq<SidePair>
    requires ListsIn(mt, mt11, mt13, mt22, mt33)
  {
    Rows(mt, BothEnds(mt11), true, true, mt11, mt13, mt22, mt33)
    + Rows(mt, mt13, false, false, mt11, mt13, mt22, mt33)
  }

  /** The candidate list with the second `cnd.add` of the lone-to-lone loop
      dropped: every admissible pair once. */
  function Candidates12Once(mt: seq<Segment>, mt11: seq<nat>, mt13: seq<Node>, mt22: seq<nat>, mt33: seq<nat>): seq<SidePair>
    requires ListsIn(mt, mt11, mt13, mt22, mt33)
  {
    Rows(mt, BothEnds(mt11), true, false, mt11, mt13, mt22, mt33)
    + Rows(mt, mt13, false, false, mt11, mt13, mt22, mt33)
  }

  /** How often a pair is listed, stated without the loops: a free end with
      an interior node of a target segment that is not too near it on the
      same segment; twice when both segments are lone, once otherwise. */
  function Multiplicity(mt: seq<Segment>, mt11: seq<nat>, mt13: seq<Node>, mt22: seq<nat>, mt33: seq<nat>,
                        p: SidePair): nat
    requires ListsIn(mt, mt11, mt13, mt22, mt33)
  {
    var we1, w2, i := p.0, p.1.0, p.1.1;
    if we1 in FreeEnds(mt11, mt13) && w2 in Targets(mt11, mt13, mt22, mt33) && w2 < |mt|
       && 1 <= i < |mt[w2].g| && !TooNear(mt, we1, w2, i)
    then (if we1.0 in mt11 && w2 in mt11 then 2 else 1)
    else 0
  }

  /** The intended count, stated without the loops: a free end with an
      interior node of a target segment not too near it on the same
      segment, once; anything else never. */
  predicate Admissible(mt: seq<Segment>, mt11: seq<nat>, mt13: seq<Node>, mt22: seq<nat>, mt33: seq<nat>,
                       p: SidePair)
    requires ListsIn(mt, mt11, mt13, mt22, mt33)
  {
    var we1, w2, i := p.0, p.1.0, p.1.1;
    we1 in FreeEnds(mt11, mt13) && w2 in Targets(mt11, mt13, mt22, mt33) && w2 < |mt|
    && 1 <= i < |mt[w2].g| && !TooNear(mt, we1, w2, i)
  }

  // ---------------------------------------------------------------------
  // Helper facts about lists without repetitions

  /** The two halves of a list without repetitions have none, and share no
      element. */
  lemma DistinctSplit<T>(a: seq<T>, b: seq<T>)
    requires Distinct(a + b)
    ensures Distinct(a) && Distinct(b) && forall x :: x in a ==> x !in b
  {
    var c := a + b;
    forall x | x in a
      ensures x !in b
    {
      var i :| 0 <= i < |a| && a[i] == x;
      forall j | 0 <= j < |b|
        ensures b[j] != x
      {
        assert c[i] != c[|a| + j];
      }
    }
    forall i, j | 0 <= i < j < |a|
      ensures a[i] != a[j]
    {
      assert c[i] != c[j];
    }
    forall i, j | 0 <= i < j < |b|
      ensures b[i] != b[j]
    {
      assert c[|a| + i] != c[|a| + j];
    }
  }

  /** Two lists without repetitions and without a common element join into
      one without repetitions. */
  lemma DistinctJoin<T>(a: seq<T>, b: seq<T>)
    requires Distinct(a) && Distinct(b) && forall x :: x in a ==> x !in b
    ensures Distinct(a + b)
  {
    var c := a + b;
    forall i, j | 0 <= i < j < |c|
      ensures c[i] != c[j]
    {
      if i < |a| && |a| <= j {
        assert c[i] in a && c[j] in b;
      } else if |a| <= i {
        assert c[i] == b[i - |a|] && c[j] == b[j - |a|];
      }
    }
  }

  /** The parts of Targets when it has no repetitions. */
  lemma TargetsSplit(mt11: seq<nat>, mt13: seq<Node>, mt22: seq<nat>, mt33: seq<nat>)
    requires Distinct(Targets(mt11, mt13, mt22, mt33))
    ensures Separate(mt11, mt13) && Distinct(mt33) && Distinct(mt22)
    ensures forall w :: w in mt11 ==> w !in TipSegments(mt13) && w !in mt33 && w !in mt22
    ensures forall w :: w in TipSegments(mt13) ==> w !in mt33 && w !in mt22
    ensures forall w :: w in mt33 ==> w !in mt22
  {
    var ts := TipSegments(mt13);
    DistinctSplit(mt11 + ts + mt33, mt22);
    DistinctSplit(mt11 + ts, mt33);
    DistinctSplit(mt11, ts);
    forall i, j | 0 <= i < |mt11| && 0 <= j < |mt13|
      ensures mt11[i] != mt13[j].0
    {
      assert mt11[i] in mt11 && ts[j] in ts;
    }
  }

  // ---------------------------------------------------------------------
  // Multiplicities, loop by loop

  /** One pass lists its own pair as Hit says, and no other. */
  lemma HitCount(mt: seq<Segment>, we1: Node, w2: nat, i: nat, twice: bool, near: bool, p: SidePair)
    requires w2 < |mt|
    ensures multiset(Hit(mt, we1, w2, i, twice, near))[p]
      == if p == (we1, (w2, i)) && !(near && TooNear(mt, we1, w2, i)) then (if twice then 2 else 1) else 0
  {
  }

  /** Position i of w2 is listed by Reach up to hi as often as Hit says,
      and nothing else is. */
  lemma {:induction false} ReachCount(mt: seq<Segment>, we1: Node, w2: nat, hi: nat, twice: bool, near: bool, p: SidePair)
    requires w2 < |mt|
    ensures multiset(Reach(mt, we1, w2, hi, twice, near))[p]
      == if p.0 == we1 && p.1.0 == w2 && 1 <= p.1.1 < hi && !(near && TooNear(mt, we1, w2, p.1.1))
         then (if twice then 2 else 1) else 0
  {
    if hi > 1 {
      var front, last := Reach(mt, we1, w2, hi - 1, twice, near), Hit(mt, we1, w2, hi - 1, twice, near);
      ReachCount(mt, we1, w2, hi - 1, twice, near, p);
      HitCount(mt, we1, w2, hi - 1, twice, near, p);
      CountSplit(front + last, front, last, p);
    }
  }

  /** With no segment repeated in ws, a pair is listed by ReachAll as
      often as by the Reach of its segment, if that segment is in ws. */
  lemma {:induction false} ReachAllCount(mt: seq<Segment>, we1: Node, ws: seq<nat>, twice: bool, near: bool, p: SidePair)
    requires InRange(mt, ws) && Distinct(ws)
    ensures multiset(ReachAll(mt, we1, ws, twice, near))[p]
      == if p.0 == we1 && p.1.0 in ws && 1 <= p.1.1 < |mt[p.1.0].g| && !(near && TooNear(mt, we1, p.1.0, p.1.1))
         then (if twice then 2 else 1) else 0
  {
    if |ws| > 0 {
      var n := |ws| - 1;
      var front := ws[..n];
      assert Distinct(front) && InRange(mt, front);
      assert ws == front + [ws[n]];
      assert ws[n] !in front;
      ReachAllCount(mt, we1, front, twice, near, p);
      ReachCount(mt, we1, ws[n], |mt[ws[n]].g|, twice, near, p);
      CountSplit(ReachAll(mt, we1, ws, twice, near), ReachAll(mt, we1, front, twice, near),
                 Reach(mt, we1, ws[n], |mt[ws[n]].g|, twice, near), p);
    }
  }

  /** How often Row lists a pair with its own free end in front. */
  function RowMult(mt: seq<Segment>, twice: bool, mt11: seq<nat>, mt13: seq<Node>, mt22: seq<nat>, mt33: seq<nat>,
                   p: SidePair): nat
    requires ListsIn(mt, mt11, mt13, mt22, mt33)
  {
    var w2, i := p.1.0, p.1.1;
    if w2 in Targets(mt11, mt13, mt22, mt33) && w2 < |mt| && 1 <= i < |mt[w2].g| && !TooNear(mt, p.0, w2, i)
    then (if twice && w2 in mt11 then 2 else 1)
    else 0
  }

  /** A row lists the pairs of its free end with RowMult, and no other
      pair: the skip rule the source leaves out for lone-to-Tip and
      Tip-to-lone pairs would not apply there anyway, as the segments
      differ. */
  lemma RowCount(mt: seq<Segment>, we1: Node, lone: bool, twice: bool,
                 mt11: seq<nat>, mt13: seq<Node>, mt22: seq<nat>, mt33: seq<nat>, p: SidePair)
    requires ListsIn(mt, mt11, mt13, mt22, mt33) && Distinct(Targets(mt11, mt13, mt22, mt33))
    requires if lone then we1.0 in mt11 else we1.0 in TipSegments(mt13)
    ensures multiset(Row(mt, we1, lone, twice, mt11, mt13, mt22, mt33))[p]
      == if p.0 == we1 then RowMult(mt, twice, mt11, mt13, mt22, mt33, p) else 0
  {
    var ts := TipSegments(mt13);
    TargetsSplit(mt11, mt13, mt22, mt33);
    var a := ReachAll(mt, we1, mt11, twice, lone);
    var b := ReachAll(mt, we1, ts, false, !lone);
    var c := ReachAll(mt, we1, mt33, false, false);
    var d := ReachAll(mt, we1, mt22, false, false);
    ReachAllCount(mt, we1, mt11, twice, lone, p);
    ReachAllCount(mt, we1, ts, false, !lone, p);
    ReachAllCount(mt, we1, mt33, false, false, p);
    ReachAllCount(mt, we1, mt22, false, false, p);
    CountSplit(a + b, a, b, p);
    CountSplit(a + b + c, a + b, c, p);
    CountSplit(a + b + c + d, a + b + c, d, p);
  }

  /** With no free end repeated, Rows lists a pair as often as the row of
      its free end does, if that end is among ends. */
  lemma {:induction false} RowsCount(mt: seq<Segment>, ends: seq<Node>, lone: bool, twice: bool,
                                     mt11: seq<nat>, mt13: seq<Node>, mt22: seq<nat>, mt33: seq<nat>, p: SidePair)
    requires ListsIn(mt, mt11, mt13, mt22, mt33) && Distinct(Targets(mt11, mt13, mt22, mt33))
    requires Distinct(ends)
    requires forall e :: e in ends ==> if lone then e.0 in mt11 else e.0 in TipSegments(mt13)
    ensures multiset(Rows(mt, ends, lone, twice, mt11, mt13, mt22, mt33))[p]
      == if p.0 in ends then RowMult(mt, twice, mt11, mt13, mt22, mt33, p) else 0
  {
    if |ends| > 0 {
      var n := |ends| - 1;
      var front := ends[..n];
      assert Distinct(front);
      assert ends == front + [ends[n]];
      assert ends[n] !in front;
      RowsCount(mt, front, lone, twice, mt11, mt13, mt22, mt33, p);
      RowCount(mt, ends[n], lone, twice, mt11, mt13, mt22, mt33, p);
      CountSplit(Rows(mt, ends, lone, twice, mt11, mt13, mt22, mt33), Rows(mt, front, lone, twice, mt11, mt13, mt22, mt33),
                 Row(mt, ends[n], lone, twice, mt11, mt13, mt22, mt33), p);
    }
  }

  /** Every free end of a lone segment is on a segment of mt11. */
  lemma LoneEndsOnLone(mt11: seq<nat>)
    ensures forall e :: e in BothEnds(mt11) ==> e.0 in mt11
  {
    BothEndsAt(mt11);
    forall e | e in BothEnds(mt11)
      ensures e.0 in mt11
    {
      var k :| 0 <= k < |BothEnds(mt11)| && BothEnds(mt11)[k] == e;
      assert mt11[k / 2] in mt11;
    }
  }

  /** Every free end of mt13 is on a segment of mt13. */
  lemma TipEndsOnTip(mt13: seq<Node>)
    ensures forall e :: e in mt13 ==> e.0 in TipSegments(mt13)
  {
    forall e | e in mt13
      ensures e.0 in TipSegments(mt13)
    {
      var k :| 0 <= k < |mt13| && mt13[k] == e;
      assert TipSegments(mt13)[k] == e.0;
    }
  }

  /** The list populate builds holds each pair exactly as often as
      Multiplicity says: pairs of a free end and an interior node not too
      near it, twice for a lone end and a lone segment, once otherwise;
      nothing else. */
  lemma PairCount(mt: seq<Segment>, mt11: seq<nat>, mt13: seq<Node>, mt22: seq<nat>, mt33: seq<nat>, p: SidePair)
    requires ListsIn(mt, mt11, mt13, mt22, mt33) && Distinct(Targets(mt11, mt13, mt22, mt33))
    ensures multiset(Candidates12(mt, mt11, mt13, mt22, mt33))[p] == Multiplicity(mt, mt11, mt13, mt22, mt33, p)
  {
    CandidatesCount(mt, mt11, mt13, mt22, mt33, true, p);
  }

  /** The corrected list holds every admissible pair exactly once and
      nothing else. */
  lemma PairCountOnce(mt: seq<Segment>, mt11: seq<nat>, mt13: seq<Node>, mt22: seq<nat>, mt33: seq<nat>, p: SidePair)
    requires ListsIn(mt, mt11, mt13, mt22, mt33) && Distinct(Targets(mt11, mt13, mt22, mt33))
    ensures multiset(Candidates12Once(mt, mt11, mt13, mt22, mt33))[p]
      == if Admissible(mt, mt11, mt13, mt22, mt33, p) then 1 else 0
  {
    CandidatesCount(mt, mt11, mt13, mt22, mt33, false, p);
  }

  /** Both lists, counted row by row: a pair of a lone end is listed as its
      lone row says (twice or once on a lone segment), a pair of a Tip end
      once, nothing else. */
  lemma CandidatesCount(mt: seq<Segment>, mt11: seq<nat>, mt13: seq<Node>, mt22: seq<nat>, mt33: seq<nat>,
                        twice: bool, p: SidePair)
    requires ListsIn(mt, mt11, mt13, mt22, mt33) && Distinct(Targets(mt11, mt13, mt22, mt33))
    ensures multiset(Rows(mt, BothEnds(mt11), true, twice, mt11, mt13, mt22, mt33)
                     + Rows(mt, mt13, false, false, mt11, mt13, mt22, mt33))[p]
      == if Admissible(mt, mt11, mt13, mt22, mt33, p)
         then (if twice && p.0.0 in mt11 && p.1.0 in mt11 then 2 else 1) else 0
  {
    var ends := BothEnds(mt11);
    var lone, tip := Rows(mt, ends, true, twice, mt11, mt13, mt22, mt33), Rows(mt, mt13, false, false, mt11, mt13, mt22, mt33);
    TargetsSplit(mt11, mt13, mt22, mt33);
    LoneEndsOnLone(mt11);
    TipEndsOnTip(mt13);
    assert Distinct(ends) && Distinct(mt13) && forall e :: e in ends ==> e !in mt13 by {
      FreeEndsDistinct(mt11, mt13);
      DistinctSplit(ends, mt13);
    }
    assert multiset(lone)[p] == if p.0 in ends then RowMult(mt, twice, mt11, mt13, mt22, mt33, p) else 0 by {
      RowsCount(mt, ends, true, twice, mt11, mt13, mt22, mt33, p);
    }
    assert multiset(tip)[p] == if p.0 in mt13 then RowMult(mt, false, mt11, mt13, mt22, mt33, p) else 0 by {
      RowsCount(mt, mt13, false, false, mt11, mt13, mt22, mt33, p);
    }
    CountSplit(lone + tip, lone, tip, p);
    if p.0 in ends {
      assert p.0.0 in mt11;
    } else if p.0 in mt13 {
      assert p.0.0 in TipSegments(mt13);
      assert p.0.0 !in mt11;
    }
  }

  /** Every candidate is a valid argument of fuse12: a free end, and a node
      strictly inside a target segment, away from the free end's own
      segment ends as the skip rule demands. */
  lemma OnlyInterior(mt: seq<Segment>, mt11: seq<nat>, mt13: seq<Node>, mt22: seq<nat>, mt33: seq<nat>, p: SidePair)
    requires ListsIn(mt, mt11, mt13, mt22, mt33) && Distinct(Targets(mt11, mt13, mt22, mt33))
    requires p in Candidates12(mt, mt11, mt13, mt22, mt33)
    ensures p.0 in FreeEnds(mt11, mt13) && p.1.0 in Targets(mt11, mt13, mt22, mt33)
    ensures p.1.0 < |mt| && 0 < p.1.1 < |mt[p.1.0].g| && !TooNear(mt, p.0, p.1.0, p.1.1)
  {
    PairCount(mt, mt11, mt13, mt22, mt33, p);
  }

  /** The class vectors populate_cluster_vectors builds meet the
      requirements above: they name real segments and no segment twice. */
  lemma ClassListsDistinct(mt: seq<Segment>, n: nat)
    requires n < |mt|
    ensures ListsIn(mt, KindList(mt, n, Lone), TipList(mt, n), KindList(mt, n, Loop), KindList(mt, n, Inner))
    ensures Distinct(Targets(KindList(mt, n, Lone), TipList(mt, n), KindList(mt, n, Loop), KindList(mt, n, Inner)))
  {
    var l, t, c, i := KindList(mt, n, Lone), TipList(mt, n), KindList(mt, n, Loop), KindList(mt, n, Inner);
    ClassListsSeparate(mt, n);
    KindListExact(mt, n, Lone);
    KindListExact(mt, n, Loop);
    KindListExact(mt, n, Inner);
    TipListExact(mt, n);
    var ts := TipSegments(t);
    forall w | w in ts
      ensures KindOf(mt[w]).Tip?
    {
      var k :| 0 <= k < |ts| && ts[k] == w;
      assert t[k].0 == w;
    }
    assert Distinct(l) && Distinct(ts);
    assert Distinct(c) && Distinct(i) by {
      IncreasingDistinct(c);
      IncreasingDistinct(i);
    }
    forall w | w in l
      ensures w !in ts
    {
      var k :| 0 <= k < |l| && l[k] == w;
      forall j | 0 <= j < |ts|
        ensures ts[j] != w
      {
        assert l[k] != t[j].0;
      }
    }
    DistinctJoin(l, ts);
    forall w | w in l + ts
      ensures w !in i && w !in c
    {
      if w in l {
        assert KindOf(mt[w]) == Lone;
      } else {
        assert w in ts;
        assert KindOf(mt[w]).Tip?;
      }
    }
    DistinctJoin(l + ts, i);
    forall w | w in l + ts + i
      ensures w !in c
    {
      assert w in l + ts || w in i;
    }
    DistinctJoin(l + ts + i, c);
  }

  /** A strictly increasing list has no repetitions. */
  lemma IncreasingDistinct(s: seq<nat>)
    requires Increasing(s)
    ensures Distinct(s)
  {
  }

  /** Rows of equal length k make k |ends| pairs. */
  lemma {:induction false} RowsLength(mt: seq<Segment>, ends: seq<Node>, lone: bool, twice: bool,
                                      mt11: seq<nat>, mt13: seq<Node>, mt22: seq<nat>, mt33: seq<nat>, k: nat)
    requires ListsIn(mt, mt11, mt13, mt22, mt33)
    requires forall e :: e in ends ==> |Row(mt, e, lone, twice, mt11, mt13, mt22, mt33)| == k
    ensures |Rows(mt, ends, lone, twice, mt11, mt13, mt22, mt33)| == k * |ends|
  {
    if |ends| > 0 {
      var n := |ends| - 1;
      assert forall e :: e in ends[..n] ==> e in ends;
      RowsLength(mt, ends[..n], lone, twice, mt11, mt13, mt22, mt33, k);
      assert ends[n] in ends;
      MulStep(|ends|, k);
    }
  }

  /** The innermost loop over a segment of 4 edges visits positions 1, 2, 3. */
  lemma ReachFour(mt: seq<Segment>, we1: Node, w2: nat, twice: bool, near: bool)
    requires w2 < |mt|
    ensures Reach(mt, we1, w2, 4, twice, near)
      == Hit(mt, we1, w2, 1, twice, near) + Hit(mt, we1, w2, 2, twice, near) + Hit(mt, we1, w2, 3, twice, near)
  {
    assert Reach(mt, we1, w2, 1, twice, near) == [];
    assert Reach(mt, we1, w2, 2, twice, near) == Hit(mt, we1, w2, 1, twice, near);
  }

  /** The innermost loop over a segment of 3 edges visits positions 1, 2. */
  lemma ReachThree(mt: seq<Segment>, we1: Node, w2: nat, twice: bool, near: bool)
    requires w2 < |mt|
    ensures Reach(mt, we1, w2, 3, twice, near) == Hit(mt, we1, w2, 1, twice, near) + Hit(mt, we1, w2, 2, twice, near)
  {
    assert Reach(mt, we1, w2, 1, twice, near) == [];
  }

  /** The configuration of two lone segments of 4 and 3 edges, nothing
      else, as populate is written: each of the four free ends is paired
      with 2 + 2 interior nodes, each pair listed twice -- 32 pairs. */
  lemma CountTwoLone(mt: seq<Segment>, a: nat, b: nat)
    requires a < |mt| && b < |mt| && a != b && |mt[a].g| == 4 && |mt[b].g| == 3
    ensures |Candidates12(mt, [a, b], [], [], [])| == 32
  {
    TwoLoneRows(mt, a, b, true);
  }

  /** The same configuration with every pair once: 16 pairs, the count the
      repository's tests expect. */
  lemma CountTwoLoneOnce(mt: seq<Segment>, a: nat, b: nat)
    requires a < |mt| && b < |mt| && a != b && |mt[a].g| == 4 && |mt[b].g| == 3
    ensures |Candidates12Once(mt, [a, b], [], [], [])| == 16
  {
    TwoLoneRows(mt, a, b, false);
  }

  /** The four rows of two lone segments of 4 and 3 edges: 4 pairs each,
      listed twice or once. */
  lemma TwoLoneRows(mt: seq<Segment>, a: nat, b: nat, twice: bool)
    requires a < |mt| && b < |mt| && a != b && |mt[a].g| == 4 && |mt[b].g| == 3
    ensures |Rows(mt, BothEnds([a, b]), true, twice, [a, b], [], [], [])| == if twice then 32 else 16
  {
    var mt11: seq<nat> := [a, b];
    var none: seq<nat>, tips: seq<Node> := [], [];
    assert ListsIn(mt, mt11, tips, none, none);
    var e := BothEnds(mt11);
    var k := if twice then 8 else 4;
    BothEndsAt(mt11);
    forall we1 | we1 in e
      ensures |Row(mt, we1, true, twice, mt11, tips, none, none)| == k
    {
      ReachFour(mt, we1, a, twice, true);
      ReachThree(mt, we1, b, twice, true);
      var one := mt11[..1];
      assert one == [a] && one[..0] == [];
      assert ReachAll(mt, we1, one, twice, true) == Reach(mt, we1, a, 4, twice, true);
      assert ReachAll(mt, we1, mt11, twice, true) == Reach(mt, we1, a, 4, twice, true) + Reach(mt, we1, b, 3, twice, true);
      assert TipSegments(tips) == [];
    }
    RowsLength(mt, e, true, twice, mt11, tips, none, none, k);
  }

  /** The innermost loop over a segment of 2 edges visits position 1. */
  lemma ReachTwo(mt: seq<Segment>, we1: Node, w2: nat, twice: bool, near: bool)
    requires w2 < |mt|
    ensures Reach(mt, we1, w2, 2, twice, near) == Hit(mt, we1, w2, 1, twice, near)
  {
    assert Reach(mt, we1, w2, 1, twice, near) == [];
  }

  /** The network three lone segments of 4 edges become when end 1 of
      segment 1 is fused to node 2 of segment 2 (fuse12(1, 1, 2, 2)):
      segment 1 (4 edges) keeps its free end 2, segment 2 keeps its first
      2 edges and its free end 1, segment 4 takes the other 2 edges with
      its free end 2, and segment 3 is still lone. */
  predicate AfterFuse12(mt: seq<Segment>)
  {
    |mt| > 4 && |mt[1].g| == 4 && |mt[2].g| == 2 && |mt[3].g| == 4 && |mt[4].g| == 2
  }

  /** The class vectors of that network. */
  const FusedLone: seq<nat> := [3]
  const FusedTips: seq<Node> := [(1, 2), (2, 1), (4, 2)]

  /** As populate is written, that network has 39 candidates: each lone
      end pairs with 2 interior nodes of its own segment, twice, and with
      the 5 Tip interior nodes; each Tip end with the 3 lone interior nodes
      and 4 Tip interior nodes. */
  lemma CountAfterFuse12(mt: seq<Segment>)
    requires AfterFuse12(mt)
    ensures |Candidates12(mt, FusedLone, FusedTips, [], [])| == 39
  {
    AfterFuse12Rows(mt, true);
  }

  /** With every pair once the same network has 35 candidates, the count
      the repository's tests expect. */
  lemma CountAfterFuse12Once(mt: seq<Segment>)
    requires AfterFuse12(mt)
    ensures |Candidates12Once(mt, FusedLone, FusedTips, [], [])| == 35
  {
    AfterFuse12Rows(mt, false);
  }

  /** The row lengths of that network: 9 or 7 for each lone end, 7 for
      each Tip end. */
  lemma AfterFuse12Rows(mt: seq<Segment>, twice: bool)
    requires AfterFuse12(mt)
    ensures |Rows(mt, BothEnds(FusedLone), true, twice, FusedLone, FusedTips, [], [])| == if twice then 18 else 14
    ensures |Rows(mt, FusedTips, false, false, FusedLone, FusedTips, [], [])| == 21
  {
    var none: seq<nat> := [];
    assert ListsIn(mt, FusedLone, FusedTips, none, none);
    var ts := TipSegments(FusedTips);
    assert ts == [1, 2, 4];
    var k := if twice then 9 else 7;
    forall we1: Node, near: bool | near ==> we1 in FusedTips
      ensures |ReachAll(mt, we1, ts, false, near)| == if near then 4 else 5
    {
      TipTargets(mt, we1, near);
    }
    BothEndsAt(FusedLone);
    forall we1 | we1 in BothEnds(FusedLone)
      ensures |Row(mt, we1, true, twice, FusedLone, FusedTips, none, none)| == k
    {
      ReachFour(mt, we1, 3, twice, true);
      assert ReachAll(mt, we1, FusedLone, twice, true) == Reach(mt, we1, 3, 4, twice, true);
    }
    RowsLength(mt, BothEnds(FusedLone), true, twice, FusedLone, FusedTips, none, none, k);
    forall we1 | we1 in FusedTips
      ensures |Row(mt, we1, false, false, FusedLone, FusedTips, none, none)| == 7
    {
      ReachFour(mt, we1, 3, false, false);
      assert ReachAll(mt, we1, FusedLone, false, false) == Reach(mt, we1, 3, 4, false, false);
    }
    RowsLength(mt, FusedTips, false, false, FusedLone, FusedTips, none, none, 7);
  }

  /** The Tip targets 1, 2, 4 of that network hold 3 + 1 + 1 interior
      nodes; the skip rule, checked for a Tip end, drops one of them. */
  lemma TipTargets(mt: seq<Segment>, we1: Node, near: bool)
    requires AfterFuse12(mt) && (near ==> we1 in FusedTips)
    ensures |ReachAll(mt, we1, [1, 2, 4], false, near)| == if near then 4 else 5
  {
    var ws: seq<nat> := [1, 2, 4];
    var w12, w1, w0 := ws[..2], ws[..2][..1], ws[..2][..1][..0];
    assert w12 == [1, 2] && w1 == [1] && w0 == [];
    assert ReachAll(mt, we1, w1, false, near) == Reach(mt, we1, 1, 4, false, near);
    assert ReachAll(mt, we1, w12, false, near) == ReachAll(mt, we1, w1, false, near) + Reach(mt, we1, 2, 2, false, near);
    assert ReachAll(mt, we1, ws, false, near) == ReachAll(mt, we1, w12, false, near) + Reach(mt, we1, 4, 2, false, near);
    ReachFour(mt, we1, 1, false, near);
    ReachTwo(mt, we1, 2, false, near);
    ReachTwo(mt, we1, 4, false, near);
  }

  /** Appending two free ends appends their two rows. */
  lemma RowsSnoc2(mt: seq<Segment>, ends: seq<Node>, x: Node, y: Node, lone: bool, twice: bool,
                  mt11: seq<nat>, mt13: seq<Node>, mt22: seq<nat>, mt33: seq<nat>)
    requires ListsIn(mt, mt11, mt13, mt22, mt33)
    ensures Rows(mt, ends + [x, y], lone, twice, mt11, mt13, mt22, mt33)
      == Rows(mt, ends, lone, twice, mt11, mt13, mt22, mt33) + Row(mt, x, lone, twice, mt11, mt13, mt22, mt33)
         + Row(mt, y, lone, twice, mt11, mt13, mt22, mt33)
  {
    var e := ends + [x, y];
    assert e[..|ends| + 1] == ends + [x];
    assert (ends + [x])[..|ends|] == ends;
  }

  /** Two appends in a row after a prefix append their concatenation. */
  lemma Append3<T>(x: seq<T>, p: seq<T>, q: seq<T>, r: seq<T>, xp: seq<T>, xq: seq<T>, xr: seq<T>)
    requires xp == x + p && xq == xp + q && xr == xq + r
    ensures xr == x + (p + q + r)
  {
  }

  /** Four appends in a row append their concatenation. */
  lemma Append4<T>(x: seq<T>, p: seq<T>, q: seq<T>, r: seq<T>, t: seq<T>, xp: seq<T>, xq: seq<T>, xr: seq<T>, xt: seq<T>)
    requires xp == x + p && xq == xp + q && xr == xq + r && xt == xr + t
    ensures xt == x + (p + q + r + t)
  {
  }

  /** NtwFusion12: the host network and the candidate container. */
  class Ntw12 {
    const host: Network
    const cnd: Candidates<Node>

    /** The container starts empty. */
    constructor (host: Network)
      ensures this.host == host && fresh(cnd) && cnd.Valid() && cnd.Size() == 0
    {
      this.host := host;
      cnd := new Candidates<Node>();
    }

    /** `populate`: the container is cleared and refilled with Candidates12
        of the host's class vectors. */
    method Populate()
      requires ListsIn(host.mt, host.mt11, host.mt13, host.mt22, host.mt33)
      modifies cnd
      ensures cnd.Valid() && cnd.Pairs() == Candidates12(host.mt, host.mt11, host.mt13, host.mt22, host.mt33)
    {
      var mt, mt11, mt13, mt22, mt33 := host.mt, host.mt11, host.mt13, host.mt22, host.mt33;
      cnd.Clear();
      assert cnd.Pairs() == [];
      AddLoneEndRows(mt, mt11, mt13, mt22, mt33);
      assert cnd.Pairs() == Rows(mt, BothEnds(mt11), true, true, mt11, mt13, mt22, mt33);
      AddTipEndRows(mt, mt11, mt13, mt22, mt33);
    }

    /** The first outer loop: both ends of each lone segment in turn. */
    method AddLoneEndRows(mt: seq<Segment>, mt11: seq<nat>, mt13: seq<Node>, mt22: seq<nat>, mt33: seq<nat>)
      requires ListsIn(mt, mt11, mt13, mt22, mt33) && cnd.Valid()
      modifies cnd
      ensures cnd.Valid() && cnd.Pairs() == old(cnd.Pairs()) + Rows(mt, BothEnds(mt11), true, true, mt11, mt13, mt22, mt33)
    {
      ghost var start := cnd.Pairs();
      var k := 0;
      while k < |mt11|
        invariant k <= |mt11| && cnd.Valid()
        invariant cnd.Pairs() == start + Rows(mt, BothEnds(mt11[..k]), true, true, mt11, mt13, mt22, mt33)
      {
        var w1 := mt11[k];
        ghost var before := cnd.Pairs();
        AddRow(mt, (w1, 1), true, mt11, mt13, mt22, mt33);
        ghost var mid := cnd.Pairs();
        AddRow(mt, (w1, 2), true, mt11, mt13, mt22, mt33);
        assert BothEnds(mt11[..k + 1]) == BothEnds(mt11[..k]) + [(w1, 1), (w1, 2)] by {
          BothEndsSnoc(mt11, 0, k);
          assert mt11[0..k] == mt11[..k] && mt11[0..k + 1] == mt11[..k + 1];
        }
        RowsSnoc2(mt, BothEnds(mt11[..k]), (w1, 1), (w1, 2), true, true, mt11, mt13, mt22, mt33);
        Append3(start, Rows(mt, BothEnds(mt11[..k]), true, true, mt11, mt13, mt22, mt33),
                Row(mt, (w1, 1), true, true, mt11, mt13, mt22, mt33), Row(mt, (w1, 2), true, true, mt11, mt13, mt22, mt33),
                before, mid, cnd.Pairs());
        k := k + 1;
      }
      assert mt11[..k] == mt11;
    }

    /** The second outer loop: the free end of each Tip segment in turn. */
    method AddTipEndRows(mt: seq<Segment>, mt11: seq<nat>, mt13: seq<Node>, mt22: seq<nat>, mt33: seq<nat>)
      requires ListsIn(mt, mt11, mt13, mt22, mt33) && cnd.Valid()
      modifies cnd
      ensures cnd.Valid() && cnd.Pairs() == old(cnd.Pairs()) + Rows(mt, mt13, false, false, mt11, mt13, mt22, mt33)
    {
      ghost var start := cnd.Pairs();
      var k := 0;
      while k < |mt13|
        invariant k <= |mt13| && cnd.Valid()
        invariant cnd.Pairs() == start + Rows(mt, mt13[..k], false, false, mt11, mt13, mt22, mt33)
      {
        AddRow(mt, mt13[k], false, mt11, mt13, mt22, mt33);
        assert mt13[..k + 1][..k] == mt13[..k];
        k := k + 1;
      }
      assert mt13[..k] == mt13;
    }

    /** The four target loops for one free end; a lone end's pairs with lone
      segments are added twice. */
    method AddRow(mt: seq<Segment>, we1: Node, lone: bool,
                  mt11: seq<nat>, mt13: seq<Node>, mt22: seq<nat>, mt33: seq<nat>)
      requires ListsIn(mt, mt11, mt13, mt22, mt33) && cnd.Valid()
      modifies cnd
      ensures cnd.Valid() && cnd.Pairs() == old(cnd.Pairs()) + Row(mt, we1, lone, lone, mt11, mt13, mt22, mt33)
    {
      ghost var start := cnd.Pairs();
      AddReachAll(mt, we1, mt11, lone, lone);
      ghost var a := cnd.Pairs();
      AddReachAll(mt, we1, TipSegments(mt13), false, !lone);
      ghost var b := cnd.Pairs();
      AddReachAll(mt, we1, mt33, false, false);
      ghost var c := cnd.Pairs();
      AddReachAll(mt, we1, mt22, false, false);
      Append4(start, ReachAll(mt, we1, mt11, lone, lone), ReachAll(mt, we1, TipSegments(mt13), false, !lone),
              ReachAll(mt, we1, mt33, false, false), ReachAll(mt, we1, mt22, false, false), a, b, c, cnd.Pairs());
    }

    /** One target loop: the interior nodes of each segment of ws. */
    method AddReachAll(mt: seq<Segment>, we1: Node, ws: seq<nat>, twice: bool, near: bool)
      requires InRange(mt, ws) && cnd.Valid()
      modifies cnd
      ensures cnd.Valid() && cnd.Pairs() == old(cnd.Pairs()) + ReachAll(mt, we1, ws, twice, near)
    {
      ghost var start := cnd.Pairs();
      var k := 0;
      while k < |ws|
        invariant k <= |ws| && cnd.Valid()
        invariant cnd.Pairs() == start + ReachAll(mt, we1, ws[..k], twice, near)
      {
        AddReach(mt, we1, ws[k], twice, near);
        assert ws[..k + 1][..k] == ws[..k];
        k := k + 1;
      }
      assert ws[..k] == ws;
    }

    /** The innermost loop over the interior positions of segment w2. */
    method AddReach(mt: seq<Segment>, we1: Node, w2: nat, twice: bool, near: bool)
      requires w2 < |mt| && cnd.Valid()
      modifies cnd
      ensures cnd.Valid() && cnd.Pairs() == old(cnd.Pairs()) + Reach(mt, we1, w2, |mt[w2].g|, twice, near)
    {
      ghost var start := cnd.Pairs();
      var i := 1;
      while i < |mt[w2].g|
        invariant i == 1 || i <= |mt[w2].g|
        invariant cnd.Valid() && cnd.Pairs() == start + Reach(mt, we1, w2, i, twice, near)
      {
        if !(near && TooNear(mt, we1, w2, i)) {
          cnd.Add(we1, (w2, i));
          if twice {
            cnd.Add(we1, (w2, i));
          }
        }
        i := i + 1;
      }
    }

    /** `set_prop`: the propensity is the number of candidate pairs. */
    method SetProp() returns (n: nat)
      requires ListsIn(host.mt, host.mt11, host.mt13, host.mt22, host.mt33)
      modifies cnd
      ensures cnd.Valid() && cnd.Pairs() == Candidates12(host.mt, host.mt11, host.mt13, host.mt22, host.mt33)
      ensures n == |Candidates12(host.mt, host.mt11, host.mt13, host.mt22, host.mt33)|
    {
      Populate();
      n := cnd.Size();
    }
  }
}
