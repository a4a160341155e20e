/** Model of include/reactions/ntw_fusion11.h: the enumeration of the pairs
  of free ends that may fuse end to end (fuse11), on which the propensity of
  the reaction is the count of pairs.

  The candidate list is specified twice: `Candidates11` follows the loop
  nest of `populate`, and `Admitted(mt, AllPairs(FreeEnds(mt11, mt13)))` is
  the independent reference -- every pair of distinct free ends once, in
  list order, except the two ends of a lone segment too short to close into
  a loop.  `Candidates11IsAllPairs` shows they are the same list. */
module NtwFusion11 {
  import opened Segments
  import opened Structure
  import opened FusionCandidates

  type Pair = (Node, Node)

  // ---------------------------------------------------------------------
  // The loop nest of populate

  /** The pairs added for the i-th lone segment w: its own two ends when w is
      long enough to close, then each of its ends with both ends of every
      later lone segment and with every free end of mt13. */
  function Row(mt: seq<Segment>, mt11: seq<nat>, mt13: seq<Node>, i: nat): seq<Pair>
    requires InRange(mt, mt11) && i < |mt11|
  {
    LoneRow(mt, mt11[i], BothEnds(mt11[i + 1..]) + mt13)
  }

  /** The loop pair of lone segment w if it is long enough, then each end of
      w with each of the later free ends. */
  function LoneRow(mt: seq<Segment>, w: nat, later: seq<Node>): seq<Pair>
    requires w < |mt|
  {
    (if MinLoopLength <= |mt[w].g| then [((w, 1), (w, 2))] else [])
      + Fan((w, 1), later) + Fan((w, 2), later)
  }

  /** The rows of the lone segments from the i-th on. */
  function RowsFrom(mt: seq<Segment>, mt11: seq<nat>, mt13: seq<Node>, i: nat): seq<Pair>
    requires InRange(mt, mt11) && i <= |mt11|
    decreases |mt11| - i
  {
    if i == |mt11| then [] else Row(mt, mt11, mt13, i) + RowsFrom(mt, mt11, mt13, i + 1)
  }

  /** Each free end of mt13 from the i-th on, paired with the later ones. */
  function TipPairsFrom(mt13: seq<Node>, i: nat): seq<Pair>
    requires i <= |mt13|
    decreases |mt13| - i
  {
    if i == |mt13| then [] else Fan(mt13[i], mt13[i + 1..]) + TipPairsFrom(mt13, i + 1)
  }

  /** The candidate list `populate` leaves in the container. */
  function Candidates11(mt: seq<Segment>, mt11: seq<nat>, mt13: seq<Node>): seq<Pair>
    requires InRange(mt, mt11)
  {
    RowsFrom(mt, mt11, mt13, 0) + TipPairsFrom(mt13, 0)
  }

  // ---------------------------------------------------------------------
  // The reference: all pairs of free ends

  /** Every pair (s[i], s[j]) with i < j, ordered by i and then by j. */
  function AllPairs(s: seq<Node>): seq<Pair>
  {
    if |s| == 0 then [] else Fan(s[0], s[1..]) + AllPairs(s[1..])
  }

  /** Both parts of a pair in AllPairs(s) are in s. */
  lemma {:induction false} AllPairsMembers(s: seq<Node>, p: Pair)
    requires p in AllPairs(s)
    ensures p.0 in s && p.1 in s
  {
    if p !in Fan(s[0], s[1..]) {
      AllPairsMembers(s[1..], p);
    }
  }

  /** A pair may fuse unless both are ends of one segment that is shorter
      than the minimal loop length. */
  predicate Admissible(mt: seq<Segment>, p: Pair)
  {
    p.0.0 != p.1.0 || (p.0.0 < |mt| && MinLoopLength <= |mt[p.0.0].g|)
  }

  /** The admissible pairs of s, in order. */
  function Admitted(mt: seq<Segment>, s: seq<Pair>): seq<Pair>
  {
    if |s| == 0 then [] else (if Admissible(mt, s[0]) then [s[0]] else []) + Admitted(mt, s[1..])
  }

  lemma {:induction false} AdmittedAppend(mt: seq<Segment>, a: seq<Pair>, b: seq<Pair>)
    ensures Admitted(mt, a + b) == Admitted(mt, a) + Admitted(mt, b)
  {
    if |a| > 0 {
      assert (a + b)[1..] == a[1..] + b;
      AdmittedAppend(mt, a[1..], b);
    } else {
      assert a + b == b;
    }
  }

  /** Pairs of ends on different segments are all admitted. */
  /** No end of ys lies on segment w. */
  predicate Elsewhere(ys: seq<Node>, w: nat)
  {
    forall k :: 0 <= k < |ys| ==> ys[k].0 != w
  }

  lemma {:induction false} AdmittedFanOther(mt: seq<Segment>, x: Node, ys: seq<Node>)
    requires Elsewhere(ys, x.0)
    ensures Admitted(mt, Fan(x, ys)) == Fan(x, ys)
  {
    if |ys| > 0 {
      assert Fan(x, ys)[1..] == Fan(x, ys[1..]);
      AdmittedFanOther(mt, x, ys[1..]);
    }
  }

  /** An admissible pair is kept as often as it occurs, another never. */
  lemma {:induction false} AdmittedCount(mt: seq<Segment>, s: seq<Pair>, p: Pair)
    ensures multiset(Admitted(mt, s))[p] == if Admissible(mt, p) then multiset(s)[p] else 0
  {
    if |s| > 0 {
      assert s == [s[0]] + s[1..];
      AdmittedCount(mt, s[1..], p);
    }
  }

  /** In a list of distinct ends, AllPairs holds each pair of list positions
      i < j once, in list order, and never the other way round. */
  lemma {:induction false} AllPairsOnce(s: seq<Node>, i: nat, j: nat)
    requires Distinct(s) && i < j < |s|
    ensures multiset(AllPairs(s))[(s[i], s[j])] == 1
    ensures multiset(AllPairs(s))[(s[j], s[i])] == 0
    decreases |s|, 1
  {
    if i == 0 {
      AllPairsHead(s, j);
    } else {
      AllPairsLater(s, i, j);
    }
  }

  /** The case of AllPairsOnce where neither node is the head of s. */
  lemma {:induction false} AllPairsLater(s: seq<Node>, i: nat, j: nat)
    requires Distinct(s) && 0 < i < j < |s|
    ensures multiset(AllPairs(s))[(s[i], s[j])] == 1
    ensures multiset(AllPairs(s))[(s[j], s[i])] == 0
    decreases |s|, 0
  {
    var t, x, y := s[1..], s[i], s[j];
    DistinctTail(s);
    assert t[i - 1] == x && t[j - 1] == y;
    AllPairsOnce(t, i - 1, j - 1);
    var m := multiset(AllPairs(t));
    assert m[(x, y)] == 1 && m[(y, x)] == 0;
    AllPairsStep(s, x, y);
    AllPairsStep(s, y, x);
  }

  /** Dropping the head keeps a list distinct, and the head is not in the
      rest. */
  lemma DistinctTail(s: seq<Node>)
    requires Distinct(s) && |s| > 0
    ensures Distinct(s[1..]) && s[0] !in s[1..]
  {
  }

  /** A pair without the head of s in front occurs in AllPairs(s) as often
      as in AllPairs of the rest. */
  lemma AllPairsStep(s: seq<Node>, x: Node, y: Node)
    requires |s| > 0 && x != s[0]
    ensures multiset(AllPairs(s))[(x, y)] == multiset(AllPairs(s[1..]))[(x, y)]
  {
    var t := s[1..];
    assert AllPairs(s) == Fan(s[0], t) + AllPairs(t);
    FanCount(s[0], t, (x, y));
  }

  /** The pairs with the first node of s in front. */
  lemma AllPairsHead(s: seq<Node>, j: nat)
    requires Distinct(s) && 0 < j < |s|
    ensures multiset(AllPairs(s))[(s[0], s[j])] == 1
    ensures multiset(AllPairs(s))[(s[j], s[0])] == 0
  {
    var t := s[1..];
    var x, y := s[0], s[j];
    var fan, rest := Fan(x, t), AllPairs(t);
    assert AllPairs(s) == fan + rest;
    assert Distinct(t) && x !in t && t[j - 1] == y;
    FanCount(x, t, (x, y));
    FanCount(x, t, (y, x));
    DistinctCount(t, y);
    AllPairsMissing(t, x);
  }

  /** A node not in t is in no pair of AllPairs(t). */
  lemma AllPairsMissing(t: seq<Node>, x: Node)
    requires x !in t
    ensures forall y :: multiset(AllPairs(t))[(x, y)] == 0 && multiset(AllPairs(t))[(y, x)] == 0
  {
    forall y
      ensures multiset(AllPairs(t))[(x, y)] == 0 && multiset(AllPairs(t))[(y, x)] == 0
    {
      if (x, y) in AllPairs(t) {
        AllPairsMembers(t, (x, y));
      }
      if (y, x) in AllPairs(t) {
        AllPairsMembers(t, (y, x));
      }
    }
  }

  /** The pairs among the free ends of mt13 are all admitted, in the order
      of TipPairsFrom. */
  lemma {:induction false} TipPairsAdmitted(mt: seq<Segment>, mt13: seq<Node>, i: nat)
    requires Distinct(TipSegments(mt13)) && i <= |mt13|
    ensures Admitted(mt, AllPairs(mt13[i..])) == TipPairsFrom(mt13, i)
    decreases |mt13| - i
  {
    if i < |mt13| {
      var t := mt13[i..];
      assert t[1..] == mt13[i + 1..];
      assert AllPairs(t) == Fan(mt13[i], mt13[i + 1..]) + AllPairs(mt13[i + 1..]);
      AdmittedAppend(mt, Fan(mt13[i], mt13[i + 1..]), AllPairs(mt13[i + 1..]));
      var l := mt13[i + 1..];
      forall k | 0 <= k < |l|
        ensures l[k].0 != mt13[i].0
      {
        assert TipSegments(mt13)[i + 1 + k] != TipSegments(mt13)[i];
      }
      AdmittedFanOther(mt, mt13[i], mt13[i + 1..]);
      TipPairsAdmitted(mt, mt13, i + 1);
    }
  }

  /** The free ends from the i-th lone segment on, with all of mt13. */
  function EndsFrom(mt11: seq<nat>, mt13: seq<Node>, i: nat): seq<Node>
    requires i <= |mt11|
  {
    BothEnds(mt11[i..]) + mt13
  }

  /** None of the ends after the i-th lone segment lies on that segment. */
  lemma LaterEndsElsewhere(mt11: seq<nat>, mt13: seq<Node>, i: nat)
    requires Separate(mt11, mt13) && i < |mt11|
    ensures Elsewhere(EndsFrom(mt11, mt13, i + 1), mt11[i])
  {
    var l := EndsFrom(mt11, mt13, i + 1);
    var b := BothEnds(mt11[i + 1..]);
    BothEndsAt(mt11[i + 1..]);
    forall k | 0 <= k < |l|
      ensures l[k].0 != mt11[i]
    {
      if k < |b| {
        assert l[k].0 == mt11[i + 1 + k / 2];
      } else {
        assert l[k] == mt13[k - |b|];
      }
    }
  }

  /** The rows from the i-th lone segment on, and all mt13 pairs, are the
      admitted pairs of the free ends from that segment on. */
  lemma {:induction false} RowsAdmitted(mt: seq<Segment>, mt11: seq<nat>, mt13: seq<Node>, i: nat)
    requires InRange(mt, mt11) && Separate(mt11, mt13) && i <= |mt11|
    ensures Admitted(mt, AllPairs(EndsFrom(mt11, mt13, i)))
         == RowsFrom(mt, mt11, mt13, i) + TipPairsFrom(mt13, 0)
    decreases |mt11| - i
  {
    if i == |mt11| {
      assert EndsFrom(mt11, mt13, i) == mt13[0..];
      TipPairsAdmitted(mt, mt13, 0);
    } else {
      var w := mt11[i];
      var l := EndsFrom(mt11, mt13, i + 1);
      assert mt11[i..][1..] == mt11[i + 1..];
      assert EndsFrom(mt11, mt13, i) == [(w, 1), (w, 2)] + l;
      LaterEndsElsewhere(mt11, mt13, i);
      LoneRowAdmitted(mt, w, l);
      RowsAdmitted(mt, mt11, mt13, i + 1);
      Regroup(Admitted(mt, AllPairs(EndsFrom(mt11, mt13, i))), Row(mt, mt11, mt13, i),
        RowsFrom(mt, mt11, mt13, i + 1), TipPairsFrom(mt13, 0), RowsFrom(mt, mt11, mt13, i));
    }
  }

  /** The admitted pairs of the two ends of segment w followed by ends l
      elsewhere: the loop pair if admissible, each end of w with each of l,
      then the admitted pairs of l. */
  lemma LoneRowAdmitted(mt: seq<Segment>, w: nat, l: seq<Node>)
    requires w < |mt| && Elsewhere(l, w)
    ensures Admitted(mt, AllPairs([(w, 1), (w, 2)] + l)) == LoneRow(mt, w, l) + Admitted(mt, AllPairs(l))
  {
    var s := [(w, 1), (w, 2)] + l;
    assert s[1..] == [(w, 2)] + l && s[1..][1..] == l;
    assert Fan((w, 1), s[1..]) == [((w, 1), (w, 2))] + Fan((w, 1), l);
    assert AllPairs(s) == [((w, 1), (w, 2))] + Fan((w, 1), l) + Fan((w, 2), l) + AllPairs(l);
    AdmittedAppend(mt, [((w, 1), (w, 2))] + Fan((w, 1), l) + Fan((w, 2), l), AllPairs(l));
    AdmittedAppend(mt, [((w, 1), (w, 2))] + Fan((w, 1), l), Fan((w, 2), l));
    AdmittedAppend(mt, [((w, 1), (w, 2))], Fan((w, 1), l));
    AdmittedFanOther(mt, (w, 1), l);
    AdmittedFanOther(mt, (w, 2), l);
  }

  /** The loop nest enumerates exactly the admitted pairs of free ends, in
      the reference order. */
  lemma Candidates11IsAllPairs(mt: seq<Segment>, mt11: seq<nat>, mt13: seq<Node>)
    requires InRange(mt, mt11) && Separate(mt11, mt13)
    ensures Candidates11(mt, mt11, mt13) == Admitted(mt, AllPairs(FreeEnds(mt11, mt13)))
  {
    assert mt11[0..] == mt11;
    RowsAdmitted(mt, mt11, mt13, 0);
  }

  /** The admitted pairs of distinct ends hold each pair of positions i < j
      once if it is admissible, and never the other way round. */
  lemma AdmittedPairOnce(mt: seq<Segment>, f: seq<Node>, i: nat, j: nat)
    requires Distinct(f) && i < j < |f|
    ensures multiset(Admitted(mt, AllPairs(f)))[(f[i], f[j])]
      == if Admissible(mt, (f[i], f[j])) then 1 else 0
    ensures multiset(Admitted(mt, AllPairs(f)))[(f[j], f[i])] == 0
  {
    AllPairsOnce(f, i, j);
    AdmittedCount(mt, AllPairs(f), (f[i], f[j]));
    AdmittedCount(mt, AllPairs(f), (f[j], f[i]));
  }

  /** Each unordered pair of free ends on different segments is a candidate
      once, in the order the ends are listed. */
  lemma PairOnce(mt: seq<Segment>, mt11: seq<nat>, mt13: seq<Node>, i: nat, j: nat)
    requires InRange(mt, mt11) && Separate(mt11, mt13)
    requires i < j < |FreeEnds(mt11, mt13)|
    requires FreeEnds(mt11, mt13)[i].0 != FreeEnds(mt11, mt13)[j].0
    ensures var f := FreeEnds(mt11, mt13);
      multiset(Candidates11(mt, mt11, mt13))[(f[i], f[j])] == 1
      && multiset(Candidates11(mt, mt11, mt13))[(f[j], f[i])] == 0
  {
    var f := FreeEnds(mt11, mt13);
    Candidates11IsAllPairs(mt, mt11, mt13);
    FreeEndsDistinct(mt11, mt13);
    AdmittedPairOnce(mt, f, i, j);
  }

  /** A lone segment is paired with itself, end 1 to end 2, once if it is at
      least MinLoopLength edges long and never otherwise. */
  lemma LoopPair(mt: seq<Segment>, mt11: seq<nat>, mt13: seq<Node>, i: nat)
    requires InRange(mt, mt11) && Separate(mt11, mt13) && i < |mt11|
    ensures var w := mt11[i];
      multiset(Candidates11(mt, mt11, mt13))[((w, 1), (w, 2))]
        == if MinLoopLength <= |mt[w].g| then 1 else 0
  {
    var f, w := FreeEnds(mt11, mt13), mt11[i];
    Candidates11IsAllPairs(mt, mt11, mt13);
    FreeEndsDistinct(mt11, mt13);
    LoneEndsAt(mt11, mt13, i);
    AdmittedPairOnce(mt, f, 2 * i, 2 * i + 1);
  }

  /** Nothing but pairs of free ends is ever a candidate. */
  lemma OnlyFreeEnds(mt: seq<Segment>, mt11: seq<nat>, mt13: seq<Node>, p: Pair)
    requires InRange(mt, mt11) && Separate(mt11, mt13)
    requires p in Candidates11(mt, mt11, mt13)
    ensures p.0 in FreeEnds(mt11, mt13) && p.1 in FreeEnds(mt11, mt13) && Admissible(mt, p)
  {
    var f := FreeEnds(mt11, mt13);
    Candidates11IsAllPairs(mt, mt11, mt13);
    AdmittedCount(mt, AllPairs(f), p);
    assert multiset(Admitted(mt, AllPairs(f)))[p] > 0;
    AllPairsMembers(f, p);
  }

  // ---------------------------------------------------------------------
  // The count

  /** The lone segments of ws long enough to close into a loop. */
  function LongCount(mt: seq<Segment>, ws: seq<nat>): (r: nat)
    requires InRange(mt, ws)
    ensures r <= |ws|
  {
    if |ws| == 0 then 0
    else (if MinLoopLength <= |mt[ws[0]].g| then 1 else 0) + LongCount(mt, ws[1..])
  }

  /** m(m-1): twice the number of unordered pairs among m items. */
  function Tri(m: nat): (r: nat)
    ensures r == m * (m - 1)
  {
    if m == 0 then 0 else Tri(m - 1) + 2 * (m - 1)
  }

  lemma {:induction false} TipPairsCount(mt13: seq<Node>, i: nat)
    requires i <= |mt13|
    ensures 2 * |TipPairsFrom(mt13, i)| == Tri(|mt13| - i)
    decreases |mt13| - i
  {
    if i < |mt13| {
      TipPairsCount(mt13, i + 1);
    }
  }

  lemma {:induction false} RowsCount(mt: seq<Segment>, mt11: seq<nat>, mt13: seq<Node>, i: nat)
    requires InRange(mt, mt11) && i <= |mt11|
    ensures var m, b := |mt11| - i, |mt13|;
      |RowsFrom(mt, mt11, mt13, i)| == LongCount(mt, mt11[i..]) + 2 * Tri(m) + 2 * (m * b)
    decreases |mt11| - i
  {
    if i < |mt11| {
      RowsCount(mt, mt11, mt13, i + 1);
      assert mt11[i..][1..] == mt11[i + 1..];
      var m, b := |mt11| - i, |mt13|;
      assert |Row(mt, mt11, mt13, i)| == (if MinLoopLength <= |mt[mt11[i]].g| then 1 else 0)
        + 2 * (2 * (m - 1) + b);
      MulStep(m, b);
    }
  }

  /** `set_prop`: with n lone segments, of which `long` can close, and t free
      ends of 1-3 segments, there are long + 2n(n-1) + 2nt + t(t-1)/2
      candidate pairs. */
  lemma CandidateCount(mt: seq<Segment>, mt11: seq<nat>, mt13: seq<Node>)
    requires InRange(mt, mt11)
    ensures var n, t := |mt11|, |mt13|;
      2 * |Candidates11(mt, mt11, mt13)|
        == 2 * LongCount(mt, mt11) + 4 * (n * (n - 1)) + 4 * (n * t) + t * (t - 1)
  {
    RowsCount(mt, mt11, mt13, 0);
    TipPairsCount(mt13, 0);
    assert mt11[0..] == mt11;
  }

  /** Two lone segments that can both close and three free ends of 1-3
      segments give 21 candidate pairs (7 free ends, 7*6/2 pairs). */
  lemma CountTwoLoneThreeTips(mt: seq<Segment>, mt11: seq<nat>, mt13: seq<Node>)
    requires InRange(mt, mt11) && |mt11| == 2 && |mt13| == 3
    requires forall i :: 0 <= i < 2 ==> MinLoopLength <= |mt[mt11[i]].g|
    ensures |Candidates11(mt, mt11, mt13)| == 21
  {
    CandidateCount(mt, mt11, mt13);
    assert mt11[1..][1..] == [];
  }

  // ---------------------------------------------------------------------
  // The reaction object

  /** NtwFusion11: the host network and the candidate container. */
  class Ntw11 {
    const host: Network
    const cnd: Candidates<Node>

    /** The container starts empty. */
    constructor (host: Network)
      ensures this.host == host && fresh(cnd) && cnd.Valid() && cnd.Size() == 0
    {
      this.host := host;
      cnd := new Candidates<Node>();
    }

    /** `populate`: the container is cleared and refilled with Candidates11
        of the host's class vectors. */
    method Populate()
      requires InRange(host.mt, host.mt11)
      modifies cnd
      ensures cnd.Valid() && cnd.Pairs() == Candidates11(host.mt, host.mt11, host.mt13)
    {
      var mt, mt11, mt13 := host.mt, host.mt11, host.mt13;
      cnd.Clear();
      assert cnd.Pairs() == [];
      AddRows(mt, mt11, mt13);
      assert cnd.Pairs() == RowsFrom(mt, mt11, mt13, 0);
      AddTipPairs(mt13);
    }

    /** The outer loop over mt11: every row in turn. */
    method AddRows(mt: seq<Segment>, mt11: seq<nat>, mt13: seq<Node>)
      requires InRange(mt, mt11) && cnd.Valid()
      modifies cnd
      ensures cnd.Valid() && cnd.Pairs() == old(cnd.Pairs()) + RowsFrom(mt, mt11, mt13, 0)
    {
      ghost var start := cnd.Pairs();
      var i1 := 0;
      while i1 < |mt11|
        invariant i1 <= |mt11| && cnd.Valid()
        invariant cnd.Pairs() + RowsFrom(mt, mt11, mt13, i1) == start + RowsFrom(mt, mt11, mt13, 0)
      {
        ghost var before := cnd.Pairs();
        AddRow(mt, mt11, mt13, i1);
        Regroup(start + RowsFrom(mt, mt11, mt13, 0), before, Row(mt, mt11, mt13, i1),
          RowsFrom(mt, mt11, mt13, i1 + 1), cnd.Pairs());
        i1 := i1 + 1;
      }
    }

    /** The loop over mt13: each free end with the later ones. */
    method AddTipPairs(mt13: seq<Node>)
      requires cnd.Valid()
      modifies cnd
      ensures cnd.Valid() && cnd.Pairs() == old(cnd.Pairs()) + TipPairsFrom(mt13, 0)
    {
      ghost var start := cnd.Pairs();
      var i1 := 0;
      while i1 < |mt13|
        invariant i1 <= |mt13| && cnd.Valid()
        invariant cnd.Pairs() + TipPairsFrom(mt13, i1) == start + TipPairsFrom(mt13, 0)
      {
        ghost var before := cnd.Pairs();
        AddToLaterTips(mt13, i1);
        Regroup(start + TipPairsFrom(mt13, 0), before, Fan(mt13[i1], mt13[i1 + 1..]),
          TipPairsFrom(mt13, i1 + 1), cnd.Pairs());
        i1 := i1 + 1;
      }
    }

    /** The i1-th free end of mt13 with each later one. */
    method AddToLaterTips(mt13: seq<Node>, i1: nat)
      requires i1 < |mt13| && cnd.Valid()
      modifies cnd
      ensures cnd.Valid() && cnd.Pairs() == old(cnd.Pairs()) + Fan(mt13[i1], mt13[i1 + 1..])
    {
      ghost var before := cnd.Pairs();
      var i2 := i1 + 1;
      while i2 < |mt13|
        invariant i1 < i2 <= |mt13| && cnd.Valid()
        invariant cnd.Pairs() == before + Fan(mt13[i1], mt13[i1 + 1..i2])
      {
        cnd.Add(mt13[i1], mt13[i2]);
        assert mt13[i1 + 1..i2 + 1] == mt13[i1 + 1..i2] + [mt13[i2]];
        i2 := i2 + 1;
      }
      assert mt13[i1 + 1..i2] == mt13[i1 + 1..];
    }

    /** The pairs of one pass of the outer loop over mt11. */
    method AddRow(mt: seq<Segment>, mt11: seq<nat>, mt13: seq<Node>, i1: nat)
      requires InRange(mt, mt11) && i1 < |mt11| && cnd.Valid()
      modifies cnd
      ensures cnd.Valid() && cnd.Pairs() == old(cnd.Pairs()) + Row(mt, mt11, mt13, i1)
    {
      var w1 := mt11[i1];
      if |mt[w1].g| >= MinLoopLength {
        cnd.Add((w1, 1), (w1, 2));
      }
      ghost var loop := cnd.Pairs();
      AddEndRow(mt11, mt13, i1, (w1, 1));
      ghost var first := cnd.Pairs();
      AddEndRow(mt11, mt13, i1, (w1, 2));
      assert first == loop + Fan((w1, 1), BothEnds(mt11[i1 + 1..]) + mt13);
    }

    /** The pairs of end x of the i1-th lone segment with the later ones and
        with mt13. */
    method AddEndRow(mt11: seq<nat>, mt13: seq<Node>, i1: nat, x: Node)
      requires i1 < |mt11| && cnd.Valid()
      modifies cnd
      ensures cnd.Valid() && cnd.Pairs() == old(cnd.Pairs()) + Fan(x, BothEnds(mt11[i1 + 1..]) + mt13)
    {
      AddToLaterLone(mt11, i1, x);
      AddToTips(mt13, x);
      FanAppend(x, BothEnds(mt11[i1 + 1..]), mt13);
    }

    /** End x with both ends of each lone segment after the i1-th. */
    method AddToLaterLone(mt11: seq<nat>, i1: nat, x: Node)
      requires i1 < |mt11| && cnd.Valid()
      modifies cnd
      ensures cnd.Valid() && cnd.Pairs() == old(cnd.Pairs()) + Fan(x, BothEnds(mt11[i1 + 1..]))
    {
      ghost var start := cnd.Pairs();
      var i2 := i1 + 1;
      while i2 < |mt11|
        invariant i1 < i2 <= |mt11| && cnd.Valid()
        invariant cnd.Pairs() == start + Fan(x, BothEnds(mt11[i1 + 1..i2]))
      {
        cnd.Add(x, (mt11[i2], 1));
        cnd.Add(x, (mt11[i2], 2));
        BothEndsSnoc(mt11, i1 + 1, i2);
        FanAppend(x, BothEnds(mt11[i1 + 1..i2]), [(mt11[i2], 1), (mt11[i2], 2)]);
        i2 := i2 + 1;
      }
      assert mt11[i1 + 1..i2] == mt11[i1 + 1..];
    }

    /** End x with each free end of mt13. */
    method AddToTips(mt13: seq<Node>, x: Node)
      requires cnd.Valid()
      modifies cnd
      ensures cnd.Valid() && cnd.Pairs() == old(cnd.Pairs()) + Fan(x, mt13)
    {
      ghost var start := cnd.Pairs();
      var k := 0;
      while k < |mt13|
        invariant k <= |mt13| && cnd.Valid()
        invariant cnd.Pairs() == start + Fan(x, mt13[..k])
      {
        cnd.Add(x, mt13[k]);
        assert mt13[..k + 1] == mt13[..k] + [mt13[k]];
        k := k + 1;
      }
      assert mt13[..k] == mt13;
    }

    /** `set_prop`: the propensity is the number of candidate pairs. */
    method SetProp() returns (n: nat)
      requires InRange(host.mt, host.mt11)
      modifies cnd
      ensures cnd.Valid() && cnd.Pairs() == Candidates11(host.mt, host.mt11, host.mt13)
      ensures n == |Candidates11(host.mt, host.mt11, host.mt13)|
    {
      Populate();
      n := cnd.Size();
    }
  }
}
