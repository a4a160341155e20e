/** Model of include/reactions/ntw_fusion1u.h (class NtwFusion1L): the
  enumeration of the (free end, disconnected cycle) pairs that may fuse end
  to cycle (fuse1L); the propensity of the reaction is the count of pairs.
  The cycle is recorded by its segment index alone: fuse1L always opens it
  at its end 1. */
module NtwFusion1U {
  import opened Structure
  import opened FusionCandidates

  type CyclePair = (Node, nat)

  /** For each cycle of cs in turn, every free end of ends paired with it. */
  function CycleRows(ends: seq<Node>, cs: seq<nat>): seq<CyclePair>
  {
    if |cs| == 0 then [] else CycleRows(ends, cs[..|cs| - 1]) + Toward(ends, cs[|cs| - 1])
  }

  /** The candidate list `populate` leaves in the container: the free ends of
      the lone segments (both ends each) and of mt13, against each cycle of
      mt22. */
  function Candidates1L(mt11: seq<nat>, mt13: seq<Node>, mt22: seq<nat>): seq<CyclePair>
  {
    CycleRows(FreeEnds(mt11, mt13), mt22)
  }

  /** For cycles listed once each, a pair occurs as often as its end occurs
      in ends if its cycle is listed, and never otherwise. */
  lemma {:induction false} CycleRowsCount(ends: seq<Node>, cs: seq<nat>, p: CyclePair)
    requires Distinct(cs)
    ensures multiset(CycleRows(ends, cs))[p] == if p.1 in cs then multiset(ends)[p.0] else 0
  {
    if |cs| > 0 {
      var n := |cs| - 1;
      var front := cs[..n];
      assert Distinct(front);
      CycleRowsCount(ends, front, p);
      TowardCount(ends, cs[n], p);
      assert cs == front + [cs[n]];
      assert cs[n] !in front;
      assert multiset(CycleRows(ends, cs)) == multiset(CycleRows(ends, front)) + multiset(Toward(ends, cs[n]));
    }
  }

  lemma {:induction false} CycleRowsLength(ends: seq<Node>, cs: seq<nat>)
    ensures |CycleRows(ends, cs)| == |cs| * |ends|
  {
    if |cs| > 0 {
      CycleRowsLength(ends, cs[..|cs| - 1]);
      MulStep(|cs|, |ends|);
    }
  }

  /** `set_prop`: |mt22| (2 |mt11| + |mt13|) candidate pairs. */
  lemma CandidateCount(mt11: seq<nat>, mt13: seq<Node>, mt22: seq<nat>)
    ensures |Candidates1L(mt11, mt13, mt22)| == |mt22| * (2 * |mt11| + |mt13|)
  {
    CycleRowsLength(FreeEnds(mt11, mt13), mt22);
  }

  /** Two disconnected cycles and two lone segments give 8 candidate pairs. */
  lemma CountTwoCyclesTwoLone(mt11: seq<nat>, mt13: seq<Node>, mt22: seq<nat>)
    requires |mt22| == 2 && |mt11| == 2 && |mt13| == 0
    ensures |Candidates1L(mt11, mt13, mt22)| == 8
  {
    CandidateCount(mt11, mt13, mt22);
  }

  /** With the class lists separate and no cycle listed twice, each free end
      is paired with each cycle exactly once, and nothing else is a
      candidate. */
  lemma PairOnce(mt11: seq<nat>, mt13: seq<Node>, mt22: seq<nat>, p: CyclePair)
    requires Separate(mt11, mt13) && Distinct(mt22)
    ensures multiset(Candidates1L(mt11, mt13, mt22))[p]
      == if p.0 in FreeEnds(mt11, mt13) && p.1 in mt22 then 1 else 0
  {
    FreeEndsDistinct(mt11, mt13);
    CycleRowsCount(FreeEnds(mt11, mt13), mt22, p);
    DistinctCount(FreeEnds(mt11, mt13), p.0);
  }

  /** NtwFusion1L: the host network and the candidate container. */
  class Ntw1L {
    const host: Network
    const cnd: Candidates<nat>

    /** The container starts empty. */
    constructor (host: Network)
      ensures this.host == host && fresh(cnd) && cnd.Valid() && cnd.Size() == 0
    {
      this.host := host;
      cnd := new Candidates<nat>();
    }

    /** `populate`: the container is cleared and refilled with Candidates1L
        of the host's class vectors. */
    method Populate()
      modifies cnd
      ensures cnd.Valid() && cnd.Pairs() == Candidates1L(host.mt11, host.mt13, host.mt22)
    {
      var mt11, mt13, mt22 := host.mt11, host.mt13, host.mt22;
      cnd.Clear();
      assert cnd.Pairs() == [];
      var k := 0;
      while k < |mt22|
        invariant k <= |mt22| && cnd.Valid()
        invariant cnd.Pairs() == CycleRows(FreeEnds(mt11, mt13), mt22[..k])
      {
        AddCycleRow(mt11, mt13, mt22[k]);
        assert mt22[..k + 1][..k] == mt22[..k];
        k := k + 1;
      }
      assert mt22[..k] == mt22;
    }

    /** One pass of the outer loop: every free end with cycle w2. */
    method AddCycleRow(mt11: seq<nat>, mt13: seq<Node>, w2: nat)
      requires cnd.Valid()
      modifies cnd
      ensures cnd.Valid() && cnd.Pairs() == old(cnd.Pairs()) + Toward(FreeEnds(mt11, mt13), w2)
    {
      AddLoneEnds(mt11, w2);
      AddTips(mt13, w2);
    }

    /** Both ends of each lone segment with cycle w2. */
    method AddLoneEnds(mt11: seq<nat>, w2: nat)
      requires cnd.Valid()
      modifies cnd
      ensures cnd.Valid() && cnd.Pairs() == old(cnd.Pairs()) + Toward(BothEnds(mt11), w2)
    {
      ghost var start := cnd.Pairs();
      var i := 0;
      while i < |mt11|
        invariant i <= |mt11| && cnd.Valid()
        invariant cnd.Pairs() == start + Toward(BothEnds(mt11[..i]), w2)
      {
        cnd.Add((mt11[i], 1), w2);
        cnd.Add((mt11[i], 2), w2);
        BothEndsSnoc(mt11, 0, i);
        assert mt11[0..i] == mt11[..i] && mt11[0..i + 1] == mt11[..i + 1];
        i := i + 1;
      }
      assert mt11[..i] == mt11;
    }

    /** Each free end of mt13 with cycle w2. */
    method AddTips(mt13: seq<Node>, w2: nat)
      requires cnd.Valid()
      modifies cnd
      ensures cnd.Valid() && cnd.Pairs() == old(cnd.Pairs()) + Toward(mt13, w2)
    {
      ghost var start := cnd.Pairs();
      var k := 0;
      while k < |mt13|
        invariant k <= |mt13| && cnd.Valid()
        invariant cnd.Pairs() == start + Toward(mt13[..k], w2)
      {
        cnd.Add(mt13[k], w2);
        assert mt13[..k + 1] == mt13[..k] + [mt13[k]];
        k := k + 1;
      }
      assert mt13[..k] == mt13;
    }

    /** `set_prop`: the propensity is the number of candidate pairs. */
    method SetProp() returns (n: nat)
      modifies cnd
      ensures cnd.Valid() && cnd.Pairs() == Candidates1L(host.mt11, host.mt13, host.mt22)
      ensures n == |host.mt22| * (2 * |host.mt11| + |host.mt13|)
    {
      Populate();
      n := cnd.Size();
      CandidateCount(host.mt11, host.mt13, host.mt22);
    }
  }
}
