/** Model of include/fusion_candidates.h: the containers in which the fusion
  reactions collect the node pairs that may fuse, and the lists the
  reactions build them from.

  FusionCandidatesXX and FusionCandidatesXU differ only in the type of their
  second column (a (segment, end-or-position) pair, or the index of a cycle
  segment), so both are the one generic class `Candidates`: XX is
  `Candidates<Node>` and XU is `Candidates<nat>`. */
module FusionCandidates {
  import opened Segments
  import opened Structure

  /** A segment index together with an end (1 or 2) or an edge position. */
  type Node = (nat, nat)

  /** The candidate container: column u holds the first participant, column v
      the second, row by row. */
  class Candidates<V> {
    var u: seq<Node>
    var v: seq<V>

    /** The two columns always have one entry per candidate pair. */
    ghost predicate Valid()
      reads this
    {
      |u| == |v|
    }

    /** A default-constructed container is empty. */
    constructor ()
      ensures Valid() && u == [] && v == []
    {
      u, v := [], [];
    }

    /** `clear`: both columns become empty. */
    method Clear()
      modifies this
      ensures Valid() && u == [] && v == []
    {
      u, v := [], [];
    }

    /** `add(uc, vc)`: the pair is appended to both columns together. */
    method Add(uc: Node, vc: V)
      requires Valid()
      modifies this
      ensures Valid()
      ensures u == old(u) + [uc] && v == old(v) + [vc]
      ensures Pairs() == old(Pairs()) + [(uc, vc)]
    {
      u, v := u + [uc], v + [vc];
    }

    /** `size`: the number of candidate pairs, the length of either column. */
    function Size(): (r: nat)
      reads this
      requires Valid()
      ensures r == |u| && r == |v|
    {
      |u|
    }

    /** The candidate pairs, row by row. */
    ghost function Pairs(): (r: seq<(Node, V)>)
      reads this
      requires Valid()
      ensures |r| == Size()
      ensures forall k :: 0 <= k < |r| ==> r[k] == (u[k], v[k])
    {
      var us, vs := u, v;
      seq(|us|, k requires 0 <= k < |us| => (us[k], vs[k]))
    }
  }

  // ---------------------------------------------------------------------
  // Lists of candidate pairs

  /** x paired with each element of ys in turn (the rows one inner loop of a
      populate method adds for a fixed first participant). */
  function Fan<T>(x: Node, ys: seq<T>): (r: seq<(Node, T)>)
    ensures |r| == |ys|
    ensures forall k :: 0 <= k < |r| ==> r[k] == (x, ys[k])
  {
    seq(|ys|, k requires 0 <= k < |ys| => (x, ys[k]))
  }

  /** Each element of xs paired with the same second participant y. */
  function Toward<T>(xs: seq<Node>, y: T): (r: seq<(Node, T)>)
    ensures |r| == |xs|
    ensures forall k :: 0 <= k < |r| ==> r[k] == (xs[k], y)
  {
    seq(|xs|, k requires 0 <= k < |xs| => (xs[k], y))
  }

  /** Both ends of each segment of ws in order: (ws[0], 1), (ws[0], 2),
      (ws[1], 1), ... -- the free ends of the disconnected linear segments. */
  function BothEnds(ws: seq<nat>): (r: seq<Node>)
    ensures |r| == 2 * |ws|
  {
    if |ws| == 0 then [] else [(ws[0], 1), (ws[0], 2)] + BothEnds(ws[1..])
  }

  /** Position k of BothEnds(ws) is end k%2+1 of segment ws[k/2]. */
  lemma {:induction false} BothEndsAt(ws: seq<nat>)
    ensures forall k :: 0 <= k < |BothEnds(ws)| ==> BothEnds(ws)[k] == (ws[k / 2], k % 2 + 1)
  {
    if |ws| > 0 {
      BothEndsAt(ws[1..]);
      var r := BothEnds(ws);
      forall k | 2 <= k < |r|
        ensures r[k] == (ws[k / 2], k % 2 + 1)
      {
        assert r[k] == BothEnds(ws[1..])[k - 2];
        assert (k - 2) / 2 == k / 2 - 1 && (k - 2) % 2 == k % 2;
      }
    }
  }

  /** All free ends of the network: both ends of the segments of mt11, then
      the free ends listed in mt13. */
  function FreeEnds(mt11: seq<nat>, mt13: seq<Node>): (r: seq<Node>)
    ensures |r| == 2 * |mt11| + |mt13|
  {
    BothEnds(mt11) + mt13
  }

  /** The two ends of the i-th lone segment sit at positions 2i and 2i+1. */
  lemma LoneEndsAt(mt11: seq<nat>, mt13: seq<Node>, i: nat)
    requires i < |mt11|
    ensures FreeEnds(mt11, mt13)[2 * i] == (mt11[i], 1)
    ensures FreeEnds(mt11, mt13)[2 * i + 1] == (mt11[i], 2)
  {
    BothEndsAt(mt11);
    assert BothEnds(mt11)[2 * i] == (mt11[i], 1);
    assert BothEnds(mt11)[2 * i + 1] == (mt11[i], 2);
  }

  /** The segments of mt13, in the same order. */
  function TipSegments(mt13: seq<Node>): (r: seq<nat>)
    ensures |r| == |mt13|
    ensures forall k :: 0 <= k < |r| ==> r[k] == mt13[k].0
  {
    seq(|mt13|, k requires 0 <= k < |mt13| => mt13[k].0)
  }

  /** No repetitions. */
  predicate Distinct<T(==)>(s: seq<T>)
  {
    forall a, b :: 0 <= a < b < |s| ==> s[a] != s[b]
  }

  /** The class lists as populate_cluster_vectors leaves them: no segment
      twice in mt11, no segment twice in mt13, and none in both. */
  predicate Separate(mt11: seq<nat>, mt13: seq<Node>)
  {
    Distinct(mt11) && Distinct(TipSegments(mt13))
    && forall i, j :: 0 <= i < |mt11| && 0 <= j < |mt13| ==> mt11[i] != mt13[j].0
  }

  lemma FanAppend<T>(x: Node, a: seq<T>, b: seq<T>)
    ensures Fan(x, a + b) == Fan(x, a) + Fan(x, b)
  {
  }

  /** Extending a slice of ws by one segment adds its two ends. */
  lemma BothEndsSnoc(ws: seq<nat>, a: nat, b: nat)
    requires a <= b < |ws|
    ensures BothEnds(ws[a..b + 1]) == BothEnds(ws[a..b]) + [(ws[b], 1), (ws[b], 2)]
  {
    var l, r := BothEnds(ws[a..b]), BothEnds(ws[a..b + 1]);
    BothEndsAt(ws[a..b]);
    BothEndsAt(ws[a..b + 1]);
    forall k | 0 <= k < |r|
      ensures r[k] == (l + [(ws[b], 1), (ws[b], 2)])[k]
    {
      if k < |l| {
        assert ws[a..b + 1][k / 2] == ws[a..b][k / 2];
      }
    }
  }

  /** Regrouping a concatenation (a step Z3 finds costly inside big proofs). */
  lemma Regroup<T>(x: seq<T>, a: seq<T>, b: seq<T>, c: seq<T>, ab: seq<T>)
    requires x == a + (b + c) && ab == a + b
    ensures x == ab + c
  {
  }

  /** Occurrences in a concatenation add up. */
  lemma CountSplit<T>(a: seq<T>, b: seq<T>, c: seq<T>, p: T)
    requires a == b + c
    ensures multiset(a)[p] == multiset(b)[p] + multiset(c)[p]
  {
  }

  lemma MulStep(m: nat, b: nat)
    requires m > 0
    ensures m * b == (m - 1) * b + b
  {
  }

  /** A pair occurs in a Fan as often as its second part occurs in ys, and
      only with x in front. */
  lemma {:induction false} FanCount<T>(x: Node, ys: seq<T>, p: (Node, T))
    ensures multiset(Fan(x, ys))[p] == if p.0 == x then multiset(ys)[p.1] else 0
  {
    if |ys| > 0 {
      var n := |ys| - 1;
      assert Fan(x, ys) == Fan(x, ys[..n]) + [(x, ys[n])];
      assert ys == ys[..n] + [ys[n]];
      FanCount(x, ys[..n], p);
    }
  }

  /** A pair occurs in Toward(xs, y) as often as its first part occurs in
      xs, and only with y behind. */
  lemma {:induction false} TowardCount<T>(xs: seq<Node>, y: T, p: (Node, T))
    ensures multiset(Toward(xs, y))[p] == if p.1 == y then multiset(xs)[p.0] else 0
  {
    if |xs| > 0 {
      var n := |xs| - 1;
      assert Toward(xs, y) == Toward(xs[..n], y) + [(xs[n], y)];
      assert xs == xs[..n] + [xs[n]];
      TowardCount(xs[..n], y, p);
    }
  }

  /** In a list without repetitions each element occurs once. */
  lemma {:induction false} DistinctCount<T>(s: seq<T>, x: T)
    requires Distinct(s)
    ensures multiset(s)[x] == if x in s then 1 else 0
  {
    if |s| > 0 {
      var n := |s| - 1;
      assert s == s[..n] + [s[n]];
      assert Distinct(s[..n]);
      DistinctCount(s[..n], x);
      assert s[n] !in s[..n];
    }
  }

  /** Both ends of distinct segments are distinct ends. */
  lemma BothEndsDistinct(ws: seq<nat>)
    requires Distinct(ws)
    ensures Distinct(BothEnds(ws))
  {
    var r := BothEnds(ws);
    BothEndsAt(ws);
    forall a, b | 0 <= a < b < |r|
      ensures r[a] != r[b]
    {
      if a / 2 == b / 2 {
        assert a % 2 != b % 2;
      } else {
        assert ws[a / 2] != ws[b / 2];
      }
    }
  }

  /** With the class lists separate, every free end is listed once. */
  lemma FreeEndsDistinct(mt11: seq<nat>, mt13: seq<Node>)
    requires Separate(mt11, mt13)
    ensures Distinct(FreeEnds(mt11, mt13))
  {
    BothEndsDistinct(mt11);
    BothEndsAt(mt11);
    var b, f := BothEnds(mt11), FreeEnds(mt11, mt13);
    forall i, j | 0 <= i < j < |f|
      ensures f[i] != f[j]
    {
      if j < |b| {
      } else if i < |b| {
        assert f[i].0 == mt11[i / 2] && f[j] == mt13[j - |b|];
      } else {
        assert TipSegments(mt13)[i - |b|] != TipSegments(mt13)[j - |b|];
      }
    }
  }

  /** The class vectors populate_cluster_vectors builds are separate, and
      name real segments. */
  lemma ClassListsSeparate(mt: seq<Segment>, n: nat)
    requires n < |mt|
    ensures Separate(KindList(mt, n, Lone), TipList(mt, n))
    ensures InRange(mt, KindList(mt, n, Lone)) && InRange(mt, TipSegments(TipList(mt, n)))
    ensures InRange(mt, KindList(mt, n, Loop)) && InRange(mt, KindList(mt, n, Inner))
  {
    KindListExact(mt, n, Lone);
    KindListExact(mt, n, Loop);
    KindListExact(mt, n, Inner);
    TipListExact(mt, n);
    var l, t := KindList(mt, n, Lone), TipList(mt, n);
    forall i, j | 0 <= i < |l| && 0 <= j < |t|
      ensures l[i] != t[j].0
    {
      assert l[i] in l;
    }
    forall i | 0 <= i < |l|
      ensures l[i] < |mt|
    {
      assert l[i] in l;
    }
    forall i | 0 <= i < |KindList(mt, n, Loop)|
      ensures KindList(mt, n, Loop)[i] < |mt|
    {
      assert KindList(mt, n, Loop)[i] in KindList(mt, n, Loop);
    }
    forall i | 0 <= i < |KindList(mt, n, Inner)|
      ensures KindList(mt, n, Inner)[i] < |mt|
    {
      assert KindList(mt, n, Inner)[i] in KindList(mt, n, Inner);
    }
  }
}
