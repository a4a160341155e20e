/*
  Model of include/ability_for_fission.h: the search that tells whether
  cutting a segment end splits its cluster (dfs, update_cl_fiss), and the
  fission of a segment inside (fiss2) or at a degree-3 end (fiss3), with
  the dispatch between them (fiss).

  As in CoreTransformer, the network is the value State(mt, mtnum, clnum);
  the visit marks `vis` of the search (a field of the network in the
  source) are passed in and handed back.
*/
module Fission {
  import opened Edges
  import opened Segments
  import opened Structure
  import opened CoreTransformer

  // ---------------------------------------------------------------------
  // The neighbour graph the search walks

  /** Every live neighbour slot of every live segment names an end of a
      live segment: the tables the search reads are closed. */
  predicate Linked(mt: seq<Segment>, n: nat)
  {
    n < |mt| &&
    forall k, e, i :: 1 <= k <= n && 1 <= e <= 2 && 1 <= i <= mt[k].nn[e] ==>
      1 <= mt[k].neig[e][i] <= n && 1 <= mt[k].neen[e][i] <= 2
  }

  /** From end a the search crosses to the far end b of a neighbour
      recorded at a. */
  ghost predicate Step(mt: seq<Segment>, a: (nat, nat), b: (nat, nat))
  {
    a.0 < |mt| && (a.1 == 1 || a.1 == 2) &&
    exists i :: 1 <= i <= mt[a.0].nn[a.1] && mt[a.0].neig[a.1][i] == b.0 &&
      (mt[a.0].neen[a.1][i] == 1 || mt[a.0].neen[a.1][i] == 2) && Opposite(mt[a.0].neen[a.1][i]) == b.1
  }

  /** End a records the segment end b among its neighbours. */
  ghost predicate Records(mt: seq<Segment>, a: (nat, nat), b: (nat, nat))
  {
    a.0 < |mt| && (a.1 == 1 || a.1 == 2) &&
    exists i :: 1 <= i <= mt[a.0].nn[a.1] && Entry(mt[a.0], a.1, i) == b
  }

  /** p is a walk over ends of live segments, each step crossing a
      recorded neighbour, that never enters segment `avoid` after its
      start. */
  ghost predicate Walk(mt: seq<Segment>, n: nat, p: seq<(nat, nat)>, avoid: nat)
  {
    |p| >= 1 &&
    (forall k :: 0 <= k < |p| ==> 1 <= p[k].0 <= n && (p[k].1 == 1 || p[k].1 == 2)) &&
    (forall k :: 1 <= k < |p| ==> p[k].0 != avoid && Step(mt, p[k - 1], p[k]))
  }

  /** Segment v is reached from end a by a walk avoiding `avoid`. */
  ghost predicate Reaches(mt: seq<Segment>, n: nat, a: (nat, nat), v: nat, avoid: nat)
  {
    exists p: seq<(nat, nat)> :: Walk(mt, n, p, avoid) && p[0] == a && p[|p| - 1].0 == v
  }

  /** Some walk from end a avoiding `avoid` ends at an end recording b. */
  ghost predicate Leads(mt: seq<Segment>, n: nat, a: (nat, nat), b: (nat, nat), avoid: nat)
  {
    exists p: seq<(nat, nat)> :: Walk(mt, n, p, avoid) && p[0] == a && Records(mt, p[|p| - 1], b)
  }

  // ---------------------------------------------------------------------
  // Visit marks

  /** Number of unmarked entries among vis[1..k]. */
  function Unvisited(vis: seq<nat>, k: nat): (r: nat)
    requires k < |vis|
    ensures r <= k
  {
    if k == 0 then 0 else Unvisited(vis, k - 1) + (if vis[k] == 0 then 1 else 0)
  }

  /** vis' keeps every entry of vis, except that unmarked segments among
      1..n other than `avoid` may have become marked. */
  predicate Extends(vis: seq<nat>, vis': seq<nat>, n: nat, avoid: nat)
  {
    |vis'| == |vis| &&
    forall j :: 0 <= j < |vis| ==>
      vis'[j] == vis[j] || (vis[j] == 0 && vis'[j] == 1 && 1 <= j <= n && j != avoid)
  }

  lemma {:induction false} UnvisitedMark(vis: seq<nat>, k: nat, j: nat)
    requires k < |vis| && 1 <= j < |vis| && vis[j] == 0
    ensures Unvisited(vis[j := 1], k) + (if j <= k then 1 else 0) == Unvisited(vis, k)
  {
    if k > 0 {
      UnvisitedMark(vis, k - 1, j);
    }
  }

  lemma {:induction false} UnvisitedExtends(vis: seq<nat>, vis': seq<nat>, n: nat, avoid: nat, k: nat)
    requires Extends(vis, vis', n, avoid) && k < |vis|
    ensures Unvisited(vis', k) <= Unvisited(vis, k)
  {
    if k > 0 {
      UnvisitedExtends(vis, vis', n, avoid, k - 1);
    }
  }

  // ---------------------------------------------------------------------
  // dfs

  /** `dfs(w1, e1, w2, e2)` from slot i of end e1 of w1 on: whether end
      (w2, e2) is found, and the marks left.  A neighbour other than w2
      that is not yet marked is marked and searched from its far end. */
  function Search(mt: seq<Segment>, n: nat, vis: seq<nat>, w1: nat, e1: nat, w2: nat, e2: nat, i: nat): (r: (bool, seq<nat>))
    requires Linked(mt, n) && n < |vis| && 1 <= w1 <= n && (e1 == 1 || e1 == 2) && 1 <= i
    ensures Extends(vis, r.1, n, w2) && Unvisited(r.1, n) <= Unvisited(vis, n)
    decreases Unvisited(vis, n), mt[w1].nn[e1] + 1 - i
  {
    if i > mt[w1].nn[e1] then (false, vis)
    else
      var cn, ce := mt[w1].neig[e1][i], mt[w1].neen[e1][i];
      if cn == w2 then
        if ce == e2 then (true, vis) else Search(mt, n, vis, w1, e1, w2, e2, i + 1)
      else if vis[cn] != 0 then Search(mt, n, vis, w1, e1, w2, e2, i + 1)
      else
        var v := vis[cn := 1];
        UnvisitedMark(vis, n, cn);
        var inner := Search(mt, n, v, cn, Opposite(ce), w2, e2, 1);
        if inner.0 then inner
        else
          var r := Search(mt, n, inner.1, w1, e1, w2, e2, i + 1);
          assert Extends(vis, r.1, n, w2) by {
            assert Extends(vis, v, n, w2);
          }
          r
  }

  /** `dfs(w1, e1, w2, e2)`. */
  method Dfs(mt: seq<Segment>, n: nat, vis: seq<nat>, w1: nat, e1: nat, w2: nat, e2: nat)
    returns (found: bool, vis': seq<nat>)
    requires Linked(mt, n) && n < |vis| && 1 <= w1 <= n && (e1 == 1 || e1 == 2)
    ensures (found, vis') == Search(mt, n, vis, w1, e1, w2, e2, 1)
    decreases Unvisited(vis, n)
  {
    vis' := vis;
    var i := 1;
    while i <= mt[w1].nn[e1]
      invariant 1 <= i <= mt[w1].nn[e1] + 1
      invariant |vis'| == |vis| && Unvisited(vis', n) <= Unvisited(vis, n)
      invariant Search(mt, n, vis', w1, e1, w2, e2, i) == Search(mt, n, vis, w1, e1, w2, e2, 1)
      decreases mt[w1].nn[e1] + 1 - i
    {
      var cn, ce := mt[w1].neig[e1][i], mt[w1].neen[e1][i];
      if cn == w2 {
        if ce == e2 {
          return true, vis';
        }
      } else if vis'[cn] == 0 {
        UnvisitedMark(vis', n, cn);
        vis' := vis'[cn := 1];
        var ne := if ce == 1 then 2 else 1;
        var f;
        f, vis' := Dfs(mt, n, vis', cn, ne, w2, e2);
        if f {
          return true, vis';
        }
      }
      i := i + 1;
    }
    found := false;
  }

  /** Prefixing a step to a walk. */
  lemma WalkCons(mt: seq<Segment>, n: nat, a: (nat, nat), p: seq<(nat, nat)>, avoid: nat)
    requires Walk(mt, n, p, avoid) && 1 <= a.0 <= n && (a.1 == 1 || a.1 == 2)
    requires p[0].0 != avoid && Step(mt, a, p[0])
    ensures Walk(mt, n, [a] + p, avoid)
  {
    var q := [a] + p;
    forall k | 1 <= k < |q|
      ensures q[k].0 != avoid && Step(mt, q[k - 1], q[k])
    {
      assert q[k] == p[k - 1];
      if k > 1 {
        assert q[k - 1] == p[k - 2];
      }
    }
  }

  /** A recorded neighbour is led to by the one-end walk. */
  lemma LeadsHere(mt: seq<Segment>, n: nat, a: (nat, nat), i: nat, avoid: nat)
    requires 1 <= a.0 <= n < |mt| && (a.1 == 1 || a.1 == 2) && 1 <= i <= mt[a.0].nn[a.1]
    ensures Leads(mt, n, a, Entry(mt[a.0], a.1, i), avoid)
  {
    var p := [a];
    assert Walk(mt, n, p, avoid) && p[0] == a && Records(mt, p[|p| - 1], Entry(mt[a.0], a.1, i));
  }

  /** A step onto b, then a walk leading on from b. */
  lemma LeadsCons(mt: seq<Segment>, n: nat, a: (nat, nat), b: (nat, nat), t: (nat, nat), avoid: nat)
    requires 1 <= a.0 <= n && (a.1 == 1 || a.1 == 2) && b.0 != avoid && Step(mt, a, b)
    requires Leads(mt, n, b, t, avoid)
    ensures Leads(mt, n, a, t, avoid)
  {
    var p: seq<(nat, nat)> :| Walk(mt, n, p, avoid) && p[0] == b && Records(mt, p[|p| - 1], t);
    WalkCons(mt, n, a, p, avoid);
    assert ([a] + p)[|[a] + p| - 1] == p[|p| - 1];
  }

  /** A step onto b reaches b's segment. */
  lemma ReachesStep(mt: seq<Segment>, n: nat, a: (nat, nat), b: (nat, nat), avoid: nat)
    requires 1 <= a.0 <= n && (a.1 == 1 || a.1 == 2) && 1 <= b.0 <= n && (b.1 == 1 || b.1 == 2)
    requires b.0 != avoid && Step(mt, a, b)
    ensures Reaches(mt, n, a, b.0, avoid)
  {
    assert Walk(mt, n, [b], avoid);
    WalkCons(mt, n, a, [b], avoid);
    assert ([a] + [b])[1] == b;
  }

  /** A step onto b, then a walk reaching on from b. */
  lemma ReachesCons(mt: seq<Segment>, n: nat, a: (nat, nat), b: (nat, nat), x: nat, avoid: nat)
    requires 1 <= a.0 <= n && (a.1 == 1 || a.1 == 2) && b.0 != avoid && Step(mt, a, b)
    requires Reaches(mt, n, b, x, avoid)
    ensures Reaches(mt, n, a, x, avoid)
  {
    var p: seq<(nat, nat)> :| Walk(mt, n, p, avoid) && p[0] == b && p[|p| - 1].0 == x;
    WalkCons(mt, n, a, p, avoid);
    assert ([a] + p)[|[a] + p| - 1] == p[|p| - 1];
  }

  /** The step the search takes through slot i of end (w1, e1). */
  lemma SlotStep(mt: seq<Segment>, n: nat, w1: nat, e1: nat, i: nat)
    requires Linked(mt, n) && 1 <= w1 <= n && (e1 == 1 || e1 == 2) && 1 <= i <= mt[w1].nn[e1]
    ensures var cn, ce := mt[w1].neig[e1][i], mt[w1].neen[e1][i];
      1 <= cn <= n && (ce == 1 || ce == 2) && Step(mt, (w1, e1), (cn, Opposite(ce)))
  {
  }

  /** The search is sound: it reports (w2, e2) only when a walk from
      (w1, e1) that avoids w2 reaches an end recording it. */
  lemma {:induction false} SearchLeads(mt: seq<Segment>, n: nat, vis: seq<nat>, w1: nat, e1: nat, w2: nat, e2: nat, i: nat)
    requires Linked(mt, n) && n < |vis| && 1 <= w1 <= n && (e1 == 1 || e1 == 2) && 1 <= i
    ensures Search(mt, n, vis, w1, e1, w2, e2, i).0 ==> Leads(mt, n, (w1, e1), (w2, e2), w2)
    decreases Unvisited(vis, n), mt[w1].nn[e1] + 1 - i
  {
    if i <= mt[w1].nn[e1] {
      var cn, ce := mt[w1].neig[e1][i], mt[w1].neen[e1][i];
      if cn == w2 && ce == e2 {
        LeadsHere(mt, n, (w1, e1), i, w2);
      } else if cn == w2 || vis[cn] != 0 {
        SearchLeads(mt, n, vis, w1, e1, w2, e2, i + 1);
      } else {
        var v := vis[cn := 1];
        UnvisitedMark(vis, n, cn);
        var inner := Search(mt, n, v, cn, Opposite(ce), w2, e2, 1);
        if inner.0 {
          SearchLeads(mt, n, v, cn, Opposite(ce), w2, e2, 1);
          SlotStep(mt, n, w1, e1, i);
          LeadsCons(mt, n, (w1, e1), (cn, Opposite(ce)), (w2, e2), w2);
        } else {
          assert Search(mt, n, vis, w1, e1, w2, e2, i) == Search(mt, n, inner.1, w1, e1, w2, e2, i + 1);
          SearchLeads(mt, n, inner.1, w1, e1, w2, e2, i + 1);
        }
      }
    }
  }

  /** Every segment the search marks is reached from (w1, e1) by a walk
      that avoids w2. */
  lemma {:induction false} SearchReaches(mt: seq<Segment>, n: nat, vis: seq<nat>, w1: nat, e1: nat, w2: nat, e2: nat, i: nat)
    requires Linked(mt, n) && n < |vis| && 1 <= w1 <= n && (e1 == 1 || e1 == 2) && 1 <= i
    ensures var r := Search(mt, n, vis, w1, e1, w2, e2, i);
      forall v :: 1 <= v <= n && vis[v] == 0 && r.1[v] != 0 ==> Reaches(mt, n, (w1, e1), v, w2)
    decreases Unvisited(vis, n), mt[w1].nn[e1] + 1 - i
  {
    if i <= mt[w1].nn[e1] {
      var cn, ce := mt[w1].neig[e1][i], mt[w1].neen[e1][i];
      if cn == w2 || vis[cn] != 0 {
        SearchReaches(mt, n, vis, w1, e1, w2, e2, i + 1);
      } else {
        var a, b := (w1, e1), (cn, Opposite(ce));
        var v := vis[cn := 1];
        UnvisitedMark(vis, n, cn);
        var inner := Search(mt, n, v, cn, Opposite(ce), w2, e2, 1);
        var r := if inner.0 then inner else Search(mt, n, inner.1, w1, e1, w2, e2, i + 1);
        assert Search(mt, n, vis, w1, e1, w2, e2, i) == r;
        SearchReaches(mt, n, v, cn, Opposite(ce), w2, e2, 1);
        if !inner.0 {
          SearchReaches(mt, n, inner.1, w1, e1, w2, e2, i + 1);
        }
        SlotStep(mt, n, w1, e1, i);
        forall x | 1 <= x <= n && vis[x] == 0 && r.1[x] != 0
          ensures Reaches(mt, n, a, x, w2)
        {
          if x == cn {
            ReachesStep(mt, n, a, b, w2);
          } else if inner.1[x] != 0 {
            ReachesCons(mt, n, a, b, x, w2);
          }
        }
      }
    }
  }

  /** A neighbour recorded at the starting end itself is always found. */
  lemma {:induction false} SearchFindsRecorded(mt: seq<Segment>, n: nat, vis: seq<nat>, w1: nat, e1: nat,
                                               w2: nat, e2: nat, i: nat, j: nat)
    requires Linked(mt, n) && n < |vis| && 1 <= w1 <= n && (e1 == 1 || e1 == 2) && 1 <= i
    requires i <= j <= mt[w1].nn[e1] && Entry(mt[w1], e1, j) == (w2, e2)
    ensures Search(mt, n, vis, w1, e1, w2, e2, i).0
    decreases j - i
  {
    var cn, ce := mt[w1].neig[e1][i], mt[w1].neen[e1][i];
    if i < j && !(cn == w2 && ce == e2) {
      if cn == w2 || vis[cn] != 0 {
        SearchFindsRecorded(mt, n, vis, w1, e1, w2, e2, i + 1, j);
      } else {
        var v := vis[cn := 1];
        UnvisitedMark(vis, n, cn);
        var (found, v') := Search(mt, n, v, cn, Opposite(ce), w2, e2, 1);
        if !found {
          SearchFindsRecorded(mt, n, v', w1, e1, w2, e2, i + 1, j);
        }
      }
    }
  }

  /** When the search fails, every neighbour other than w2 recorded at the
      starting end is marked. */
  lemma {:induction false} SearchMarksNeighbours(mt: seq<Segment>, n: nat, vis: seq<nat>, w1: nat, e1: nat,
                                                 w2: nat, e2: nat, i: nat)
    requires Linked(mt, n) && n < |vis| && 1 <= w1 <= n && (e1 == 1 || e1 == 2) && 1 <= i
    ensures var r := Search(mt, n, vis, w1, e1, w2, e2, i);
      !r.0 ==> forall j :: i <= j <= mt[w1].nn[e1] && mt[w1].neig[e1][j] != w2 ==> r.1[mt[w1].neig[e1][j]] != 0
    decreases mt[w1].nn[e1] + 1 - i
  {
    if i <= mt[w1].nn[e1] {
      var cn, ce := mt[w1].neig[e1][i], mt[w1].neen[e1][i];
      if cn == w2 || vis[cn] != 0 {
        SearchMarksNeighbours(mt, n, vis, w1, e1, w2, e2, i + 1);
      } else {
        var v := vis[cn := 1];
        UnvisitedMark(vis, n, cn);
        var (found, v') := Search(mt, n, v, cn, Opposite(ce), w2, e2, 1);
        if !found {
          SearchMarksNeighbours(mt, n, v', w1, e1, w2, e2, i + 1);
        }
      }
    }
  }

  // ---------------------------------------------------------------------
  // update_cl_fiss

  /** Every live segment has a cluster id below clnum. */
  predicate ClustersBelow(mt: seq<Segment>, n: nat, clnum: nat)
  {
    n < |mt| && forall k :: 1 <= k <= n ==> mt[k].cl < clnum
  }

  /** The marks update_cl_fiss searches with: vis resized to n + 2, with
      the marks of segments 1..n cleared. */
  function Cleared(vis: seq<nat>, n: nat): (r: seq<nat>)
    ensures |r| == n + 2 && forall j :: 1 <= j <= n ==> r[j] == 0
  {
    seq(n + 2, j requires 0 <= j < n + 2 => if 1 <= j <= n then 0 else if j < |vis| then vis[j] else 0)
  }

  /** Number of edges in the marked segments among 1..k. */
  function MarkedMass(m: seq<Segment>, vis: seq<nat>, k: nat): nat
    requires k < |m| && k < |vis|
  {
    if k == 0 then 0 else MarkedMass(m, vis, k - 1) + (if vis[k] != 0 then |m[k].g| else 0)
  }

  /** The relabelling loop of update_cl_fiss: the marked segments among
      1..n move, in order, to cluster c, their edges numbered on from those
      of the earlier marked segments. */
  function Regrouped(m: seq<Segment>, n: nat, vis: seq<nat>, c: nat): (r: seq<Segment>)
    requires n < |m| && n < |vis|
    ensures |r| == |m|
  {
    seq(|m|, k requires 0 <= k < |m| => if 1 <= k <= n && vis[k] != 0 then Moved(m, vis, c, k) else m[k])
  }

  /** Segment k after `setCl(c, clind)` in the relabelling loop. */
  function Moved(m: seq<Segment>, vis: seq<nat>, c: nat, k: nat): (r: Segment)
    requires 1 <= k < |m| && k <= |vis|
  {
    m[k].(cl := c, g := Relabelled(m[k].g, c, MarkedMass(m, vis, k - 1)))
  }

  /** `update_cl_fiss(w, e)`: the state, the marks left, and whether the
      search from end e of w found w's other end.  If it did, cutting at
      end e leaves the cluster whole and nothing changes; otherwise the
      segments it marked form a new cluster, clnum. */
  function ClusterCut(s: State, vis: seq<nat>, w: nat, e: nat): (r: (State, seq<nat>, bool))
    requires s.Good() && Linked(s.mt, s.mtnum) && 1 <= w <= s.mtnum && (e == 1 || e == 2)
    ensures r.0.Good() && r.0.mtnum == s.mtnum && |r.1| == s.mtnum + 2
  {
    var n := s.mtnum;
    var found := Search(s.mt, n, Cleared(vis, n), w, e, w, Opposite(e), 1);
    if found.0 then (s, found.1, true)
    else (State(Regrouped(s.mt, n, found.1, s.clnum), n, s.clnum + 1), found.1, false)
  }

  /** The clearing loop of update_cl_fiss. */
  method ClearMarks(vis: seq<nat>, n: nat) returns (v: seq<nat>)
    ensures v == Cleared(vis, n)
  {
    v := Resize(vis, n + 2, 0);
    for j := 1 to n + 1
      invariant |v| == n + 2
      invariant forall k :: 0 <= k < n + 2 ==> v[k] == if 1 <= k < j then 0 else Resize(vis, n + 2, 0)[k]
    {
      v := v[j := 0];
    }
  }

  /** The relabelling loop's invariant: the marked segments below i have
      moved and nothing else has. */
  ghost predicate MovedBelow(mt: seq<Segment>, m: seq<Segment>, vis: seq<nat>, c: nat, i: nat)
  {
    |mt| == |m| && i <= |vis| &&
    (forall k :: 1 <= k < i && k < |m| && vis[k] != 0 ==> mt[k] == Moved(m, vis, c, k)) &&
    (forall k :: 0 <= k < |m| && !(1 <= k < i && vis[k] != 0) ==> mt[k] == m[k])
  }

  lemma MovedBelowStep(mt: seq<Segment>, m: seq<Segment>, vis: seq<nat>, c: nat, i: nat, seg: Segment)
    requires MovedBelow(mt, m, vis, c, i) && 1 <= i < |m| && i < |vis| && vis[i] != 0
    requires seg == Moved(m, vis, c, i)
    ensures MovedBelow(mt[i := seg], m, vis, c, i + 1)
  {
  }

  lemma MovedBelowSkip(mt: seq<Segment>, m: seq<Segment>, vis: seq<nat>, c: nat, i: nat)
    requires MovedBelow(mt, m, vis, c, i) && 1 <= i < |m| && i < |vis| && vis[i] == 0
    ensures MovedBelow(mt, m, vis, c, i + 1)
  {
  }

  lemma MovedBelowAt(mt: seq<Segment>, m: seq<Segment>, vis: seq<nat>, c: nat, i: nat)
    requires MovedBelow(mt, m, vis, c, i) && 1 <= i < |m|
    ensures mt[i] == m[i]
  {
  }

  /** One turn of the relabelling loop: segment i moves if it is marked. */
  method RegroupOne(mt: seq<Segment>, ghost m: seq<Segment>, vis: seq<nat>, c: nat, i: nat, clind: nat)
    returns (mt': seq<Segment>, clind': nat)
    requires MovedBelow(mt, m, vis, c, i) && 1 <= i < |m| && i < |vis| && clind == MarkedMass(m, vis, i - 1)
    ensures MovedBelow(mt', m, vis, c, i + 1) && clind' == MarkedMass(m, vis, i)
  {
    MovedBelowAt(mt, m, vis, c, i);
    mt', clind' := mt, clind;
    if vis[i] != 0 {
      var seg;
      seg, clind' := SetCl(mt[i], c, clind);
      MovedBelowStep(mt, m, vis, c, i, seg);
      mt' := mt[i := seg];
    } else {
      MovedBelowSkip(mt, m, vis, c, i);
    }
  }

  /** The relabelling loop of update_cl_fiss. */
  method Regroup(m: seq<Segment>, n: nat, vis: seq<nat>, c: nat) returns (mt: seq<Segment>)
    requires n < |m| && n < |vis|
    ensures mt == Regrouped(m, n, vis, c)
  {
    mt := m;
    var clind := 0;
    for i := 1 to n + 1
      invariant |mt| == |m| && clind == MarkedMass(m, vis, i - 1)
      invariant MovedBelow(mt, m, vis, c, i)
    {
      mt, clind := RegroupOne(mt, m, vis, c, i, clind);
    }
    assert forall k :: 0 <= k < |m| ==> mt[k] == Regrouped(m, n, vis, c)[k];
  }

  /** `update_cl_fiss(w, e)`. */
  method UpdateClFiss(s: State, vis: seq<nat>, w: nat, e: nat) returns (r: State, vis': seq<nat>, isCycle: bool)
    requires s.Good() && Linked(s.mt, s.mtnum) && 1 <= w <= s.mtnum && (e == 1 || e == 2)
    ensures (r, vis', isCycle) == ClusterCut(s, vis, w, e)
  {
    var n := s.mtnum;
    vis' := ClearMarks(vis, n);
    var oe := if e == 1 then 2 else 1;
    isCycle, vis' := Dfs(s.mt, n, vis', w, e, w, oe);
    r := s;
    if !isCycle {
      var mt := Regroup(s.mt, n, vis', s.clnum);
      r := State(mt, n, s.clnum + 1);
    }
  }

  lemma InheritsInds(g: seq<Edge>, c: nat, initind: nat)
    ensures Inds(Relabelled(g, c, initind)) == Inds(g)
  {
  }

  /** The relabelling loop moves exactly the marked segments to cluster c,
      when none was there before, and touches nothing but their edges'
      cluster labels. */
  lemma RegroupedKeeps(m: seq<Segment>, n: nat, vis: seq<nat>, c: nat)
    requires n < |m| && n < |vis| && ClustersBelow(m, n, c)
    ensures var r := Regrouped(m, n, vis, c);
      forall k :: 1 <= k <= n ==>
        r[k] == m[k].(g := r[k].g, cl := r[k].cl) && Inds(r[k].g) == Inds(m[k].g) &&
        (r[k].cl == c <==> vis[k] != 0) && (r[k].cl != c ==> r[k] == m[k])
  {
    var r := Regrouped(m, n, vis, c);
    forall k | 1 <= k <= n
      ensures Inds(r[k].g) == Inds(m[k].g)
    {
      if vis[k] != 0 {
        InheritsInds(m[k].g, c, MarkedMass(m, vis, k - 1));
      }
    }
  }

  /** Segments 1..n marked in vis move to cluster c, their edges as yet
      untouched. */
  function MarkedMoved(m: seq<Segment>, n: nat, vis: seq<nat>, c: nat): (r: seq<Segment>)
    requires n < |m| && n < |vis|
    ensures |r| == |m|
  {
    seq(|m|, k requires 0 <= k < |m| => if 1 <= k <= n && vis[k] != 0 then m[k].(cl := c) else m[k])
  }

  lemma {:induction false} MarkedMassCounts(m: seq<Segment>, n: nat, vis: seq<nat>, c: nat, k: nat)
    requires n < |m| && n < |vis| && k <= n && ClustersBelow(m, n, c)
    ensures MarkedMass(m, vis, k) == ClusterMass(MarkedMoved(m, n, vis, c), k, c)
  {
    if k > 0 {
      MarkedMassCounts(m, n, vis, c, k - 1);
    }
  }

  /** When no live segment is in cluster c yet, the relabelling loop is
      `update_gIndcl(c)` after moving the marked segments to c. */
  lemma RegroupedRenumbers(m: seq<Segment>, n: nat, vis: seq<nat>, c: nat)
    requires n < |m| && n < |vis| && ClustersBelow(m, n, c)
    ensures Regrouped(m, n, vis, c) == GIndcl(MarkedMoved(m, n, vis, c), n, c)
  {
    var a, b := Regrouped(m, n, vis, c), GIndcl(MarkedMoved(m, n, vis, c), n, c);
    forall k | 0 <= k < |m|
      ensures a[k] == b[k]
    {
      if 1 <= k <= n && vis[k] != 0 {
        MarkedMassCounts(m, n, vis, c, k - 1);
      }
    }
  }

  /** When the search finds w's other end, update_cl_fiss changes nothing,
      and w lies on a cycle: a walk from end e that never re-enters w
      comes back to w's other end. */
  lemma ClusterCutCycle(s: State, vis: seq<nat>, w: nat, e: nat)
    requires s.Good() && Linked(s.mt, s.mtnum) && 1 <= w <= s.mtnum && (e == 1 || e == 2)
    ensures var (r, v, cyc) := ClusterCut(s, vis, w, e);
      cyc ==> r == s && Leads(s.mt, s.mtnum, (w, e), (w, Opposite(e)), w)
  {
    SearchLeads(s.mt, s.mtnum, Cleared(vis, s.mtnum), w, e, w, Opposite(e), 1);
  }

  /** Otherwise the segments moved to the new cluster clnum are those
      marked, each reached from end e of w without passing through w;
      every segment keeps its edges (by network index) and neighbours, and
      an unmarked one is untouched. */
  lemma ClusterCutRegroups(s: State, vis: seq<nat>, w: nat, e: nat)
    requires s.Good() && Linked(s.mt, s.mtnum) && ClustersBelow(s.mt, s.mtnum, s.clnum)
    requires 1 <= w <= s.mtnum && (e == 1 || e == 2)
    ensures var (r, v, cyc) := ClusterCut(s, vis, w, e);
      !cyc ==> (r.clnum == s.clnum + 1 && r.mt[w] == s.mt[w] &&
        forall k :: 1 <= k <= s.mtnum ==>
          r.mt[k] == s.mt[k].(g := r.mt[k].g, cl := r.mt[k].cl) && Inds(r.mt[k].g) == Inds(s.mt[k].g) &&
          (r.mt[k].cl == s.clnum <==> v[k] != 0) &&
          (r.mt[k].cl != s.clnum ==> r.mt[k] == s.mt[k]) &&
          (r.mt[k].cl == s.clnum ==> k != w && Reaches(s.mt, s.mtnum, (w, e), k, w)))
  {
    var n := s.mtnum;
    var v0 := Cleared(vis, n);
    var found := Search(s.mt, n, v0, w, e, w, Opposite(e), 1);
    if !found.0 {
      SearchReaches(s.mt, n, v0, w, e, w, Opposite(e), 1);
      RegroupedKeeps(s.mt, n, found.1, s.clnum);
      assert found.1[w] == 0;
    }
  }

  /** Otherwise the edge total is kept, the new cluster is numbered
      densely, and every cluster id stays below the new count. */
  lemma ClusterCutNumbering(s: State, vis: seq<nat>, w: nat, e: nat)
    requires s.Good() && Linked(s.mt, s.mtnum) && ClustersBelow(s.mt, s.mtnum, s.clnum)
    requires 1 <= w <= s.mtnum && (e == 1 || e == 2)
    ensures var (r, v, cyc) := ClusterCut(s, vis, w, e);
      !cyc ==> (Mass(r.mt, s.mtnum) == Mass(s.mt, s.mtnum) && Dense(r.mt, s.mtnum, s.clnum) &&
        ClustersBelow(r.mt, s.mtnum, r.clnum))
  {
    var n := s.mtnum;
    var (r, v, cyc) := ClusterCut(s, vis, w, e);
    if !cyc {
      var m1 := MarkedMoved(s.mt, n, v, s.clnum);
      RegroupedRenumbers(s.mt, n, v, s.clnum);
      GIndclDistinct(m1, n, s.clnum);
      MassFrame(s.mt, m1, n);
      GIndclMass(m1, n, s.clnum);
    }
  }

  /** Otherwise every neighbour recorded at end e, other than w itself,
      is in the new cluster. */
  lemma ClusterCutTakesNeighbours(s: State, vis: seq<nat>, w: nat, e: nat)
    requires s.Good() && Linked(s.mt, s.mtnum) && 1 <= w <= s.mtnum && (e == 1 || e == 2)
    ensures var (r, v, cyc) := ClusterCut(s, vis, w, e);
      !cyc ==> forall j :: 1 <= j <= s.mt[w].nn[e] && s.mt[w].neig[e][j] != w ==>
        r.mt[s.mt[w].neig[e][j]].cl == s.clnum
  {
    SearchMarksNeighbours(s.mt, s.mtnum, Cleared(vis, s.mtnum), w, e, w, Opposite(e), 1);
  }

  // ---------------------------------------------------------------------
  // fiss2: division at a node of degree 2

  /** What a fission leaves: the state, the search marks, and the cluster
      ids of the two pieces. */
  datatype Split = Split(s: State, vis: seq<nat>, cl1: nat, cl2: nat)

  /** A fission's outcome; `Exit` is the source's fatal error exit. */
  datatype Outcome = Done(split: Split) | Exit(msg: string)

  /** The first step of fiss2: `update_cl_fiss(w, 2)` when end 2 of w has
      neighbours; otherwise the piece cut off is a cluster of its own and
      clnum grows by one. */
  function Opened(s: State, vis: seq<nat>, w: nat): (r: (State, seq<nat>, bool))
    requires s.Good() && Linked(s.mt, s.mtnum) && 1 <= w <= s.mtnum
    ensures r.0.Good() && r.0.mtnum == s.mtnum
    ensures r.2 ==> s.mt[w].nn[2] != 0 && r.0 == s
    ensures !r.2 ==> r.0.clnum == s.clnum + 1
  {
    if s.mt[w].nn[2] != 0 then ClusterCut(s, vis, w, 2) else (s.(clnum := s.clnum + 1), vis, false)
  }

  /** A new segment t = mtnum + 1 is appended, and the edges of w from
      position a on move to it, in order. */
  function Detached(m: seq<Segment>, w: nat, a: nat): (r: seq<Segment>)
    requires 1 <= w < |m| && a <= |m[w].g|
    ensures |r| == |m| + 1
  {
    var g := m[w].g;
    var m0 := m + [MockSegment(0)];
    m0[|m| := m0[|m|].(g := g[a..])][w := m0[w].(g := g[..a])]
  }

  lemma DetachedMeaning(m: seq<Segment>, w: nat, a: nat)
    requires 1 <= w < |m| && a <= |m[w].g|
    ensures var r, t := Detached(m, w, a), |m|;
      r[w] == m[w].(g := m[w].g[..a]) && r[t] == MockSegment(0).(g := m[w].g[a..]) &&
      (forall k :: 0 <= k < |m| && k != w ==> r[k] == m[k]) &&
      Mass(r, t) == Mass(m, t - 1)
  {
    var g := m[w].g;
    var t := |m|;
    var m0 := m + [MockSegment(0)];
    var m1 := m0[t := m0[t].(g := g[a..])];
    MassPrefix(m, [MockSegment(0)], t - 1);
    MassUpdate(m0, t, t, m1[t]);
    MassUpdate(m1, t, w, m1[w].(g := g[..a]));
    assert |g[..a]| + |g[a..]| == |g|;
  }

  /** The detached segment t takes end 2 of w's neighbours
      (copy_neigs(w, 2, t, 2)); its end 1 is free. */
  function Handed(m: seq<Segment>, w: nat, a: nat): (r: seq<Segment>)
    requires 1 <= w < |m| && a <= |m[w].g|
    ensures |r| == |m| + 1
  {
    var t := |m|;
    var m1 := Detached(m, w, a);
    var m2 := m1[t := m1[t].(nn := m1[t].nn[1 := 0])];
    NeigsCopied(m2, w, 2, t, 2)
  }

  /** r is m after Handed: t = |m| holds the edges of w from position a
      on and w's end-2 neighbours (a reference to end 2 of w itself
      becoming one to end 2 of t); w keeps the rest, its counts and its
      cluster; no other segment changes its edges, counts or cluster; the
      edge total is kept. */
  ghost predicate HandedFrom(m: seq<Segment>, r: seq<Segment>, w: nat, a: nat)
    requires 1 <= w < |m| && a <= |m[w].g|
  {
    var t := |m|;
    |r| == t + 1 &&
    r[w].g == m[w].g[..a] && r[t].g == m[w].g[a..] && r[w].cl == m[w].cl && r[t].cl == 0 &&
    r[w].nn == m[w].nn && r[t].nn[1] == 0 && r[t].nn[2] == m[w].nn[2] &&
    (forall i :: 1 <= i <= m[w].nn[2] ==> SlotRedirected(Entry(m[w], 2, i), Entry(r[t], 2, i), w, 2, t, 2)) &&
    (forall k :: 0 <= k < t && k != w ==> r[k].g == m[k].g && r[k].cl == m[k].cl && r[k].nn == m[k].nn)
  }

  lemma HandedMeaning(m: seq<Segment>, n: nat, w: nat, a: nat)
    requires 1 <= w < |m| && a <= |m[w].g| && |m| == n + 1
    ensures HandedFrom(m, Handed(m, w, a), w, a)
    ensures Mass(Handed(m, w, a), n + 1) == Mass(m, n)
  {
    var t := |m|;
    var m1 := Detached(m, w, a);
    DetachedMeaning(m, w, a);
    var m2 := m1[t := m1[t].(nn := m1[t].nn[1 := 0])];
    var c := CopiedEnd(m2, w, 2, t, 2);
    var r := NeigsCopied(m2, w, 2, t, 2);
    CopiedEndMeaning(m2, w, 2, t, 2);
    NeigsCopiedRedirects(m2, w, 2, t, 2);
    NeigsCopiedCounts(m2, w, 2, t, 2);
    assert SegRedirected(c[t], r[t], w, 2, t, 2);
    forall i | 1 <= i <= m[w].nn[2]
      ensures SlotRedirected(Entry(m[w], 2, i), Entry(r[t], 2, i), w, 2, t, 2)
    {
      assert Live(c[t], 2)[i - 1] == Live(m2[w], 2)[i - 1];
    }
    MassFrame(m1, r, t);
  }

  /** With the tables symmetric around end 2 of w (each live neighbour is
      an end of another segment than w's end 2 and records it exactly
      once), handing end 2 of w to t = |m| rewires every such neighbour:
      the slot that recorded end 2 of w now records end 2 of t, and none
      of its live slots still records end 2 of w. */
  lemma HandedRewires(m: seq<Segment>, w: nat, a: nat)
    requires 1 <= w < |m| && a <= |m[w].g|
    requires forall k :: 1 <= k <= m[w].nn[2] ==> LinkedBack(m, w, 2, |m|, k)
    ensures forall k :: 1 <= k <= m[w].nn[2] ==> Rewired(m, Handed(m, w, a), w, 2, |m|, 2, k)
  {
    var t := |m|;
    var m1 := Detached(m, w, a);
    DetachedMeaning(m, w, a);
    var m2 := m1[t := m1[t].(nn := m1[t].nn[1 := 0])];
    var r := NeigsCopied(m2, w, 2, t, 2);
    assert m2[w] == m[w].(g := m[w].g[..a]);
    forall k | 1 <= k <= m2[w].nn[2]
      ensures LinkedBack(m2, w, 2, t, k)
    {
      HandedLinked(m, m2, w, t, k);
    }
    NeigsCopiedRewires(m2, w, 2, t, 2);
    forall k | 1 <= k <= m[w].nn[2]
      ensures Rewired(m, r, w, 2, t, 2, k)
    {
      HandedLinked(m, m2, w, t, k);
      assert Rewired(m2, r, w, 2, t, 2, k);
    }
  }

  /** The back references of the neighbours of end 2 of w do not see the
      detaching of the edges. */
  lemma HandedLinked(m: seq<Segment>, m2: seq<Segment>, w: nat, t: nat, k: nat)
    requires 1 <= w < |m| && t == |m| && |m2| == t + 1 && 1 <= k <= m[w].nn[2]
    requires m2[w] == m[w].(g := m2[w].g) && forall j :: 0 <= j < |m| && j != w ==> m2[j] == m[j]
    requires LinkedBack(m, w, 2, t, k)
    ensures Entry(m2[w], 2, k) == Entry(m[w], 2, k) && LinkedBack(m2, w, 2, t, k)
    ensures var (cn, ce) := Entry(m[w], 2, k); BackRef(m2[cn], ce, w, 2) == BackRef(m[cn], ce, w, 2)
  {
    var (cn, ce) := Entry(m[w], 2, k);
    SameTablesSameBackRefs(m[cn], m2[cn], ce, w, 2);
  }

  /** Only the edges' cluster labels and the neighbour tables of m and r
      differ. */
  lemma {:induction false} ClusterTablesFrame(m: seq<Segment>, r: seq<Segment>, n: nat, c: nat)
    requires n < |m| && TablesOnly(m, r)
    ensures ClusterMass(r, n, c) == ClusterMass(m, n, c) && SegmentsOf(r, n, c) == SegmentsOf(m, n, c)
  {
    if n > 0 {
      ClusterTablesFrame(m, r, n - 1, c);
    }
  }

  /** A densely numbered cluster stays so when only neighbour tables
      change. */
  lemma DenseTables(m: seq<Segment>, r: seq<Segment>, n: nat, c: nat)
    requires n < |m| && TablesOnly(m, r) && Dense(m, n, c)
    ensures Dense(r, n, c)
  {
    ClusterTablesFrame(m, r, n, c);
    var segs := SegmentsOf(m, n, c);
    forall i, k | 0 <= i < |segs| && 0 <= k < |r[segs[i]].g|
      ensures Indcl(r, segs, i, k) == Indcl(m, segs, i, k)
    {
    }
  }

  /** The rest of fiss2 up to the self-loop check: t takes end 2 of w's
      neighbours (copy_neigs(w, 2, t, 2)) and its cluster (w's when w lay
      on a cycle, the new cluster clnum - 1 otherwise); both clusters are
      renumbered when they differ; end 2 of w becomes free. */
  function Divided(s: State, w: nat, a: nat, inCycle: bool): (r: State)
    requires s.Good() && 1 <= w <= s.mtnum && a <= |s.mt[w].g|
    ensures r.Good() && r.mtnum == s.mtnum + 1 && r.clnum == s.clnum
    ensures r.mt[w].nn[2] == 0 && r.mt[r.mtnum].nn[1] == 0
    ensures DividedFrom(s.mt, r.mt, w, a, s.clnum, inCycle)
    ensures Mass(r.mt, r.mtnum) == Mass(s.mt, s.mtnum)
    ensures !inCycle && s.mt[w].cl != Dec(s.clnum) ==>
      Dense(r.mt, r.mtnum, s.mt[w].cl) && Dense(r.mt, r.mtnum, Dec(s.clnum))
  {
    var t := s.mtnum + 1;
    var h := Handed(s.mt, w, a);
    HandedMeaning(s.mt, s.mtnum, w, a);
    var m5 := Labelled(h, w, t, s.clnum, inCycle);
    LabelledMeaning(h, w, t, s.clnum, inCycle);
    DividedFacts(s.mt, s.mtnum, h, m5, w, a, s.clnum, inCycle);
    var d := m5[w := m5[w].(nn := m5[w].nn[2 := 0])];
    if !inCycle && s.mt[w].cl != Dec(s.clnum) then
      FreedNumbering(h, w, t, s.clnum);
      State(d, t, s.clnum)
    else
      State(d, t, s.clnum)
  }

  /** t joins w's cluster when w lay on a cycle, and the new cluster
      clnum - 1 otherwise, when both clusters are renumbered. */
  function Labelled(m: seq<Segment>, w: nat, t: nat, clnum: nat, inCycle: bool): (r: seq<Segment>)
    requires w < |m| && t < |m|
    ensures |r| == |m|
  {
    var m4 := m[t := m[t].(cl := if inCycle then m[w].cl else Dec(clnum))];
    if inCycle then m4 else GIndcl(GIndcl(m4, t, m4[w].cl), t, Dec(clnum))
  }

  /** r is m after Labelled: t's cluster id and the edges' cluster labels
      are all that changed. */
  ghost predicate LabelledFrom(m: seq<Segment>, r: seq<Segment>, w: nat, t: nat, clnum: nat, inCycle: bool)
    requires w < |m| && t < |m|
  {
    |r| == |m| && r[t].cl == (if inCycle then m[w].cl else Dec(clnum)) &&
    forall k :: 0 <= k < |m| ==>
      r[k] == m[k].(g := r[k].g, cl := r[k].cl) && Inds(r[k].g) == Inds(m[k].g) &&
      (k != t ==> r[k].cl == m[k].cl)
  }

  lemma LabelledMeaning(m: seq<Segment>, w: nat, t: nat, clnum: nat, inCycle: bool)
    requires w < |m| && t < |m| && w != t
    ensures LabelledFrom(m, Labelled(m, w, t, clnum, inCycle), w, t, clnum, inCycle)
  {
    var m4 := m[t := m[t].(cl := if inCycle then m[w].cl else Dec(clnum))];
    if !inCycle {
      var c1 := m4[w].cl;
      var m5 := GIndcl(m4, t, c1);
      GIndclFrame(m4, t, c1);
      GIndclFrame(m5, t, Dec(clnum));
      forall k | 0 <= k < |m|
        ensures Inds(GIndcl(m5, t, Dec(clnum))[k].g) == Inds(m4[k].g)
      {
        GIndclKeeps(m4, t, c1, k);
        GIndclKeeps(m5, t, Dec(clnum), k);
      }
    }
  }

  /** When w lay on no cycle, both clusters are renumbered densely,
      provided the cluster w keeps is not the new one. */
  lemma LabelledNumbering(m: seq<Segment>, w: nat, t: nat, clnum: nat)
    requires w < |m| && t < |m| && w != t && m[w].cl != Dec(clnum)
    ensures var r := Labelled(m, w, t, clnum, false);
      Dense(r, t, m[w].cl) && Dense(r, t, Dec(clnum))
  {
    var c1, c2 := m[w].cl, Dec(clnum);
    var m4 := m[t := m[t].(cl := c2)];
    var g1 := GIndcl(m4, t, c1);
    GIndclDistinct(m4, t, c1);
    GIndclKeepsOther(g1, t, c2, c1);
    GIndclDistinct(g1, t, c2);
  }

  /** Freeing end 2 of w keeps that numbering. */
  lemma FreedNumbering(m: seq<Segment>, w: nat, t: nat, clnum: nat)
    requires w < |m| && t < |m| && w != t && m[w].cl != Dec(clnum)
    ensures var l := Labelled(m, w, t, clnum, false);
      var d := l[w := l[w].(nn := l[w].nn[2 := 0])];
      Dense(d, t, m[w].cl) && Dense(d, t, Dec(clnum))
  {
    var l := Labelled(m, w, t, clnum, false);
    var d := l[w := l[w].(nn := l[w].nn[2 := 0])];
    LabelledNumbering(m, w, t, clnum);
    assert TablesOnly(l, d);
    DenseTables(l, d, t, m[w].cl);
    DenseTables(l, d, t, Dec(clnum));
  }

  /** d is what the division leaves of m: w holds its first a edges and
      t = |m| the rest (by network index), with w's end-2 neighbours; end 2
      of w is free; t lies in w's cluster when w lay on a cycle and in
      cluster clnum - 1 otherwise; every other segment keeps its edges,
      counts and cluster; the edge total is kept. */
  ghost predicate DividedFrom(m: seq<Segment>, d: seq<Segment>, w: nat, a: nat, clnum: nat, inCycle: bool)
    requires 1 <= w < |m| && a <= |m[w].g|
  {
    var t := |m|;
    |d| == t + 1 &&
    Inds(d[w].g) == Inds(m[w].g[..a]) && Inds(d[t].g) == Inds(m[w].g[a..]) &&
    d[w].nn[1] == m[w].nn[1] && d[w].nn[2] == 0 && d[t].nn[1] == 0 && d[t].nn[2] == m[w].nn[2] &&
    d[w].cl == m[w].cl && d[t].cl == (if inCycle then m[w].cl else Dec(clnum)) &&
    (forall i :: 1 <= i <= m[w].nn[2] ==> SlotRedirected(Entry(m[w], 2, i), Entry(d[t], 2, i), w, 2, t, 2)) &&
    (forall k :: 1 <= k < t && k != w ==>
       Inds(d[k].g) == Inds(m[k].g) && d[k].nn == m[k].nn && d[k].cl == m[k].cl)
  }

  lemma DividedFacts(m: seq<Segment>, n: nat, h: seq<Segment>, l: seq<Segment>, w: nat, a: nat, clnum: nat, inCycle: bool)
    requires 1 <= w < |m| && a <= |m[w].g| && |m| == n + 1
    requires HandedFrom(m, h, w, a) && LabelledFrom(h, l, w, |m|, clnum, inCycle)
    requires Mass(h, n + 1) == Mass(m, n)
    ensures DividedFrom(m, l[w := l[w].(nn := l[w].nn[2 := 0])], w, a, clnum, inCycle)
    ensures Mass(l[w := l[w].(nn := l[w].nn[2 := 0])], n + 1) == Mass(m, n)
  {
    var t := |m|;
    var d := l[w := l[w].(nn := l[w].nn[2 := 0])];
    MassFrame(h, l, t);
    MassUpdate(l, t, w, d[w]);
    assert l[t] == h[t].(g := l[t].g, cl := l[t].cl);
  }

  /** The self-loop check of fiss2: each of end 1 of w and end 2 of t has
      one neighbour, the other.  A slot lookup that finds no neighbour
      fails the check. */
  predicate SelfLooped(m: seq<Segment>, w: nat, t: nat)
    requires w < |m| && t < |m|
  {
    var i, j := m[t].SingleNeigIndex(2), m[w].SingleNeigIndex(1);
    m[w].nn[1] == 1 && m[t].nn[2] == 1 &&
    i < MaxDegree && m[t].neig[2][i] == w && j < MaxDegree && m[w].neig[1][j] == t
  }

  /** The end of fiss2, from the divided state d: if w was a segment
      looped into itself, the two pieces are fused back into one linear
      segment (`fuse_parallel(w, t)`); when the removal of their link
      leaves either end linked, fuse_parallel's precondition fails and that
      is reported as an exit.  The returned ids are the clusters of w and
      of the last segment. */
  function Rejoined(d: State, v: seq<nat>, w: nat): (r: Outcome)
    requires d.Good() && 1 <= w < d.mtnum
    requires d.mt[w].nn[2] == 0 && d.mt[d.mtnum].nn[1] == 0
    ensures RejoinedFrom(d, v, w, r)
  {
    var t := d.mtnum;
    if SelfLooped(d.mt, w, t) then
      var m := NeigsUpdated(d.mt, w, 1, 1, 2, 0, 0, true);
      LinkRemovalKeepsFarEnds(d.mt, w, t);
      if m[w].nn[1] == 0 && m[t].nn[2] == 0 then FusedBack(d, m, v, w)
      else Exit("fuse_parallel: an end to fuse is not free")
    else Done(Split(d, v, d.mt[w].cl, d.mt[t].cl))
  }

  /** `fuse_parallel(w, t)` on the pieces w, t of a self-loop whose link
      has been removed (leaving m): one segment at w. */
  function FusedBack(d: State, m: seq<Segment>, v: seq<nat>, w: nat): (r: Outcome)
    requires d.Good() && 1 <= w < d.mtnum && TablesOnly(d.mt, m)
    requires m[w].nn[1] == 0 && m[w].nn[2] == 0 && m[d.mtnum].nn[1] == 0 && m[d.mtnum].nn[2] == 0
    ensures r.Done? && r.split.s.mtnum + 1 == d.mtnum && r.split.vis == v
    ensures Holds(r.split.s, w, Inds(d.mt[d.mtnum].g) + Inds(d.mt[w].g), 0, 0)
    ensures Mass(r.split.s.mt, r.split.s.mtnum) == Mass(d.mt, d.mtnum)
  {
    var t := d.mtnum;
    var st := State(m, t, d.clnum);
    var fused := FusedParallel(st, w, t).0;
    FusedParallelMeaning(st, w, t);
    MassFrame(d.mt, m, t);
    Done(Split(fused, v, fused.mt[w].cl, fused.mt[fused.mtnum].cl))
  }

  /** `fiss2(w, a)`: w keeps its first a edges, a new segment takes the
      rest (see Opened, Divided and Rejoined). */
  function Fissioned2(s: State, vis: seq<nat>, w: nat, a: nat): (r: Outcome)
    requires s.Good() && Linked(s.mt, s.mtnum) && 1 <= w <= s.mtnum && 0 < a < |s.mt[w].g|
    ensures r.Done? ==>
      r.split.s.Good() && (r.split.s.mtnum == s.mtnum + 1 || r.split.s.mtnum == s.mtnum)
  {
    var op := Opened(s, vis, w);
    Rejoined(Divided(op.0, w, a, op.2), op.1, w)
  }

  /** The first step of fiss2. */
  method Open(s: State, vis: seq<nat>, w: nat) returns (st: State, v: seq<nat>, inCycle: bool)
    requires s.Good() && Linked(s.mt, s.mtnum) && 1 <= w <= s.mtnum
    ensures (st, v, inCycle) == Opened(s, vis, w)
  {
    st, v, inCycle := s, vis, false;
    if s.mt[w].nn[2] != 0 {
      st, v, inCycle := UpdateClFiss(s, vis, w, 2);
    } else {
      st := s.(clnum := s.clnum + 1);
    }
  }

  /** `mt.emplace_back(msgr)` and the move of the edges from position a
      on into the new segment. */
  method Detach(m: seq<Segment>, w: nat, a: nat) returns (mt: seq<Segment>)
    requires 1 <= w < |m| && a <= |m[w].g|
    ensures mt == Detached(m, w, a)
  {
    var t, g := |m|, m[w].g;
    mt := m + [MockSegment(0)];
    mt := mt[t := mt[t].(g := g[a..])];
    mt := mt[w := mt[w].(g := g[..a])];
  }

  /** The division of fiss2, up to the self-loop check. */
  method Divide(st: State, w: nat, a: nat, inCycle: bool) returns (d: State)
    requires st.Good() && 1 <= w <= st.mtnum && a <= |st.mt[w].g|
    ensures d == Divided(st, w, a, inCycle)
  {
    var t := st.mtnum + 1;
    var mt := Hand(st.mt, w, a);
    mt := Label(mt, w, t, st.clnum, inCycle);
    mt := mt[w := mt[w].(nn := mt[w].nn[2 := 0])];
    d := State(mt, t, st.clnum);
  }

  /** The new segment t takes end 2 of w's neighbours. */
  method Hand(m: seq<Segment>, w: nat, a: nat) returns (mt: seq<Segment>)
    requires 1 <= w < |m| && a <= |m[w].g|
    ensures mt == Handed(m, w, a)
  {
    var t := |m|;
    mt := Detach(m, w, a);
    mt := mt[t := mt[t].(nn := mt[t].nn[1 := 0])];
    mt := CopyNeigs(mt, w, 2, t, 2);
  }

  /** t's cluster, and the renumbering of both clusters when they differ. */
  method Label(m: seq<Segment>, w: nat, t: nat, clnum: nat, inCycle: bool) returns (mt: seq<Segment>)
    requires w < |m| && t < |m|
    ensures mt == Labelled(m, w, t, clnum, inCycle)
  {
    mt := m[t := m[t].(cl := if inCycle then m[w].cl else Dec(clnum))];
    if !inCycle {
      mt := UpdateGIndcl(mt, t, mt[w].cl);
      mt := UpdateGIndcl(mt, t, Dec(clnum));
    }
  }

  /** The self-loop check and fusion of fiss2. */
  method Rejoin(d: State, v: seq<nat>, w: nat) returns (r: Outcome)
    requires d.Good() && 1 <= w < d.mtnum
    requires d.mt[w].nn[2] == 0 && d.mt[d.mtnum].nn[1] == 0
    ensures r == Rejoined(d, v, w)
  {
    var mt, t := d.mt, d.mtnum;
    var i := FindSingleNeigIndex(mt[t], 2);
    var j := FindSingleNeigIndex(mt[w], 1);
    if mt[w].nn[1] == 1 && mt[t].nn[2] == 1 &&
       i < MaxDegree && mt[t].neig[2][i] == w && j < MaxDegree && mt[w].neig[1][j] == t {
      mt := UpdateNeigs(mt, w, 1, 1, 1, 0, 0, true);
      if mt[w].nn[1] != 0 || mt[t].nn[2] != 0 {
        return Exit("fuse_parallel: an end to fuse is not free");
      }
      var fused, _, _ := FuseParallel(State(mt, t, d.clnum), w, t);
      return Done(Split(fused, v, fused.mt[w].cl, fused.mt[fused.mtnum].cl));
    }
    r := Done(Split(d, v, mt[w].cl, mt[t].cl));
  }

  /** `fiss2(w, a)`. */
  method Fiss2(s: State, vis: seq<nat>, w: nat, a: nat) returns (r: Outcome)
    requires s.Good() && Linked(s.mt, s.mtnum) && 1 <= w <= s.mtnum && 0 < a < |s.mt[w].g|
    ensures r == Fissioned2(s, vis, w, a)
  {
    var st, v, inCycle := Open(s, vis, w);
    var d := Divide(st, w, a, inCycle);
    r := Rejoin(d, v, w);
  }

  /** Freeing the self-link of a looped segment leaves the two far ends
      as they were: free. */
  lemma LinkRemovalKeepsFarEnds(m: seq<Segment>, w: nat, t: nat)
    requires 1 <= w < |m| && t < |m| && w != t && SelfLooped(m, w, t)
    requires m[w].nn[2] == 0 && m[t].nn[1] == 0
    ensures var r := NeigsUpdated(m, w, 1, 1, 2, 0, 0, true);
      r[w].nn[2] == 0 && r[t].nn[1] == 0
  {
    assert NeigsUpdated(m, w, 1, 1, 2, 0, 0, true) == UpdateNeigsStep(m, w, 1, 1, 0, 0, true);
    assert m[w].neig[1][1] == t;
  }

  /** The outcomes of the self-loop check from the divided state d: d
      itself when there is no self-loop; an exit only on a self-loop; and
      on a fused self-loop one segment fewer, w holding t's edges followed
      by its own, both ends free, and the edge total kept. */
  ghost predicate RejoinedFrom(d: State, v: seq<nat>, w: nat, r: Outcome)
  {
    d.Good() && 1 <= w < d.mtnum &&
    var t := d.mtnum;
    (r.Exit? ==> d.mt[w].nn[1] == 1 && d.mt[t].nn[2] == 1) &&
    (r.Done? && r.split.s.mtnum == t ==> r.split == Split(d, v, d.mt[w].cl, d.mt[t].cl)) &&
    (r.Done? && r.split.s.mtnum != t ==>
       r.split.s.mtnum + 1 == t && r.split.vis == v &&
       d.mt[w].nn[1] == 1 && d.mt[t].nn[2] == 1 &&
       Holds(r.split.s, w, Inds(d.mt[t].g) + Inds(d.mt[w].g), 0, 0) &&
       Mass(r.split.s.mt, r.split.s.mtnum) == Mass(d.mt, t))
  }

  /** The first step of fiss2 moves edges between clusters only: every
      segment keeps its edges (by network index) and its neighbours, w is
      untouched, the edge total is kept and every cluster id stays below
      the count.  When w lay on a cycle nothing changes; otherwise a new
      cluster clnum is counted, holding the neighbours at end 2 of w. */
  ghost predicate OpenedFrom(s: State, o: State, cyc: bool, w: nat)
  {
    s.Good() && Linked(s.mt, s.mtnum) && o.Good() && o.mtnum == s.mtnum && 1 <= w <= s.mtnum &&
    var n := s.mtnum;
    o.mt[w] == s.mt[w] && Mass(o.mt, n) == Mass(s.mt, n) && ClustersBelow(o.mt, n, o.clnum) &&
    (forall k :: 1 <= k <= n ==>
       Inds(o.mt[k].g) == Inds(s.mt[k].g) && o.mt[k].nn == s.mt[k].nn &&
       (k != w && o.mt[k].cl != s.clnum ==> o.mt[k].cl == s.mt[k].cl)) &&
    (cyc ==> o == s && Leads(s.mt, n, (w, 2), (w, 1), w)) &&
    (!cyc ==>
       o.clnum == s.clnum + 1 && s.mt[w].cl < s.clnum &&
       forall j :: 1 <= j <= s.mt[w].nn[2] && s.mt[w].neig[2][j] != w ==>
         o.mt[s.mt[w].neig[2][j]].cl == s.clnum)
  }

  lemma OpenedMeaning(s: State, vis: seq<nat>, w: nat)
    requires s.Good() && Linked(s.mt, s.mtnum) && ClustersBelow(s.mt, s.mtnum, s.clnum)
    requires 1 <= w <= s.mtnum
    ensures var op := Opened(s, vis, w); OpenedFrom(s, op.0, op.2, w)
  {
    if s.mt[w].nn[2] != 0 {
      ClusterCutCycle(s, vis, w, 2);
      ClusterCutRegroups(s, vis, w, 2);
      ClusterCutNumbering(s, vis, w, 2);
      ClusterCutTakesNeighbours(s, vis, w, 2);
    }
  }

  /** The three stages of fiss2, each described by what it does. */
  ghost predicate Staged(s: State, o: State, cyc: bool, d: State, v: seq<nat>, w: nat, a: nat, r: Outcome)
  {
    OpenedFrom(s, o, cyc, w) && 0 < a < |s.mt[w].g| &&
    d.Good() && d.mtnum == o.mtnum + 1 && d.clnum == o.clnum &&
    DividedFrom(o.mt, d.mt, w, a, o.clnum, cyc) && Mass(d.mt, d.mtnum) == Mass(o.mt, o.mtnum) &&
    (!cyc && o.mt[w].cl != Dec(o.clnum) ==>
       Dense(d.mt, d.mtnum, o.mt[w].cl) && Dense(d.mt, d.mtnum, Dec(o.clnum))) &&
    RejoinedFrom(d, v, w, r)
  }

  lemma Fissioned2Staged(s: State, vis: seq<nat>, w: nat, a: nat)
    requires s.Good() && Linked(s.mt, s.mtnum) && ClustersBelow(s.mt, s.mtnum, s.clnum)
    requires 1 <= w <= s.mtnum && 0 < a < |s.mt[w].g|
    ensures var op := Opened(s, vis, w);
      Staged(s, op.0, op.2, Divided(op.0, w, a, op.2), op.1, w, a, Fissioned2(s, vis, w, a))
  {
    var op := Opened(s, vis, w);
    OpenedMeaning(s, vis, w);
    var d := Divided(op.0, w, a, op.2);
  }

  /** fiss2 keeps the edge total, whatever the outcome. */
  lemma Fissioned2KeepsMass(s: State, vis: seq<nat>, w: nat, a: nat)
    requires s.Good() && Linked(s.mt, s.mtnum) && ClustersBelow(s.mt, s.mtnum, s.clnum)
    requires 1 <= w <= s.mtnum && 0 < a < |s.mt[w].g|
    ensures var r := Fissioned2(s, vis, w, a);
      r.Done? ==> Mass(r.split.s.mt, r.split.s.mtnum) == Mass(s.mt, s.mtnum)
  {
    var op := Opened(s, vis, w);
    Fissioned2Staged(s, vis, w, a);
    StagedKeepsMass(s, op.0, op.2, Divided(op.0, w, a, op.2), op.1, w, a, Fissioned2(s, vis, w, a));
  }

  lemma StagedKeepsMass(s: State, o: State, cyc: bool, d: State, v: seq<nat>, w: nat, a: nat, r: Outcome)
    requires Staged(s, o, cyc, d, v, w, a, r)
    ensures r.Done? ==> Mass(r.split.s.mt, r.split.s.mtnum) == Mass(s.mt, s.mtnum)
  {
  }

  /** Without a self-loop, fiss2 divides w: w keeps its first a edges and
      its end-1 neighbours, the new segment t takes the rest of the edges
      and w's end-2 neighbours (a reference to end 2 of w becoming one to
      end 2 of t), end 2 of w and end 1 of t are free, and every other
      segment keeps its edges and neighbour counts. */
  lemma Fissioned2Divides(s: State, vis: seq<nat>, w: nat, a: nat)
    requires s.Good() && Linked(s.mt, s.mtnum) && ClustersBelow(s.mt, s.mtnum, s.clnum)
    requires 1 <= w <= s.mtnum && 0 < a < |s.mt[w].g|
    ensures var r := Fissioned2(s, vis, w, a);
      r.Done? && r.split.s.mtnum == s.mtnum + 1 ==> Divides(s, r.split.s, w, a)
  {
    var op := Opened(s, vis, w);
    Fissioned2Staged(s, vis, w, a);
    StagedDivides(s, op.0, op.2, Divided(op.0, w, a, op.2), op.1, w, a, Fissioned2(s, vis, w, a));
  }

  /** r is s with w divided at position a into w and t = mtnum + 1. */
  ghost predicate Divides(s: State, r: State, w: nat, a: nat)
    requires s.Good() && 1 <= w <= s.mtnum && a <= |s.mt[w].g|
  {
    var n, t, g := s.mtnum, s.mtnum + 1, s.mt[w].g;
    r.Good() && r.mtnum == t &&
    var m := r.mt;
    Inds(m[w].g) == Inds(g[..a]) && Inds(m[t].g) == Inds(g[a..]) &&
    m[w].nn[1] == s.mt[w].nn[1] && m[w].nn[2] == 0 && m[t].nn[1] == 0 && m[t].nn[2] == s.mt[w].nn[2] &&
    (forall i :: 1 <= i <= s.mt[w].nn[2] ==> SlotRedirected(Entry(s.mt[w], 2, i), Entry(m[t], 2, i), w, 2, t, 2)) &&
    (forall k :: 1 <= k <= n && k != w ==> Inds(m[k].g) == Inds(s.mt[k].g) && m[k].nn == s.mt[k].nn)
  }

  lemma StagedDivides(s: State, o: State, cyc: bool, d: State, v: seq<nat>, w: nat, a: nat, r: Outcome)
    requires Staged(s, o, cyc, d, v, w, a, r)
    ensures r.Done? && r.split.s.mtnum == s.mtnum + 1 ==> Divides(s, r.split.s, w, a)
  {
  }

  /** Without a self-loop, the pieces' clusters: when w lay on a cycle
      (end 2 of w leads back to end 1) both pieces stay in w's cluster;
      otherwise the new piece and w's end-2 neighbours form the new
      cluster clnum, and both clusters are numbered densely.  Every
      cluster id stays below the count. */
  lemma Fissioned2Clusters(s: State, vis: seq<nat>, w: nat, a: nat)
    requires s.Good() && Linked(s.mt, s.mtnum) && ClustersBelow(s.mt, s.mtnum, s.clnum)
    requires 1 <= w <= s.mtnum && 0 < a < |s.mt[w].g|
    ensures var r := Fissioned2(s, vis, w, a);
      r.Done? && r.split.s.mtnum == s.mtnum + 1 ==> Clustered(s, r.split, w)
  {
    var op := Opened(s, vis, w);
    Fissioned2Staged(s, vis, w, a);
    StagedClusters(s, op.0, op.2, Divided(op.0, w, a, op.2), op.1, w, a, Fissioned2(s, vis, w, a));
  }

  /** The clusters of the pieces w and t = mtnum + 1 of a division. */
  ghost predicate Clustered(s: State, sp: Split, w: nat)
    requires s.Good() && Linked(s.mt, s.mtnum) && 1 <= w <= s.mtnum
  {
    var n, t := s.mtnum, s.mtnum + 1;
    sp.s.Good() && sp.s.mtnum == t &&
    sp.cl1 == s.mt[w].cl && sp.cl1 == sp.s.mt[w].cl && sp.cl2 == sp.s.mt[t].cl &&
    ClustersBelow(sp.s.mt, t, sp.s.clnum) &&
    (sp.s.clnum == s.clnum ==> sp.cl2 == sp.cl1 && Leads(s.mt, n, (w, 2), (w, 1), w)) &&
    (sp.s.clnum != s.clnum ==>
       sp.s.clnum == s.clnum + 1 && sp.cl2 == s.clnum &&
       Dense(sp.s.mt, t, sp.cl1) && Dense(sp.s.mt, t, sp.cl2) &&
       (forall j :: 1 <= j <= s.mt[w].nn[2] && s.mt[w].neig[2][j] != w ==>
          sp.s.mt[s.mt[w].neig[2][j]].cl == sp.cl2) &&
       (forall k :: 1 <= k <= n && k != w && sp.s.mt[k].cl != sp.cl2 ==> sp.s.mt[k].cl == s.mt[k].cl))
  }

  lemma StagedClusters(s: State, o: State, cyc: bool, d: State, v: seq<nat>, w: nat, a: nat, r: Outcome)
    requires Staged(s, o, cyc, d, v, w, a, r)
    ensures r.Done? && r.split.s.mtnum == s.mtnum + 1 ==> Clustered(s, r.split, w)
  {
  }

  /** On a self-loop fused back, w is one linear segment holding its
      edges from position a on followed by those before a, with both ends
      free; an exit happens only when w had one neighbour at each end. */
  lemma Fissioned2Rejoins(s: State, vis: seq<nat>, w: nat, a: nat)
    requires s.Good() && Linked(s.mt, s.mtnum) && ClustersBelow(s.mt, s.mtnum, s.clnum)
    requires 1 <= w <= s.mtnum && 0 < a < |s.mt[w].g|
    ensures var r := Fissioned2(s, vis, w, a);
      var g := s.mt[w].g;
      (r.Exit? ==> s.mt[w].nn[1] == 1 && s.mt[w].nn[2] == 1) &&
      (r.Done? && r.split.s.mtnum != s.mtnum + 1 ==>
         r.split.s.mtnum == s.mtnum && s.mt[w].nn[1] == 1 && s.mt[w].nn[2] == 1 &&
         Holds(r.split.s, w, Inds(g[a..]) + Inds(g[..a]), 0, 0))
  {
    var op := Opened(s, vis, w);
    Fissioned2Staged(s, vis, w, a);
    StagedRejoins(s, op.0, op.2, Divided(op.0, w, a, op.2), op.1, w, a, Fissioned2(s, vis, w, a));
  }

  lemma StagedRejoins(s: State, o: State, cyc: bool, d: State, v: seq<nat>, w: nat, a: nat, r: Outcome)
    requires Staged(s, o, cyc, d, v, w, a, r)
    ensures var g := s.mt[w].g;
      (r.Exit? ==> s.mt[w].nn[1] == 1 && s.mt[w].nn[2] == 1) &&
      (r.Done? && r.split.s.mtnum != s.mtnum + 1 ==>
         r.split.s.mtnum == s.mtnum && s.mt[w].nn[1] == 1 && s.mt[w].nn[2] == 1 &&
         Holds(r.split.s, w, Inds(g[a..]) + Inds(g[..a]), 0, 0))
  {
  }

  /** fiss2 on the single lone segment of length L of a network: two lone
      segments in two clusters (0 and 1), with 4 free ends and L - 2
      nodes of degree 2. */
  lemma Fissioned2LoneSegment(s: State, vis: seq<nat>, a: nat)
    requires s.Good() && s.mtnum == 1 && s.clnum == 1 && s.mt[1].cl == 0
    requires s.mt[1].nn[1] == 0 && s.mt[1].nn[2] == 0 && 0 < a < |s.mt[1].g|
    ensures Linked(s.mt, 1) && ClustersBelow(s.mt, 1, 1)
    ensures var r := Fissioned2(s, vis, 1, a);
      r.Done? && r.split.s.mtnum == 2 && r.split.s.clnum == 2 &&
      r.split.cl1 == 0 && r.split.cl2 == 1 &&
      Mass(r.split.s.mt, 2) == |s.mt[1].g| &&
      NodeNumbers(r.split.s.mt, 2) == [4, |s.mt[1].g| - 2, 0]
  {
    var r := Fissioned2(s, vis, 1, a);
    Fissioned2Rejoins(s, vis, 1, a);
    Fissioned2KeepsMass(s, vis, 1, a);
    Fissioned2Divides(s, vis, 1, a);
    Fissioned2Clusters(s, vis, 1, a);
    var m := r.split.s.mt;
    assert |m[1].g| == |Inds(m[1].g)| == a;
    assert |m[2].g| == |Inds(m[2].g)| == |s.mt[1].g| - a;
    LoneSegmentsNodes(m, 2);
  }
}
