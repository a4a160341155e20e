/*
  The low-level network transformations of the CoreTransformer layer:
  neighbour-table surgery (update_neigs, copy_neigs, rename_mito), cluster
  relabelling (update_mtcl_fuse, update_cl_fuse, update_cl, update_gIndcl)
  and the two end-to-end fusions of distinct segments (fuse_parallel,
  fuse_antiparallel).

  The segment vector is a value (seq<Segment>); each operation that edits
  it in place is a method returning the edited vector, proved equal to a
  function of the vector it was given, and the operations that also change
  the segment or cluster counts are methods on the Network.
*/
module CoreTransformer {
  import opened Edges
  import opened Segments
  import opened Structure

  // ---------------------------------------------------------------------
  // Neighbour slots

  /** The neighbour recorded in slot i of end e: (segment, end). */
  function Entry(s: Segment, e: nat, i: nat): (nat, nat)
    requires (e == 1 || e == 2) && i < MaxDegree
  {
    (s.neig[e][i], s.neen[e][i])
  }

  /** The live neighbours of end e: slots 1..nn[e]. */
  function Live(s: Segment, e: nat): (r: seq<(nat, nat)>)
    requires e == 1 || e == 2
    ensures |r| == s.nn[e]
    ensures forall k :: 0 <= k < |r| ==> r[k] == Entry(s, e, k + 1)
  {
    seq(s.nn[e], k requires 0 <= k < s.nn[e] => Entry(s, e, k + 1))
  }

  /** Slot i of end e now records (w, we). */
  function SetSlot(s: Segment, e: nat, i: nat, w: nat, we: nat): (r: Segment)
    requires (e == 1 || e == 2) && i < MaxDegree
    ensures r.g == s.g && r.cl == s.cl && r.nn == s.nn
  {
    var row: seq<nat>, ends: seq<nat> := s.neig[e][i := w], s.neen[e][i := we];
    s.(neig := s.neig[e := row], neen := s.neen[e := ends])
  }

  /** The removal in update_neigs: slot i of end e takes the last live
      entry, and the count drops by one. */
  function RemoveSlot(s: Segment, e: nat, i: nat): (r: Segment)
    requires (e == 1 || e == 2) && i < MaxDegree && s.nn[e] >= 1
    ensures r.g == s.g && r.cl == s.cl
  {
    var last := s.nn[e];
    SetSlot(s, e, i, s.neig[e][last], s.neen[e][last]).(nn := s.nn[e := last - 1])
  }

  /** Writing a slot changes that slot only. */
  lemma SetSlotMeaning(s: Segment, e: nat, i: nat, w: nat, we: nat)
    requires (e == 1 || e == 2) && i < MaxDegree
    ensures var r := SetSlot(s, e, i, w, we);
      r.g == s.g && r.cl == s.cl && r.nn == s.nn &&
      Entry(r, e, i) == (w, we) &&
      (forall e2, i2 :: (e2 == 1 || e2 == 2) && 0 <= i2 < MaxDegree && (e2 != e || i2 != i) ==>
         Entry(r, e2, i2) == Entry(s, e2, i2))
  {
  }

  /** Removal moves the last live entry of end e into slot i. */
  lemma RemoveSlotEntries(s: Segment, e: nat, i: nat)
    requires (e == 1 || e == 2) && i < MaxDegree && s.nn[e] >= 1
    ensures var r := RemoveSlot(s, e, i);
      r.g == s.g && r.cl == s.cl && r.nn[e] + 1 == s.nn[e] && r.nn[Opposite(e)] == s.nn[Opposite(e)] &&
      Entry(r, e, i) == Entry(s, e, s.nn[e]) &&
      (forall e2, i2 :: (e2 == 1 || e2 == 2) && 0 <= i2 < MaxDegree && (e2 != e || i2 != i) ==>
         Entry(r, e2, i2) == Entry(s, e2, i2))
  {
  }

  /** The live rows of end e before and after the removal of slot i. */
  lemma RemoveSlotRows(s: Segment, e: nat, i: nat)
    requires (e == 1 || e == 2) && 1 <= i <= s.nn[e]
    ensures var r, a, b := RemoveSlot(s, e, i), Entry(s, e, 1), Entry(s, e, s.nn[e]);
      Live(s, e) == (if s.nn[e] == 1 then [a] else [a, b]) &&
      Live(r, e) == (if s.nn[e] == 1 then [] else if i == 1 then [b] else [a]) &&
      Live(r, Opposite(e)) == Live(s, Opposite(e))
  {
    RemoveSlotEntries(s, e, i);
  }

  /** Removing live slot i of end e removes exactly that neighbour: the
      other live neighbours stay (as a multiset), the other end is
      untouched. */
  lemma RemoveSlotMeaning(s: Segment, e: nat, i: nat)
    requires (e == 1 || e == 2) && 1 <= i <= s.nn[e]
    ensures var r := RemoveSlot(s, e, i);
      r.g == s.g && r.cl == s.cl && r.nn[e] + 1 == s.nn[e] &&
      multiset(Live(r, e)) + multiset{Entry(s, e, i)} == multiset(Live(s, e)) &&
      Live(r, Opposite(e)) == Live(s, Opposite(e))
  {
    RemoveSlotEntries(s, e, i);
    RemoveSlotRows(s, e, i);
    var a, b := Entry(s, e, 1), Entry(s, e, s.nn[e]);
    if s.nn[e] == 2 {
      PairMultiset(a, b);
    }
  }

  lemma PairMultiset<T>(a: T, b: T)
    ensures multiset([a]) + multiset{b} == multiset([a, b])
    ensures multiset([b]) + multiset{a} == multiset([a, b])
  {
    assert [a, b] == [a] + [b];
  }

  // ---------------------------------------------------------------------
  // The back-reference search of update_neigs

  /** The first live slot from i onwards of end e recording (w, we), or 0
      when there is none. */
  function FirstSlotFrom(s: Segment, e: nat, w: nat, we: nat, i: nat): (r: nat)
    requires (e == 1 || e == 2) && 1 <= i
    ensures r == 0 || i <= r <= s.nn[e]
    decreases s.nn[e] + 1 - i
  {
    if i > s.nn[e] then 0
    else if Entry(s, e, i) == (w, we) then i
    else FirstSlotFrom(s, e, w, we, i + 1)
  }

  /** The slot of end e of s that records (w, we), or 0 when none does. */
  function BackRef(s: Segment, e: nat, w: nat, we: nat): (r: nat)
    requires e == 1 || e == 2
    ensures r == 0 || 1 <= r <= s.nn[e]
  {
    FirstSlotFrom(s, e, w, we, 1)
  }

  lemma {:induction false} FirstSlotFromMeaning(s: Segment, e: nat, w: nat, we: nat, i: nat)
    requires (e == 1 || e == 2) && 1 <= i
    ensures var r := FirstSlotFrom(s, e, w, we, i);
      (r == 0 <==> forall k :: i <= k <= s.nn[e] ==> Entry(s, e, k) != (w, we)) &&
      (r != 0 ==> i <= r <= s.nn[e] && Entry(s, e, r) == (w, we) &&
                  forall k :: i <= k < r ==> Entry(s, e, k) != (w, we))
    decreases s.nn[e] + 1 - i
  {
    if i <= s.nn[e] && Entry(s, e, i) != (w, we) {
      FirstSlotFromMeaning(s, e, w, we, i + 1);
    }
  }

  /** BackRef finds the first live slot recording (w, we), and reports 0
      exactly when no live slot does. */
  lemma BackRefMeaning(s: Segment, e: nat, w: nat, we: nat)
    requires e == 1 || e == 2
    ensures var r := BackRef(s, e, w, we);
      (r == 0 <==> forall k :: 1 <= k <= s.nn[e] ==> Entry(s, e, k) != (w, we)) &&
      (r != 0 ==> 1 <= r <= s.nn[e] && Entry(s, e, r) == (w, we) &&
                  forall k :: 1 <= k < r ==> Entry(s, e, k) != (w, we))
  {
    FirstSlotFromMeaning(s, e, w, we, 1);
  }

  /** The search loop of update_neigs.  The source steps past nn[e] (its
      check is compiled out) when the neighbour does not record the
      segment; here the search stops and reports 0. */
  method FindBackRef(s: Segment, e: nat, w: nat, we: nat) returns (i: nat)
    requires e == 1 || e == 2
    ensures i == BackRef(s, e, w, we)
  {
    var row, ends, n := s.neig[e], s.neen[e], s.nn[e];
    i := 1;
    while i <= n && (row[i], ends[i]) != (w, we)
      invariant 1 <= i <= n + 1 && n < |row| && n < |ends|
      invariant FirstSlotFrom(s, e, w, we, i) == BackRef(s, e, w, we)
      decreases n + 1 - i
    {
      i := i + 1;
    }
    if i > n {
      i := 0;
    }
  }

  // ---------------------------------------------------------------------
  // update_neigs

  /** One pass of the loop of `update_neigs` for slot j of end oend of
      segment oldn.  The neighbour (cn, ce) recorded there is looked up; in
      removal mode the link is removed on both sides, otherwise cn's back
      reference is redirected to (newn, nend).  A slot naming no real
      segment end, a neighbour not recording oldn, or (in removal mode) an
      end already emptied is skipped: the source reads out of range there. */
  function UpdateNeigsStep(m: seq<Segment>, oldn: nat, oend: nat, j: nat,
                           newn: nat, nend: nat, remove: bool): (r: seq<Segment>)
    requires oldn < |m| && (oend == 1 || oend == 2) && j < MaxDegree
    ensures TablesOnly(m, r)
  {
    var cn, ce := m[oldn].neig[oend][j], m[oldn].neen[oend][j];
    if cn < |m| && (ce == 1 || ce == 2) then
      var i := BackRef(m[cn], ce, oldn, oend);
      if i == 0 then m
      else if remove then
        var m1 := m[cn := RemoveSlot(m[cn], ce, i)];
        if m1[oldn].nn[oend] == 0 then m1 else m1[oldn := RemoveSlot(m1[oldn], oend, j)]
      else m[cn := SetSlot(m[cn], ce, i, newn, nend)]
    else m
  }

  /** The segments after `update_neigs` has handled slots n1..j-1. */
  function NeigsUpdated(m: seq<Segment>, oldn: nat, oend: nat, n1: nat, j: nat,
                        newn: nat, nend: nat, remove: bool): (r: seq<Segment>)
    requires oldn < |m| && (oend == 1 || oend == 2) && j <= MaxDegree
    ensures TablesOnly(m, r)
    decreases j
  {
    if j <= n1 then m
    else
      var prev := NeigsUpdated(m, oldn, oend, n1, j - 1, newn, nend, remove);
      var next := UpdateNeigsStep(prev, oldn, oend, j - 1, newn, nend, remove);
      TablesOnlyTrans(m, prev, next);
      next
  }

  /** The body of the loop of `update_neigs` for slot j. */
  method UpdateNeigsSlot(m: seq<Segment>, oldn: nat, oend: nat, j: nat,
                         newn: nat, nend: nat, remove: bool) returns (r: seq<Segment>)
    requires oldn < |m| && (oend == 1 || oend == 2) && j < MaxDegree
    ensures r == UpdateNeigsStep(m, oldn, oend, j, newn, nend, remove)
  {
    r := m;
    var cn, ce := r[oldn].neig[oend][j], r[oldn].neen[oend][j];
    if cn < |r| && (ce == 1 || ce == 2) {
      var i := FindBackRef(r[cn], ce, oldn, oend);
      if i != 0 {
        if remove {
          r := r[cn := RemoveSlot(r[cn], ce, i)];
          if r[oldn].nn[oend] != 0 {
            r := r[oldn := RemoveSlot(r[oldn], oend, j)];
          }
        } else {
          r := r[cn := SetSlot(r[cn], ce, i, newn, nend)];
        }
      }
    }
  }

  /** `update_neigs(oldn, oend, n1, n2, newn, nend, removefromneigs)`. */
  method UpdateNeigs(m: seq<Segment>, oldn: nat, oend: nat, n1: nat, n2: nat,
                     newn: nat, nend: nat, remove: bool) returns (r: seq<Segment>)
    requires oldn < |m| && (oend == 1 || oend == 2) && n2 < MaxDegree
    ensures r == NeigsUpdated(m, oldn, oend, n1, n2 + 1, newn, nend, remove)
  {
    r := m;
    if n1 <= n2 {
      var j := n1;
      while j <= n2
        invariant n1 <= j <= n2 + 1
        invariant r == NeigsUpdated(m, oldn, oend, n1, j, newn, nend, remove)
      {
        r := UpdateNeigsSlot(r, oldn, oend, j, newn, nend, remove);
        assert r == NeigsUpdated(m, oldn, oend, n1, j + 1, newn, nend, remove);
        j := j + 1;
      }
    }
  }

  /** Only the neighbour tables and counts of m and r differ. */
  predicate TablesOnly(m: seq<Segment>, r: seq<Segment>)
  {
    |r| == |m| && forall k :: 0 <= k < |m| ==> r[k].g == m[k].g && r[k].cl == m[k].cl
  }

  /** Slot contents b is a unchanged, or a was (f, fe) and b is (t, te). */
  predicate SlotRedirected(a: (nat, nat), b: (nat, nat), f: nat, fe: nat, t: nat, te: nat)
  {
    b == a || (a == (f, fe) && b == (t, te))
  }

  /** b is segment a with some references to end fe of segment f redirected
      to end te of segment t: every slot is unchanged or held (f, fe) and
      now holds (t, te); counts, edges and cluster id are unchanged. */
  predicate SegRedirected(a: Segment, b: Segment, f: nat, fe: nat, t: nat, te: nat)
  {
    b.g == a.g && b.cl == a.cl && b.nn == a.nn &&
    forall e, i :: 1 <= e <= 2 && 0 <= i < MaxDegree ==>
      SlotRedirected(Entry(a, e, i), Entry(b, e, i), f, fe, t, te)
  }

  /** Every segment of r is its counterpart in m with some references to
      (f, fe) redirected to (t, te). */
  predicate Redirected(m: seq<Segment>, r: seq<Segment>, f: nat, fe: nat, t: nat, te: nat)
  {
    |r| == |m| && forall k :: 0 <= k < |m| ==> SegRedirected(m[k], r[k], f, fe, t, te)
  }

  lemma TablesOnlyTrans(m0: seq<Segment>, m1: seq<Segment>, m2: seq<Segment>)
    requires TablesOnly(m0, m1) && TablesOnly(m1, m2)
    ensures TablesOnly(m0, m2)
  {
    forall k | 0 <= k < |m0|
      ensures m2[k].g == m0[k].g && m2[k].cl == m0[k].cl
    {
      assert m1[k].g == m0[k].g && m1[k].cl == m0[k].cl;
    }
  }

  lemma SegRedirectedTrans(a: Segment, b: Segment, c: Segment, f: nat, fe: nat, t: nat, te: nat)
    requires SegRedirected(a, b, f, fe, t, te) && SegRedirected(b, c, f, fe, t, te)
    ensures SegRedirected(a, c, f, fe, t, te)
  {
    forall e, i | 1 <= e <= 2 && 0 <= i < MaxDegree
      ensures SlotRedirected(Entry(a, e, i), Entry(c, e, i), f, fe, t, te)
    {
      assert SlotRedirected(Entry(a, e, i), Entry(b, e, i), f, fe, t, te);
      assert SlotRedirected(Entry(b, e, i), Entry(c, e, i), f, fe, t, te);
    }
  }

  /** Redirecting the same end twice is one redirection. */
  lemma RedirectedTrans(m0: seq<Segment>, m1: seq<Segment>, m2: seq<Segment>, f: nat, fe: nat, t: nat, te: nat)
    requires Redirected(m0, m1, f, fe, t, te) && Redirected(m1, m2, f, fe, t, te)
    ensures Redirected(m0, m2, f, fe, t, te)
  {
    forall k | 0 <= k < |m0|
      ensures SegRedirected(m0[k], m2[k], f, fe, t, te)
    {
      SegRedirectedTrans(m0[k], m1[k], m2[k], f, fe, t, te);
    }
  }

  lemma RedirectedRefl(m: seq<Segment>, f: nat, fe: nat, t: nat, te: nat)
    ensures Redirected(m, m, f, fe, t, te)
  {
    forall k | 0 <= k < |m|
      ensures SegRedirected(m[k], m[k], f, fe, t, te)
    {
    }
  }

  /** A step without removal redirects at most one back reference to
      (oldn, oend) onto (newn, nend), and a back reference it finds is
      redirected. */
  lemma UpdateNeigsStepRedirects(m: seq<Segment>, oldn: nat, oend: nat, j: nat, newn: nat, nend: nat)
    requires oldn < |m| && (oend == 1 || oend == 2) && j < MaxDegree
    ensures var r := UpdateNeigsStep(m, oldn, oend, j, newn, nend, false);
      Redirected(m, r, oldn, oend, newn, nend) &&
      var (cn, ce) := Entry(m[oldn], oend, j);
      (cn < |m| && (ce == 1 || ce == 2) && BackRef(m[cn], ce, oldn, oend) != 0 ==>
         Entry(r[cn], ce, BackRef(m[cn], ce, oldn, oend)) == (newn, nend))
  {
    var cn, ce := m[oldn].neig[oend][j], m[oldn].neen[oend][j];
    var r := UpdateNeigsStep(m, oldn, oend, j, newn, nend, false);
    if cn < |m| && (ce == 1 || ce == 2) && BackRef(m[cn], ce, oldn, oend) != 0 {
      var i := BackRef(m[cn], ce, oldn, oend);
      BackRefMeaning(m[cn], ce, oldn, oend);
      SetSlotMeaning(m[cn], ce, i, newn, nend);
      assert SegRedirected(m[cn], r[cn], oldn, oend, newn, nend);
      forall k | 0 <= k < |m| && k != cn
        ensures SegRedirected(m[k], r[k], oldn, oend, newn, nend)
      {
        assert r[k] == m[k];
      }
    } else {
      RedirectedRefl(m, oldn, oend, newn, nend);
    }
  }

  /** Without removal, update_neigs only redirects back references from
      (oldn, oend) to (newn, nend): counts, edges and cluster ids stay. */
  lemma {:induction false} NeigsUpdatedRedirects(m: seq<Segment>, oldn: nat, oend: nat, n1: nat, j: nat,
                                                newn: nat, nend: nat)
    requires oldn < |m| && (oend == 1 || oend == 2) && j <= MaxDegree
    ensures Redirected(m, NeigsUpdated(m, oldn, oend, n1, j, newn, nend, false), oldn, oend, newn, nend)
    decreases j
  {
    if j > n1 {
      var prev := NeigsUpdated(m, oldn, oend, n1, j - 1, newn, nend, false);
      var next := NeigsUpdated(m, oldn, oend, n1, j, newn, nend, false);
      NeigsUpdatedRedirects(m, oldn, oend, n1, j - 1, newn, nend);
      UpdateNeigsStepRedirects(prev, oldn, oend, j - 1, newn, nend);
      RedirectedTrans(m, prev, next, oldn, oend, newn, nend);
    } else {
      RedirectedRefl(m, oldn, oend, newn, nend);
    }
  }
  /** No live slot of end e of s records (w, we). */
  predicate Unrecorded(s: Segment, e: nat, w: nat, we: nat)
    requires e == 1 || e == 2
  {
    forall k :: 1 <= k <= s.nn[e] ==> Entry(s, e, k) != (w, we)
  }

  /** At most one live slot of end e of s records (w, we). */
  predicate RecordedAtMostOnce(s: Segment, e: nat, w: nat, we: nat)
    requires e == 1 || e == 2
  {
    forall a, b :: (1 <= a <= s.nn[e] && 1 <= b <= s.nn[e] &&
                    Entry(s, e, a) == (w, we) && Entry(s, e, b) == (w, we)) ==> a == b
  }

  /** A redirection away from (f, fe) never adds a live slot recording
      (f, fe). */
  lemma RedirectedKeepsUnrecorded(a: Segment, b: Segment, e: nat, f: nat, fe: nat, t: nat, te: nat)
    requires (e == 1 || e == 2) && SegRedirected(a, b, f, fe, t, te) && (t, te) != (f, fe)
    ensures Unrecorded(a, e, f, fe) ==> Unrecorded(b, e, f, fe)
    ensures RecordedAtMostOnce(a, e, f, fe) ==> RecordedAtMostOnce(b, e, f, fe)
  {
    forall k | 1 <= k <= b.nn[e] && Entry(b, e, k) == (f, fe)
      ensures Entry(a, e, k) == (f, fe)
    {
      assert SlotRedirected(Entry(a, e, k), Entry(b, e, k), f, fe, t, te);
    }
  }

  /** The neighbour recorded in slot k of end oend of oldn in m, if it is
      an end of a segment, records (oldn, oend) in no live slot of r. */
  predicate ClearedAt(m: seq<Segment>, r: seq<Segment>, oldn: nat, oend: nat, k: nat)
    requires oldn < |m| && |r| == |m| && (oend == 1 || oend == 2) && k < MaxDegree
  {
    var (cn, ce) := Entry(m[oldn], oend, k);
    cn < |m| && (ce == 1 || ce == 2) ==> Unrecorded(r[cn], ce, oldn, oend)
  }

  /** The neighbour recorded in slot k of end oend of oldn, if it is an end
      of a segment, records (oldn, oend) at most once. */
  predicate OnceAt(m: seq<Segment>, oldn: nat, oend: nat, k: nat)
    requires oldn < |m| && (oend == 1 || oend == 2) && k < MaxDegree
  {
    var (cn, ce) := Entry(m[oldn], oend, k);
    cn < |m| && (ce == 1 || ce == 2) ==> RecordedAtMostOnce(m[cn], ce, oldn, oend)
  }

  /** A step without removal leaves the neighbour it handles with no live
      back reference to (oldn, oend), when that neighbour recorded it at
      most once. */
  lemma UpdateNeigsStepClears(m: seq<Segment>, oldn: nat, oend: nat, j: nat, newn: nat, nend: nat)
    requires oldn < |m| && (oend == 1 || oend == 2) && j < MaxDegree && (newn, nend) != (oldn, oend)
    requires OnceAt(m, oldn, oend, j)
    ensures ClearedAt(m, UpdateNeigsStep(m, oldn, oend, j, newn, nend, false), oldn, oend, j)
  {
    var r := UpdateNeigsStep(m, oldn, oend, j, newn, nend, false);
    var (cn, ce) := Entry(m[oldn], oend, j);
    if cn < |m| && (ce == 1 || ce == 2) {
      var i := BackRef(m[cn], ce, oldn, oend);
      BackRefMeaning(m[cn], ce, oldn, oend);
      if i != 0 {
        SetSlotMeaning(m[cn], ce, i, newn, nend);
        assert r[cn] == SetSlot(m[cn], ce, i, newn, nend);
      }
    }
  }

  /** Two redirections away from (oldn, oend) keep slot k of (oldn, oend)
      when it does not name (oldn, oend) itself, and keep its neighbour's
      single or absent back reference so. */
  lemma RedirectedCarries(m: seq<Segment>, prev: seq<Segment>, next: seq<Segment>,
                          oldn: nat, oend: nat, k: nat, newn: nat, nend: nat)
    requires oldn < |m| && (oend == 1 || oend == 2) && k < MaxDegree && (newn, nend) != (oldn, oend)
    requires Redirected(m, prev, oldn, oend, newn, nend) && Redirected(prev, next, oldn, oend, newn, nend)
    requires Entry(m[oldn], oend, k) != (oldn, oend) && OnceAt(m, oldn, oend, k)
    ensures Entry(prev[oldn], oend, k) == Entry(m[oldn], oend, k)
    ensures OnceAt(prev, oldn, oend, k)
    ensures ClearedAt(m, prev, oldn, oend, k) ==> ClearedAt(m, next, oldn, oend, k)
  {
    assert SegRedirected(m[oldn], prev[oldn], oldn, oend, newn, nend);
    assert SlotRedirected(Entry(m[oldn], oend, k), Entry(prev[oldn], oend, k), oldn, oend, newn, nend);
    var (dn, de) := Entry(m[oldn], oend, k);
    if dn < |m| && (de == 1 || de == 2) {
      RedirectedKeepsUnrecorded(m[dn], prev[dn], de, oldn, oend, newn, nend);
      RedirectedKeepsUnrecorded(prev[dn], next[dn], de, oldn, oend, newn, nend);
    }
  }

  /** Without removal, and when the handled slots of (oldn, oend) neither
      name (oldn, oend) itself nor a neighbour recording it twice,
      update_neigs leaves no live back reference to (oldn, oend) in any
      neighbour it handled. */
  lemma {:induction false} NeigsUpdatedClears(m: seq<Segment>, oldn: nat, oend: nat, n1: nat, j: nat,
                                             newn: nat, nend: nat)
    requires oldn < |m| && (oend == 1 || oend == 2) && j <= MaxDegree && (newn, nend) != (oldn, oend)
    requires forall k :: n1 <= k < j ==> Entry(m[oldn], oend, k) != (oldn, oend)
    requires forall k :: n1 <= k < j ==> OnceAt(m, oldn, oend, k)
    ensures forall k :: n1 <= k < j ==>
      ClearedAt(m, NeigsUpdated(m, oldn, oend, n1, j, newn, nend, false), oldn, oend, k)
    decreases j
  {
    if j > n1 {
      var prev := NeigsUpdated(m, oldn, oend, n1, j - 1, newn, nend, false);
      NeigsUpdatedClears(m, oldn, oend, n1, j - 1, newn, nend);
      NeigsUpdatedRedirects(m, oldn, oend, n1, j - 1, newn, nend);
      NeigsUpdatedClearsStep(m, prev, oldn, oend, n1, j, newn, nend);
    }
  }

  /** The inductive step of NeigsUpdatedClears: the slots before j - 1
      stay cleared and the step for slot j - 1 clears its neighbour. */
  lemma NeigsUpdatedClearsStep(m: seq<Segment>, prev: seq<Segment>, oldn: nat, oend: nat, n1: nat, j: nat,
                               newn: nat, nend: nat)
    requires oldn < |m| && (oend == 1 || oend == 2) && n1 < j <= MaxDegree && (newn, nend) != (oldn, oend)
    requires forall k :: n1 <= k < j ==> Entry(m[oldn], oend, k) != (oldn, oend)
    requires forall k :: n1 <= k < j ==> OnceAt(m, oldn, oend, k)
    requires Redirected(m, prev, oldn, oend, newn, nend)
    requires forall k :: n1 <= k < j - 1 ==> ClearedAt(m, prev, oldn, oend, k)
    ensures var next := UpdateNeigsStep(prev, oldn, oend, j - 1, newn, nend, false);
      forall k :: n1 <= k < j ==> ClearedAt(m, next, oldn, oend, k)
  {
    var next := UpdateNeigsStep(prev, oldn, oend, j - 1, newn, nend, false);
    UpdateNeigsStepRedirects(prev, oldn, oend, j - 1, newn, nend);
    forall k | n1 <= k < j
      ensures Entry(prev[oldn], oend, k) == Entry(m[oldn], oend, k)
      ensures OnceAt(prev, oldn, oend, k)
      ensures ClearedAt(m, prev, oldn, oend, k) ==> ClearedAt(m, next, oldn, oend, k)
    {
      RedirectedCarries(m, prev, next, oldn, oend, k, newn, nend);
    }
    UpdateNeigsStepClears(prev, oldn, oend, j - 1, newn, nend);
  }

  /** With removal, a step that finds the back reference removes the link
      on both sides: each end loses exactly the other as a neighbour, and
      no other segment changes. */
  lemma UpdateNeigsStepRemoves(m: seq<Segment>, oldn: nat, oend: nat, j: nat)
    requires oldn < |m| && (oend == 1 || oend == 2) && 1 <= j <= m[oldn].nn[oend]
    requires var (cn, ce) := Entry(m[oldn], oend, j);
      cn < |m| && (ce == 1 || ce == 2) && cn != oldn && BackRef(m[cn], ce, oldn, oend) != 0
    ensures var (cn, ce) := Entry(m[oldn], oend, j);
      var r := UpdateNeigsStep(m, oldn, oend, j, 0, 0, true);
      TablesOnly(m, r) &&
      r[cn].nn[ce] + 1 == m[cn].nn[ce] && r[oldn].nn[oend] + 1 == m[oldn].nn[oend] &&
      multiset(Live(r[cn], ce)) + multiset{(oldn, oend)} == multiset(Live(m[cn], ce)) &&
      multiset(Live(r[oldn], oend)) + multiset{(cn, ce)} == multiset(Live(m[oldn], oend)) &&
      (forall k :: 0 <= k < |m| && k != cn && k != oldn ==> r[k] == m[k])
  {
    var cn, ce := m[oldn].neig[oend][j], m[oldn].neen[oend][j];
    var i := BackRef(m[cn], ce, oldn, oend);
    BackRefMeaning(m[cn], ce, oldn, oend);
    RemoveSlotMeaning(m[cn], ce, i);
    RemoveSlotMeaning(m[oldn], oend, j);
  }

  // ---------------------------------------------------------------------
  // copy_neigs

  /** The copy loop of `copy_neigs(f, ef, t, et)`: slots 1..nn of end ef of
      segment f are copied into end et of segment t, whose count becomes
      that of (f, ef); the slots past the count keep what t had. */
  function CopiedEnd(m: seq<Segment>, f: nat, ef: nat, t: nat, et: nat): (r: seq<Segment>)
    requires f < |m| && t < |m| && (ef == 1 || ef == 2) && (et == 1 || et == 2)
    ensures TablesOnly(m, r)
  {
    var n := m[f].nn[ef];
    var row: seq<nat> := seq(MaxDegree, i requires 0 <= i < MaxDegree =>
                               if 1 <= i <= n then m[f].neig[ef][i] else m[t].neig[et][i]);
    var ends: seq<nat> := seq(MaxDegree, i requires 0 <= i < MaxDegree =>
                                if 1 <= i <= n then m[f].neen[ef][i] else m[t].neen[et][i]);
    m[t := m[t].(neig := m[t].neig[et := row], neen := m[t].neen[et := ends], nn := m[t].nn[et := n])]
  }

  /** The target end takes the source end's count and live neighbours; the
      target's other end and every other segment are untouched. */
  lemma CopiedEndMeaning(m: seq<Segment>, f: nat, ef: nat, t: nat, et: nat)
    requires f < |m| && t < |m| && (ef == 1 || ef == 2) && (et == 1 || et == 2)
    ensures var r := CopiedEnd(m, f, ef, t, et);
      r[t].nn[et] == m[f].nn[ef] && Live(r[t], et) == Live(m[f], ef) &&
      r[t].nn[Opposite(et)] == m[t].nn[Opposite(et)] && Live(r[t], Opposite(et)) == Live(m[t], Opposite(et)) &&
      (forall k :: 0 <= k < |m| && k != t ==> r[k] == m[k])
  {
    var r := CopiedEnd(m, f, ef, t, et);
    assert Live(r[t], et) == Live(m[f], ef);
    assert Live(r[t], Opposite(et)) == Live(m[t], Opposite(et));
  }

  /** The whole of `copy_neigs(f, ef, t, et)`: the copy, then the back
      references of the copied neighbours redirected from (f, ef) to
      (t, et). */
  function NeigsCopied(m: seq<Segment>, f: nat, ef: nat, t: nat, et: nat): (r: seq<Segment>)
    requires f < |m| && t < |m| && (ef == 1 || ef == 2) && (et == 1 || et == 2)
    ensures TablesOnly(m, r)
  {
    var m1 := CopiedEnd(m, f, ef, t, et);
    var r := NeigsUpdated(m1, f, ef, 1, m1[f].nn[ef] + 1, t, et, false);
    TablesOnlyTrans(m, m1, r);
    r
  }

  /** `copy_neigs(f, ef, t, et)`. */
  method CopyNeigs(m: seq<Segment>, f: nat, ef: nat, t: nat, et: nat) returns (r: seq<Segment>)
    requires f < |m| && t < |m| && (ef == 1 || ef == 2) && (et == 1 || et == 2)
    ensures r == NeigsCopied(m, f, ef, t, et)
  {
    var n := m[f].nn[ef];
    var row, ends := m[t].neig[et], m[t].neen[et];
    var j := 1;
    while j <= n
      invariant 1 <= j <= n + 1 && |row| == |ends| == MaxDegree
      invariant forall i :: 0 <= i < MaxDegree ==>
        row[i] == (if 1 <= i < j then m[f].neig[ef][i] else m[t].neig[et][i]) &&
        ends[i] == (if 1 <= i < j then m[f].neen[ef][i] else m[t].neen[et][i])
    {
      row := row[j := m[f].neig[ef][j]];
      ends := ends[j := m[f].neen[ef][j]];
      j := j + 1;
    }
    ghost var c := CopiedEnd(m, f, ef, t, et);
    assert row == c[t].neig[et] && ends == c[t].neen[et];
    r := m[t := m[t].(neig := m[t].neig[et := row], neen := m[t].neen[et := ends], nn := m[t].nn[et := n])];
    assert r[t] == c[t];
    r := UpdateNeigs(r, f, ef, 1, r[f].nn[ef], t, et, false);
  }

  /** After `copy_neigs(f, ef, t, et)` every table is the copied one with
      some back references to (f, ef) redirected to (t, et). */
  lemma NeigsCopiedRedirects(m: seq<Segment>, f: nat, ef: nat, t: nat, et: nat)
    requires f < |m| && t < |m| && (ef == 1 || ef == 2) && (et == 1 || et == 2)
    ensures Redirected(CopiedEnd(m, f, ef, t, et), NeigsCopied(m, f, ef, t, et), f, ef, t, et)
  {
    var m1 := CopiedEnd(m, f, ef, t, et);
    NeigsUpdatedRedirects(m1, f, ef, 1, m1[f].nn[ef] + 1, t, et);
  }

  /** The neighbour recorded in live slot k of end ef of f is an end of a
      segment other than f and t, other than (f, ef) itself, and records
      (f, ef) in exactly one live slot. */
  predicate LinkedBack(m: seq<Segment>, f: nat, ef: nat, t: nat, k: nat)
    requires f < |m| && (ef == 1 || ef == 2) && k < MaxDegree
  {
    var (cn, ce) := Entry(m[f], ef, k);
    cn < |m| && (ce == 1 || ce == 2) && cn != t && (cn, ce) != (f, ef) &&
    BackRef(m[cn], ce, f, ef) != 0 && RecordedAtMostOnce(m[cn], ce, f, ef)
  }

  /** The neighbour of live slot k, linked back as above, has its back
      reference to (f, ef) in r replaced by (t, et) and no other. */
  predicate Rewired(m: seq<Segment>, r: seq<Segment>, f: nat, ef: nat, t: nat, et: nat, k: nat)
    requires f < |m| <= |r| && (ef == 1 || ef == 2) && k < MaxDegree
  {
    var (cn, ce) := Entry(m[f], ef, k);
    cn < |m| && (ce == 1 || ce == 2) &&
    Entry(r[cn], ce, BackRef(m[cn], ce, f, ef)) == (t, et) && Unrecorded(r[cn], ce, f, ef)
  }

  /** Back references depend on the neighbour tables and counts only. */
  lemma SameTablesSameBackRefs(a: Segment, b: Segment, e: nat, w: nat, we: nat)
    requires (e == 1 || e == 2) && a.nn == b.nn && a.neig == b.neig && a.neen == b.neen
    ensures BackRef(b, e, w, we) == BackRef(a, e, w, we)
    ensures RecordedAtMostOnce(a, e, w, we) == RecordedAtMostOnce(b, e, w, we)
  {
    forall k | 0 <= k < MaxDegree
      ensures Entry(b, e, k) == Entry(a, e, k)
    {
    }
    BackRefMeaning(a, e, w, we);
    BackRefMeaning(b, e, w, we);
  }

  /** With the tables locally symmetric around end ef of f (every live
      neighbour is linked back), `copy_neigs(f, ef, t, et)` rewires every
      live neighbour: the slot that recorded (f, ef) now records (t, et),
      and no live slot of that end still records (f, ef). */
  lemma NeigsCopiedRewires(m: seq<Segment>, f: nat, ef: nat, t: nat, et: nat)
    requires f < |m| && t < |m| && (ef == 1 || ef == 2) && (et == 1 || et == 2) && f != t
    requires forall k :: 1 <= k <= m[f].nn[ef] ==> LinkedBack(m, f, ef, t, k)
    ensures forall k :: 1 <= k <= m[f].nn[ef] ==> Rewired(m, NeigsCopied(m, f, ef, t, et), f, ef, t, et, k)
  {
    var m1 := CopiedEnd(m, f, ef, t, et);
    var r := NeigsCopied(m, f, ef, t, et);
    CopiedEndMeaning(m, f, ef, t, et);
    forall k | 1 <= k <= m[f].nn[ef]
      ensures OnceAt(m1, f, ef, k) && Entry(m1[f], ef, k) != (f, ef)
    {
      assert LinkedBack(m, f, ef, t, k) && m1[f] == m[f];
      var (cn, ce) := Entry(m[f], ef, k);
      assert m1[cn] == m[cn];
    }
    NeigsUpdatedClears(m1, f, ef, 1, m1[f].nn[ef] + 1, t, et);
    NeigsCopiedRedirects(m, f, ef, t, et);
    forall k | 1 <= k <= m[f].nn[ef]
      ensures Rewired(m, r, f, ef, t, et, k)
    {
      assert ClearedAt(m1, r, f, ef, k) && LinkedBack(m, f, ef, t, k) && m1[f] == m[f];
      var (cn, ce) := Entry(m[f], ef, k);
      assert m1[cn] == m[cn];
      var i := BackRef(m[cn], ce, f, ef);
      BackRefMeaning(m[cn], ce, f, ef);
      assert SegRedirected(m1[cn], r[cn], f, ef, t, et);
      assert SlotRedirected(Entry(m1[cn], ce, i), Entry(r[cn], ce, i), f, ef, t, et);
    }
  }

  // ---------------------------------------------------------------------
  // rename_mito

  /** Slot contents b is a unchanged, or a named some end of segment f and
      b names the same end of segment t. */
  predicate RenamedSlot(a: (nat, nat), b: (nat, nat), f: nat, t: nat)
  {
    b == a || (a.0 == f && b == (t, a.1))
  }

  /** b is segment a with some references to segment f renamed to t. */
  predicate SegRenamed(a: Segment, b: Segment, f: nat, t: nat)
  {
    b.g == a.g && b.cl == a.cl && b.nn == a.nn &&
    forall e, i :: 1 <= e <= 2 && 0 <= i < MaxDegree ==> RenamedSlot(Entry(a, e, i), Entry(b, e, i), f, t)
  }

  lemma SegRedirectedRenamed(a: Segment, b: Segment, f: nat, e: nat, t: nat)
    requires SegRedirected(a, b, f, e, t, e)
    ensures SegRenamed(a, b, f, t)
  {
    forall e2, i | 1 <= e2 <= 2 && 0 <= i < MaxDegree
      ensures RenamedSlot(Entry(a, e2, i), Entry(b, e2, i), f, t)
    {
      assert SlotRedirected(Entry(a, e2, i), Entry(b, e2, i), f, e, t, e);
    }
  }

  lemma SegRenamedTrans(a: Segment, b: Segment, c: Segment, f: nat, t: nat)
    requires f != t && SegRenamed(a, b, f, t) && SegRenamed(b, c, f, t)
    ensures SegRenamed(a, c, f, t)
  {
    forall e, i | 1 <= e <= 2 && 0 <= i < MaxDegree
      ensures RenamedSlot(Entry(a, e, i), Entry(c, e, i), f, t)
    {
      assert RenamedSlot(Entry(a, e, i), Entry(b, e, i), f, t);
      assert RenamedSlot(Entry(b, e, i), Entry(c, e, i), f, t);
    }
  }

  /** `rename_mito(f, t)`: segment t takes f's neighbours (both ends, with
      the neighbours' back references following), f's edges (moved out,
      leaving f empty) and f's cluster id. */
  function RenamedMito(m: seq<Segment>, f: nat, t: nat): (r: seq<Segment>)
    requires f < |m| && t < |m|
    ensures |r| == |m|
  {
    var m1 := NeigsCopied(m, f, 1, t, 1);
    var m2 := NeigsCopied(m1, f, 2, t, 2);
    var m3 := m2[t := m2[t].(g := m2[f].g)][f := m2[f].(g := [])];
    m3[t := m3[t].(cl := m3[f].cl)]
  }

  /** `rename_mito(f, t)`. */
  method RenameMito(m: seq<Segment>, f: nat, t: nat) returns (r: seq<Segment>)
    requires f < |m| && t < |m|
    ensures r == RenamedMito(m, f, t)
  {
    r := CopyNeigs(m, f, 1, t, 1);
    r := CopyNeigs(r, f, 2, t, 2);
    r := r[t := r[t].(g := r[f].g)];
    r := r[f := r[f].(g := [])];
    r := r[t := r[t].(cl := r[f].cl)];
  }

  /** The facts about the tables rename_mito passes through. */
  lemma RenamedMitoSteps(m: seq<Segment>, f: nat, t: nat)
    requires f < |m| && t < |m| && f != t
    ensures var c1 := CopiedEnd(m, f, 1, t, 1);
      var m1 := NeigsCopied(m, f, 1, t, 1);
      var c2 := CopiedEnd(m1, f, 2, t, 2);
      var m2 := NeigsCopied(m1, f, 2, t, 2);
      Live(c1[t], 1) == Live(m[f], 1) && Live(c2[t], 1) == Live(m1[t], 1) &&
      Live(c2[t], 2) == Live(m1[f], 2) &&
      (forall k :: 0 <= k < |m| && k != t ==> c1[k] == m[k] && c2[k] == m1[k]) &&
      Redirected(c1, m1, f, 1, t, 1) && Redirected(c2, m2, f, 2, t, 2)
  {
    var m1 := NeigsCopied(m, f, 1, t, 1);
    CopiedEndMeaning(m, f, 1, t, 1);
    CopiedEndMeaning(m1, f, 2, t, 2);
    NeigsCopiedRedirects(m, f, 1, t, 1);
    NeigsCopiedRedirects(m1, f, 2, t, 2);
  }

  /** Live slot i of end e of f reaches slot i of end e of t, renamed. */
  lemma RenamedMitoSlot(m: seq<Segment>, f: nat, t: nat, e: nat, i: nat)
    requires f < |m| && t < |m| && f != t && 1 <= e <= 2 && 1 <= i <= m[f].nn[e]
    ensures RenamedSlot(Entry(m[f], e, i), Entry(NeigsCopied(NeigsCopied(m, f, 1, t, 1), f, 2, t, 2)[t], e, i), f, t)
    ensures Entry(m[f], e, i).0 != f ==>
      Entry(NeigsCopied(NeigsCopied(m, f, 1, t, 1), f, 2, t, 2)[t], e, i) == Entry(m[f], e, i)
  {
    var c1 := CopiedEnd(m, f, 1, t, 1);
    var m1 := NeigsCopied(m, f, 1, t, 1);
    var c2 := CopiedEnd(m1, f, 2, t, 2);
    var m2 := NeigsCopied(m1, f, 2, t, 2);
    RenamedMitoSteps(m, f, t);
    if e == 1 {
      assert Live(c1[t], 1)[i - 1] == Live(m[f], 1)[i - 1];
      assert Live(c2[t], 1)[i - 1] == Live(m1[t], 1)[i - 1];
      assert SegRedirected(c1[t], m1[t], f, 1, t, 1);
      assert SlotRedirected(Entry(c1[t], 1, i), Entry(m1[t], 1, i), f, 1, t, 1);
      assert SegRedirected(c2[t], m2[t], f, 2, t, 2);
      assert SlotRedirected(Entry(c2[t], 1, i), Entry(m2[t], 1, i), f, 2, t, 2);
    } else {
      assert SegRedirected(c1[f], m1[f], f, 1, t, 1);
      assert SlotRedirected(Entry(c1[f], 2, i), Entry(m1[f], 2, i), f, 1, t, 1);
      assert Live(c2[t], 2)[i - 1] == Live(m1[f], 2)[i - 1];
      assert SegRedirected(c2[t], m2[t], f, 2, t, 2);
      assert SlotRedirected(Entry(c2[t], 2, i), Entry(m2[t], 2, i), f, 2, t, 2);
    }
  }

  /** Segment t becomes segment f under the name t: f's edges, cluster id,
      counts and live neighbours, with every reference to f renamed to t. */
  lemma RenamedMitoTarget(m: seq<Segment>, f: nat, t: nat)
    requires f < |m| && t < |m| && f != t
    ensures var r := RenamedMito(m, f, t);
      r[t].g == m[f].g && r[t].cl == m[f].cl && r[f].g == [] &&
      r[t].nn[1] == m[f].nn[1] && r[t].nn[2] == m[f].nn[2] &&
      (forall e, i :: 1 <= e <= 2 && 1 <= i <= m[f].nn[e] ==>
         RenamedSlot(Entry(m[f], e, i), Entry(r[t], e, i), f, t) &&
         (Entry(m[f], e, i).0 != f ==> Entry(r[t], e, i) == Entry(m[f], e, i)))
  {
    var c1 := CopiedEnd(m, f, 1, t, 1);
    var m1 := NeigsCopied(m, f, 1, t, 1);
    var c2 := CopiedEnd(m1, f, 2, t, 2);
    var m2 := NeigsCopied(m1, f, 2, t, 2);
    var r := RenamedMito(m, f, t);
    assert r[t].g == m2[f].g && r[t].cl == m2[f].cl;
    assert r[t].nn[1] == m[f].nn[1] && r[t].nn[2] == m[f].nn[2] by {
      RenamedMitoSteps(m, f, t);
      assert SegRedirected(c1[f], m1[f], f, 1, t, 1);
      assert SegRedirected(c1[t], m1[t], f, 1, t, 1);
      assert SegRedirected(c2[t], m2[t], f, 2, t, 2);
    }
    forall e, i | 1 <= e <= 2 && 1 <= i <= m[f].nn[e]
      ensures RenamedSlot(Entry(m[f], e, i), Entry(r[t], e, i), f, t) &&
        (Entry(m[f], e, i).0 != f ==> Entry(r[t], e, i) == Entry(m[f], e, i))
    {
      RenamedMitoSlot(m, f, t, e, i);
      assert Entry(r[t], e, i) == Entry(m2[t], e, i);
    }
  }

  /** Every segment other than f and t keeps its edges, cluster id and
      counts, and its references to f are renamed to t. */
  lemma RenamedMitoOthers(m: seq<Segment>, f: nat, t: nat)
    requires f < |m| && t < |m| && f != t
    ensures var r := RenamedMito(m, f, t);
      forall k :: 0 <= k < |m| && k != f && k != t ==> SegRenamed(m[k], r[k], f, t)
  {
    var c1 := CopiedEnd(m, f, 1, t, 1);
    var m1 := NeigsCopied(m, f, 1, t, 1);
    var c2 := CopiedEnd(m1, f, 2, t, 2);
    var m2 := NeigsCopied(m1, f, 2, t, 2);
    var r := RenamedMito(m, f, t);
    RenamedMitoSteps(m, f, t);
    forall k | 0 <= k < |m| && k != f && k != t
      ensures SegRenamed(m[k], r[k], f, t)
    {
      assert SegRedirected(c1[k], m1[k], f, 1, t, 1);
      assert SegRedirected(c2[k], m2[k], f, 2, t, 2);
      SegRedirectedRenamed(c1[k], m1[k], f, 1, t);
      SegRedirectedRenamed(c2[k], m2[k], f, 2, t);
      assert r[k] == m2[k];
      SegRenamedTrans(m[k], m1[k], r[k], f, t);
    }
  }

  /** A redirection from (f, fe) to (t, te) leaves alone the slots that
      record any third end (w, we): the first of them, and whether there is
      at most one or none. */
  lemma RedirectedKeepsOther(a: Segment, b: Segment, e: nat, f: nat, fe: nat, t: nat, te: nat, w: nat, we: nat)
    requires (e == 1 || e == 2) && SegRedirected(a, b, f, fe, t, te)
    requires (w, we) != (f, fe) && (w, we) != (t, te)
    ensures BackRef(b, e, w, we) == BackRef(a, e, w, we)
    ensures RecordedAtMostOnce(a, e, w, we) ==> RecordedAtMostOnce(b, e, w, we)
    ensures Unrecorded(a, e, w, we) ==> Unrecorded(b, e, w, we)
  {
    forall k | 0 <= k < MaxDegree
      ensures Entry(b, e, k) == (w, we) <==> Entry(a, e, k) == (w, we)
    {
      assert SlotRedirected(Entry(a, e, k), Entry(b, e, k), f, fe, t, te);
    }
    BackRefMeaning(a, e, w, we);
    BackRefMeaning(b, e, w, we);
  }

  /** With the tables symmetric around f and no link from f to itself,
      `rename_mito(f, t)` rewires every neighbour of f: at each end of f,
      each live neighbour's back reference to that end of f now names the
      same end of t, and none of its live slots still names that end of f. */
  lemma RenamedMitoRewires(m: seq<Segment>, f: nat, t: nat)
    requires f < |m| && t < |m| && f != t
    requires forall e, k :: 1 <= e <= 2 && 1 <= k <= m[f].nn[e] ==>
      LinkedBack(m, f, e, t, k) && Entry(m[f], e, k).0 != f
    ensures forall e, k :: 1 <= e <= 2 && 1 <= k <= m[f].nn[e] ==>
      Rewired(m, RenamedMito(m, f, t), f, e, t, e, k)
  {
    var m1 := NeigsCopied(m, f, 1, t, 1);
    var m2 := NeigsCopied(m1, f, 2, t, 2);
    var r := RenamedMito(m, f, t);
    RenamedMitoSteps(m, f, t);
    NeigsCopiedRewires(m, f, 1, t, 1);
    assert m1[f].nn[2] == m[f].nn[2] by {
      assert SegRedirected(CopiedEnd(m, f, 1, t, 1)[f], m1[f], f, 1, t, 1);
    }
    forall k | 1 <= k <= m1[f].nn[2]
      ensures LinkedBack(m1, f, 2, t, k) && Entry(m1[f], 2, k) == Entry(m[f], 2, k)
    {
      RenamedMitoSecondLinked(m, f, t, k);
    }
    NeigsCopiedRewires(m1, f, 2, t, 2);
    forall e, k | 1 <= e <= 2 && 1 <= k <= m[f].nn[e]
      ensures Rewired(m, r, f, e, t, e, k)
    {
      assert LinkedBack(m, f, e, t, k);
      if e == 1 {
        assert Rewired(m, m1, f, 1, t, 1, k);
        RenamedMitoFirstKept(m, f, t, k);
      } else {
        RenamedMitoSecondKept(m, f, t, k);
      }
    }
  }

  /** The first copy of rename_mito leaves end 2 of f and its neighbours'
      back references to it as they were. */
  lemma RenamedMitoSecondLinked(m: seq<Segment>, f: nat, t: nat, k: nat)
    requires f < |m| && t < |m| && f != t && 1 <= k <= m[f].nn[2]
    requires LinkedBack(m, f, 2, t, k) && Entry(m[f], 2, k).0 != f
    ensures var m1 := NeigsCopied(m, f, 1, t, 1);
      LinkedBack(m1, f, 2, t, k) && Entry(m1[f], 2, k) == Entry(m[f], 2, k) &&
      var (cn, ce) := Entry(m[f], 2, k);
      BackRef(m1[cn], ce, f, 2) == BackRef(m[cn], ce, f, 2)
  {
    var c1 := CopiedEnd(m, f, 1, t, 1);
    var m1 := NeigsCopied(m, f, 1, t, 1);
    RenamedMitoSteps(m, f, t);
    assert SegRedirected(c1[f], m1[f], f, 1, t, 1);
    assert SlotRedirected(Entry(c1[f], 2, k), Entry(m1[f], 2, k), f, 1, t, 1);
    var (cn, ce) := Entry(m[f], 2, k);
    assert SegRedirected(c1[cn], m1[cn], f, 1, t, 1);
    RedirectedKeepsOther(m[cn], m1[cn], ce, f, 1, t, 1, f, 2);
  }

  /** The second copy of rename_mito keeps what the first did to the
      neighbours of end 1 of f. */
  lemma RenamedMitoFirstKept(m: seq<Segment>, f: nat, t: nat, k: nat)
    requires f < |m| && t < |m| && f != t && 1 <= k <= m[f].nn[1]
    requires LinkedBack(m, f, 1, t, k) && Entry(m[f], 1, k).0 != f
    requires Rewired(m, NeigsCopied(m, f, 1, t, 1), f, 1, t, 1, k)
    ensures Rewired(m, RenamedMito(m, f, t), f, 1, t, 1, k)
  {
    var m1 := NeigsCopied(m, f, 1, t, 1);
    var c2 := CopiedEnd(m1, f, 2, t, 2);
    var m2 := NeigsCopied(m1, f, 2, t, 2);
    var r := RenamedMito(m, f, t);
    RenamedMitoSteps(m, f, t);
    var (cn, ce) := Entry(m[f], 1, k);
    var i := BackRef(m[cn], ce, f, 1);
    assert SegRedirected(c2[cn], m2[cn], f, 2, t, 2);
    assert SlotRedirected(Entry(m1[cn], ce, i), Entry(m2[cn], ce, i), f, 2, t, 2);
    RedirectedKeepsOther(m1[cn], m2[cn], ce, f, 2, t, 2, f, 1);
    assert r[cn] == m2[cn];
  }

  /** What the second copy of rename_mito does to the neighbours of end 2
      of f survives to the end. */
  lemma RenamedMitoSecondKept(m: seq<Segment>, f: nat, t: nat, k: nat)
    requires f < |m| && t < |m| && f != t && 1 <= k <= m[f].nn[2]
    requires LinkedBack(m, f, 2, t, k) && Entry(m[f], 2, k).0 != f
    requires var m1 := NeigsCopied(m, f, 1, t, 1);
      1 <= k <= m1[f].nn[2] && Rewired(m1, NeigsCopied(m1, f, 2, t, 2), f, 2, t, 2, k)
    ensures Rewired(m, RenamedMito(m, f, t), f, 2, t, 2, k)
  {
    var m1 := NeigsCopied(m, f, 1, t, 1);
    var m2 := NeigsCopied(m1, f, 2, t, 2);
    var r := RenamedMito(m, f, t);
    RenamedMitoSecondLinked(m, f, t, k);
    var (cn, ce) := Entry(m[f], 2, k);
    assert r[cn] == m2[cn];
  }

  // ---------------------------------------------------------------------
  // Cluster relabelling

  /** Segments 1..n of cluster `from` move to cluster `to`: `set_cl` on the
      segment only, its edges keep their ids until update_gIndcl. */
  function Relabel(m: seq<Segment>, n: nat, from: nat, to: nat): (r: seq<Segment>)
    requires n == 0 || n < |m|
    ensures |r| == |m|
    ensures forall k :: 0 <= k < |m| ==> r[k] == m[k].(cl := r[k].cl)
  {
    seq(|m|, k requires 0 <= k < |m| => if 1 <= k <= n && m[k].cl == from then m[k].(cl := to) else m[k])
  }

  /** The relabelling loop shared by update_mtcl_fuse and update_cl. */
  method RelabelSegments(m: seq<Segment>, n: nat, from: nat, to: nat) returns (r: seq<Segment>)
    requires n == 0 || n < |m|
    ensures r == Relabel(m, n, from, to)
  {
    r := m;
    var i := 1;
    while i <= n
      invariant 1 <= i <= n + 1 && |r| == |m|
      invariant forall k :: 0 <= k < |m| ==>
        r[k] == if 1 <= k < i && m[k].cl == from then m[k].(cl := to) else m[k]
    {
      if r[i].cl == from {
        r := r[i := r[i].(cl := to)];
      }
      i := i + 1;
    }
  }

  /** Where a cluster id c goes when clusters c1 and c2 merge among clnum
      clusters: c2 joins c1, then the last cluster, clnum - 1, takes the
      freed id c2 (unless c2 was the last). */
  function MergeMap(c: nat, c1: nat, c2: nat, clnum: nat): nat
  {
    var d := if c == c2 then c1 else c;
    if c2 != Dec(clnum) && d == Dec(clnum) then c2 else d
  }

  /** The id that MergeMap sends to d: the last cluster when d is the
      freed id c2, d itself otherwise. */
  function MergeSource(d: nat, c1: nat, c2: nat, clnum: nat): nat
  {
    if d == c2 then Dec(clnum) else d
  }

  /** The merge keeps cluster ids dense: the clnum ids land on 0..clnum-2,
      every id there is reached (from MergeSource), and two ids meet
      exactly when they are equal or are the two merged clusters. */
  lemma MergeMapDense(c1: nat, c2: nat, clnum: nat)
    requires c1 < clnum && c2 < clnum && c1 != c2
    ensures forall c: nat :: c < clnum ==> MergeMap(c, c1, c2, clnum) < clnum - 1
    ensures forall d: nat :: d < clnum - 1 ==>
      MergeSource(d, c1, c2, clnum) < clnum && MergeMap(MergeSource(d, c1, c2, clnum), c1, c2, clnum) == d
    ensures forall c: nat, c': nat :: c < clnum && c' < clnum ==>
      (MergeMap(c, c1, c2, clnum) == MergeMap(c', c1, c2, clnum) <==>
       c == c' || ((c == c1 || c == c2) && (c' == c1 || c' == c2)))
  {
  }

  /** `update_mtcl_fuse(w1, w2)`: the segments (not their edges) of w2's
      cluster join w1's, the last cluster takes w2's freed id, and the
      cluster count drops by one. */
  function MtclFused(m: seq<Segment>, n: nat, clnum: nat, w1: nat, w2: nat): (r: (seq<Segment>, nat))
    requires n < |m| && w1 < |m| && w2 < |m|
    ensures |r.0| == |m|
  {
    var w1cl, w2cl := m[w1].cl, m[w2].cl;
    var m1 := Relabel(m, n, w2cl, w1cl);
    (if w2cl != Dec(clnum) then Relabel(m1, n, Dec(clnum), w2cl) else m1, Dec(clnum))
  }

  /** `update_mtcl_fuse(w1, w2)`. */
  method UpdateMtclFuse(m: seq<Segment>, n: nat, clnum: nat, w1: nat, w2: nat) returns (r: seq<Segment>, rclnum: nat)
    requires n < |m| && w1 < |m| && w2 < |m|
    ensures (r, rclnum) == MtclFused(m, n, clnum, w1, w2)
  {
    var w1cl, w2cl := m[w1].cl, m[w2].cl;
    r := RelabelSegments(m, n, w2cl, w1cl);
    if w2cl != Dec(clnum) {
      r := RelabelSegments(r, n, Dec(clnum), w2cl);
    }
    rclnum := Dec(clnum);
  }

  /** Each live segment's cluster id follows MergeMap; nothing else of any
      segment changes. */
  lemma MtclFusedMeaning(m: seq<Segment>, n: nat, clnum: nat, w1: nat, w2: nat)
    requires n < |m| && w1 < |m| && w2 < |m|
    ensures var (r, rclnum) := MtclFused(m, n, clnum, w1, w2);
      |r| == |m| && rclnum == Dec(clnum) &&
      (forall k :: 1 <= k <= n ==> r[k] == m[k].(cl := MergeMap(m[k].cl, m[w1].cl, m[w2].cl, clnum))) &&
      (forall k :: 0 <= k < |m| && !(1 <= k <= n) ==> r[k] == m[k])
  {
  }

  /** The edges of segment k after `update_gIndcl(c)`: moved to cluster c,
      numbered on from the edges of the earlier segments of c. */
  function Renumbered(m: seq<Segment>, k: nat, c: nat): (r: seq<Edge>)
    requires 1 <= k < |m|
    ensures |r| == |m[k].g|
  {
    Relabelled(m[k].g, c, ClusterMass(m, k - 1, c))
  }

  /** `update_gIndcl(c)`: the edges of the live segments of cluster c are
      given cluster c and consecutive cluster-local indices in segment
      order. */
  function GIndcl(m: seq<Segment>, n: nat, c: nat): (r: seq<Segment>)
    requires n < |m|
    ensures |r| == |m|
  {
    seq(|m|, k requires 0 <= k < |m| =>
          if 1 <= k <= n && m[k].cl == c then m[k].(g := Renumbered(m, k, c)) else m[k])
  }

  /** `update_gIndcl(c)`. */
  method UpdateGIndcl(m: seq<Segment>, n: nat, c: nat) returns (r: seq<Segment>)
    requires n < |m|
    ensures r == GIndcl(m, n, c)
  {
    r := m;
    var indcl := 0;
    var j := 1;
    while j <= n
      invariant 1 <= j <= n + 1 && |r| == |m|
      invariant indcl == ClusterMass(m, j - 1, c)
      invariant forall k :: 0 <= k < |m| ==>
        r[k] == if 1 <= k < j && m[k].cl == c then m[k].(g := Renumbered(m, k, c)) else m[k]
    {
      if r[j].cl == c {
        var s;
        s, indcl := SetGCl(r[j], c, indcl);
        r := r[j := s];
      }
      j := j + 1;
    }
  }

  lemma {:induction false} ClusterMassMonotone(m: seq<Segment>, a: nat, b: nat, c: nat)
    requires a <= b < |m|
    ensures ClusterMass(m, a, c) <= ClusterMass(m, b, c)
    decreases b
  {
    if a < b {
      ClusterMassMonotone(m, a, b - 1, c);
    }
  }

  /** Cluster sizes only see edge counts and segment cluster ids. */
  lemma {:induction false} ClusterMassFrame(m: seq<Segment>, r: seq<Segment>, n: nat, c: nat)
    requires n < |m| && n < |r|
    requires forall k :: 1 <= k <= n ==> |r[k].g| == |m[k].g| && r[k].cl == m[k].cl
    ensures ClusterMass(r, n, c) == ClusterMass(m, n, c)
    ensures SegmentsOf(r, n, c) == SegmentsOf(m, n, c)
  {
    if n > 0 {
      ClusterMassFrame(m, r, n - 1, c);
    }
  }

  /** The live segments of a cluster are listed once each, in order. */
  lemma {:induction false} SegmentsOfIncreasing(m: seq<Segment>, n: nat, c: nat)
    requires n < |m|
    ensures Increasing(SegmentsOf(m, n, c))
  {
    if n > 0 {
      SegmentsOfIncreasing(m, n - 1, c);
      var l := SegmentsOf(m, n - 1, c);
      forall a | 0 <= a < |l|
        ensures l[a] < n
      {
        assert l[a] in l;
      }
    }
  }

  /** Edge i of a renumbered segment k gets the cluster-local index
      ClusterMass(k - 1) + i, which lies below ClusterMass(k). */
  lemma RenumberedIndex(m: seq<Segment>, n: nat, c: nat, k: nat, i: nat)
    requires n < |m| && 1 <= k <= n && m[k].cl == c && i < |m[k].g|
    ensures GIndcl(m, n, c)[k].g[i].indcl == ClusterMass(m, k - 1, c) + i
    ensures ClusterMass(m, k - 1, c) + i < ClusterMass(m, k, c) <= ClusterMass(m, n, c)
  {
    ClusterMassMonotone(m, k, n, c);
  }

  /** `update_gIndcl(c)` touches the edges of the live segments of
      cluster c only, and of those only cluster ids and cluster-local
      indices: they move to cluster c and keep their network indices and
      weights. */
  lemma GIndclFrame(m: seq<Segment>, n: nat, c: nat)
    requires n < |m|
    ensures var r := GIndcl(m, n, c);
      (forall k :: 0 <= k < |m| && !(1 <= k <= n && m[k].cl == c) ==> r[k] == m[k]) &&
      (forall k :: 0 <= k < |m| ==> r[k] == m[k].(g := r[k].g) && |r[k].g| == |m[k].g|) &&
      (forall k, i :: 1 <= k <= n && m[k].cl == c && 0 <= i < |m[k].g| ==>
         r[k].g[i].cl == c && r[k].g[i].ind == m[k].g[i].ind && r[k].g[i].fin == m[k].g[i].fin) &&
      ClusterMass(r, n, c) == ClusterMass(m, n, c) && SegmentsOf(r, n, c) == SegmentsOf(m, n, c)
  {
    ClusterMassFrame(m, GIndcl(m, n, c), n, c);
  }

  /** Distinct edges of the live segments of cluster c get distinct
      indices. */
  lemma RenumberedDistinct(m: seq<Segment>, n: nat, c: nat, s1: nat, k1: nat, s2: nat, k2: nat)
    requires n < |m| && (s1 != s2 || k1 != k2)
    requires 1 <= s1 <= n && m[s1].cl == c && k1 < |m[s1].g|
    requires 1 <= s2 <= n && m[s2].cl == c && k2 < |m[s2].g|
    ensures GIndcl(m, n, c)[s1].g[k1].indcl != GIndcl(m, n, c)[s2].g[k2].indcl
  {
    RenumberedIndex(m, n, c, s1, k1);
    RenumberedIndex(m, n, c, s2, k2);
    if s1 < s2 {
      ClusterMassMonotone(m, s1, s2 - 1, c);
    } else if s2 < s1 {
      ClusterMassMonotone(m, s2, s1 - 1, c);
    }
  }

  /** After `update_gIndcl(c)` the edges of cluster c carry pairwise
      distinct cluster-local indices below the cluster's size: the
      condition under which make_adjacency_list_edges fills the cluster's
      lists. */
  lemma GIndclDistinct(m: seq<Segment>, n: nat, c: nat)
    requires n < |m|
    ensures var r := GIndcl(m, n, c);
      InRange(r, SegmentsOf(r, n, c)) && DistinctIndcls(r, SegmentsOf(r, n, c), ClusterMass(r, n, c))
  {
    var r := GIndcl(m, n, c);
    GIndclFrame(m, n, c);
    var segs := SegmentsOf(m, n, c);
    SegmentsOfIncreasing(m, n, c);
    forall i | 0 <= i < |segs|
      ensures 1 <= segs[i] <= n && m[segs[i]].cl == c
    {
      assert segs[i] in segs;
    }
    forall i, k | 0 <= i < |segs| && 0 <= k < |r[segs[i]].g|
      ensures Indcl(r, segs, i, k) < ClusterMass(m, n, c)
    {
      RenumberedIndex(m, n, c, segs[i], k);
    }
    forall i1, k1, i2, k2 |
      0 <= i1 < |segs| && 0 <= k1 < |r[segs[i1]].g| && 0 <= i2 < |segs| && 0 <= k2 < |r[segs[i2]].g| &&
      (i1 != i2 || k1 != k2)
      ensures Indcl(r, segs, i1, k1) != Indcl(r, segs, i2, k2)
    {
      assert segs[i1] != segs[i2] || k1 != k2;
      RenumberedDistinct(m, n, c, segs[i1], k1, segs[i2], k2);
    }
  }

  /** DistinctIndcls only looks at the listed segments. */
  lemma DistinctIndclsFrame(m: seq<Segment>, r: seq<Segment>, segs: seq<nat>, size: nat)
    requires InRange(m, segs) && |r| == |m| && DistinctIndcls(m, segs, size)
    requires forall i :: 0 <= i < |segs| ==> r[segs[i]] == m[segs[i]]
    ensures InRange(r, segs) && DistinctIndcls(r, segs, size)
  {
    forall i, k | 0 <= i < |segs| && 0 <= k < |r[segs[i]].g|
      ensures Indcl(r, segs, i, k) == Indcl(m, segs, i, k)
    {
    }
  }

  /** Renumbering cluster c' leaves the numbering of another cluster c. */
  lemma GIndclKeepsOther(m: seq<Segment>, n: nat, c': nat, c: nat)
    requires n < |m| && c != c'
    requires InRange(m, SegmentsOf(m, n, c)) && DistinctIndcls(m, SegmentsOf(m, n, c), ClusterMass(m, n, c))
    ensures var r := GIndcl(m, n, c');
      InRange(r, SegmentsOf(r, n, c)) && DistinctIndcls(r, SegmentsOf(r, n, c), ClusterMass(r, n, c))
  {
    var r := GIndcl(m, n, c');
    GIndclFrame(m, n, c');
    ClusterMassFrame(m, r, n, c);
    var segs := SegmentsOf(m, n, c);
    forall i | 0 <= i < |segs|
      ensures r[segs[i]] == m[segs[i]]
    {
      assert segs[i] in segs;
    }
    DistinctIndclsFrame(m, r, segs, ClusterMass(m, n, c));
  }

  /** A cluster's size and segment list only see the segments that are in
      it before or after. */
  lemma {:induction false} ClusterFrame(m: seq<Segment>, r: seq<Segment>, n: nat, c: nat)
    requires n < |m| && n < |r|
    requires forall k :: 1 <= k <= n && (m[k].cl == c || r[k].cl == c) ==> r[k] == m[k]
    ensures ClusterMass(r, n, c) == ClusterMass(m, n, c) && SegmentsOf(r, n, c) == SegmentsOf(m, n, c)
    decreases n
  {
    if n > 0 {
      ClusterFrame(m, r, n - 1, c);
    }
  }

  /** A densely numbered cluster stays so when none of its segments, and
      no segment joining it, changes. */
  lemma DenseFrame(m: seq<Segment>, r: seq<Segment>, n: nat, c: nat)
    requires n < |m| && |r| == |m| && Dense(m, n, c)
    requires forall k :: 1 <= k <= n && (m[k].cl == c || r[k].cl == c) ==> r[k] == m[k]
    ensures Dense(r, n, c)
  {
    ClusterFrame(m, r, n, c);
    var segs := SegmentsOf(m, n, c);
    forall i | 0 <= i < |segs|
      ensures r[segs[i]] == m[segs[i]]
    {
      assert segs[i] in segs;
    }
    DistinctIndclsFrame(m, r, segs, ClusterMass(m, n, c));
  }

  /** `update_cl(cf, ct)`: the live segments of cluster cf move to cluster
      ct, whose edges are then renumbered. */
  function ClMoved(m: seq<Segment>, n: nat, cf: nat, ct: nat): (r: seq<Segment>)
    requires n < |m|
    ensures |r| == |m|
  {
    GIndcl(Relabel(m, n, cf, ct), n, ct)
  }

  /** `update_cl(cf, ct)`. */
  method UpdateCl(m: seq<Segment>, n: nat, cf: nat, ct: nat) returns (r: seq<Segment>)
    requires n < |m|
    ensures r == ClMoved(m, n, cf, ct)
  {
    r := RelabelSegments(m, n, cf, ct);
    r := UpdateGIndcl(r, n, ct);
  }

  /** After `update_cl(cf, ct)` the live segments of cf are in ct, every
      segment keeps its edges (by network index) and counts, the edge total
      is kept, and cluster ct is densely numbered. */
  lemma ClMovedMeaning(m: seq<Segment>, n: nat, cf: nat, ct: nat)
    requires n < |m|
    ensures var r := ClMoved(m, n, cf, ct);
      (forall k :: 1 <= k <= n ==>
        r[k].cl == (if m[k].cl == cf then ct else m[k].cl) && Inds(r[k].g) == Inds(m[k].g) && r[k].nn == m[k].nn) &&
      (forall k :: 0 <= k < |m| && !(1 <= k <= n) ==> r[k] == m[k]) &&
      Mass(r, n) == Mass(m, n) && Dense(r, n, ct)
  {
    var m1 := Relabel(m, n, cf, ct);
    GIndclFrame(m1, n, ct);
    forall k | 1 <= k <= n
      ensures Inds(ClMoved(m, n, cf, ct)[k].g) == Inds(m[k].g)
    {
      GIndclKeeps(m1, n, ct, k);
    }
    GIndclMass(m1, n, ct);
    MassFrame(m, m1, n);
    GIndclDistinct(m1, n, ct);
  }

  /** `update_cl(cf, ct)` leaves the numbering of any third cluster. */
  lemma ClMovedKeepsOther(m: seq<Segment>, n: nat, cf: nat, ct: nat, c: nat)
    requires n < |m| && c != cf && c != ct && Dense(m, n, c)
    ensures Dense(ClMoved(m, n, cf, ct), n, c)
  {
    var m1 := Relabel(m, n, cf, ct);
    DenseFrame(m, m1, n, c);
    GIndclKeepsOther(m1, n, ct, c);
  }

  /** `update_cl_fuse(c1, c2)`: cluster c2 joins c1, the last cluster takes
      the freed id c2 (unless c2 was the last), and the count drops. */
  function ClFused(m: seq<Segment>, n: nat, clnum: nat, c1: nat, c2: nat): (r: (seq<Segment>, nat))
    requires n < |m|
    ensures |r.0| == |m|
  {
    var m1 := ClMoved(m, n, c2, c1);
    (if c2 != Dec(clnum) then ClMoved(m1, n, Dec(clnum), c2) else m1, Dec(clnum))
  }

  /** `update_cl_fuse(c1, c2)`. */
  method UpdateClFuse(m: seq<Segment>, n: nat, clnum: nat, c1: nat, c2: nat) returns (r: seq<Segment>, rclnum: nat)
    requires n < |m|
    ensures (r, rclnum) == ClFused(m, n, clnum, c1, c2)
  {
    r := UpdateCl(m, n, c2, c1);
    if c2 != Dec(clnum) {
      r := UpdateCl(r, n, Dec(clnum), c2);
    }
    rclnum := Dec(clnum);
  }

  /** After `update_cl_fuse(c1, c2)` every live segment's cluster id
      follows MergeMap, edges (by network index) and counts stay, and the
      edge total is kept. */
  lemma ClFusedMeaning(m: seq<Segment>, n: nat, clnum: nat, c1: nat, c2: nat)
    requires n < |m|
    ensures var (r, rclnum) := ClFused(m, n, clnum, c1, c2);
      rclnum == Dec(clnum) &&
      (forall k :: 1 <= k <= n ==>
        r[k].cl == MergeMap(m[k].cl, c1, c2, clnum) && Inds(r[k].g) == Inds(m[k].g) && r[k].nn == m[k].nn) &&
      (forall k :: 0 <= k < |m| && !(1 <= k <= n) ==> r[k] == m[k]) &&
      Mass(r, n) == Mass(m, n)
  {
    var m1 := ClMoved(m, n, c2, c1);
    ClMovedMeaning(m, n, c2, c1);
    if c2 != Dec(clnum) {
      ClMovedMeaning(m1, n, Dec(clnum), c2);
    }
  }

  /** `update_cl_fuse(c1, c2)` changes cluster ids and edges only: every
      segment keeps its neighbour counts and tables. */
  lemma ClFusedTables(m: seq<Segment>, n: nat, clnum: nat, c1: nat, c2: nat)
    requires n < |m|
    ensures var r := ClFused(m, n, clnum, c1, c2).0;
      forall k :: 0 <= k < |m| ==> r[k] == m[k].(g := r[k].g, cl := r[k].cl)
  {
    var m1 := ClMoved(m, n, c2, c1);
    GIndclFrame(Relabel(m, n, c2, c1), n, c1);
    if c2 != Dec(clnum) {
      GIndclFrame(Relabel(m1, n, Dec(clnum), c2), n, c2);
    }
  }

  /** After `update_cl_fuse(c1, c2)` the merged cluster and the one renamed
      to c2 are densely numbered, and so is every other cluster that was. */
  lemma ClFusedNumbering(m: seq<Segment>, n: nat, clnum: nat, c1: nat, c2: nat)
    requires n < |m|
    ensures var r := ClFused(m, n, clnum, c1, c2).0;
      Dense(r, n, MergeMap(c1, c1, c2, clnum)) && (c2 != Dec(clnum) ==> Dense(r, n, c2)) &&
      (forall c :: c != c1 && c != c2 && c != Dec(clnum) && Dense(m, n, c) ==> Dense(r, n, c))
  {
    var last := Dec(clnum);
    var m1 := ClMoved(m, n, c2, c1);
    ClMovedMeaning(m, n, c2, c1);
    forall c | c != c1 && c != c2 && c != last && Dense(m, n, c)
      ensures Dense(m1, n, c)
    {
      ClMovedKeepsOther(m, n, c2, c1, c);
    }
    if c2 != last {
      var r := ClMoved(m1, n, last, c2);
      ClMovedMeaning(m1, n, last, c2);
      forall c | c != c1 && c != c2 && c != last && Dense(m, n, c)
        ensures Dense(r, n, c)
      {
        ClMovedKeepsOther(m1, n, last, c2, c);
      }
      if c1 != last && c1 != c2 {
        ClMovedKeepsOther(m1, n, last, c2, c1);
      }
    }
  }

  // ---------------------------------------------------------------------
  // Fusion of two distinct segments end to end (fuse_parallel,
  // fuse_antiparallel)

  /** The part of the network the transformations edit: the segment
      vector, the number of live segments and the number of clusters. */
  datatype State = State(mt: seq<Segment>, mtnum: nat, clnum: nat)
  {
    /** mt holds the mock segment and mtnum live ones. */
    predicate Good()
    {
      |mt| == mtnum + 1
    }
  }

  /** The network indices of a run of edges, in order. */
  function Inds(g: seq<Edge>): (r: seq<nat>)
    ensures |r| == |g|
  {
    seq(|g|, i requires 0 <= i < |g| => g[i].ind)
  }

  /** A sequence read backwards. */
  function Rev<T>(s: seq<T>): (r: seq<T>)
    ensures |r| == |s|
  {
    seq(|s|, i requires 0 <= i < |s| => s[|s| - 1 - i])
  }

  lemma IndsConcat(a: seq<Edge>, b: seq<Edge>)
    ensures Inds(a + b) == Inds(a) + Inds(b)
  {
    assert forall i :: 0 <= i < |a| + |b| ==> Inds(a + b)[i] == (Inds(a) + Inds(b))[i];
  }

  /** reflect_g reverses the order of the network indices. */
  lemma IndsReflected(g: seq<Edge>)
    ensures Inds(ReflectedEdges(g)) == Rev(Inds(g))
  {
    forall k | 0 <= k < |g|
      ensures Inds(ReflectedEdges(g))[k] == Rev(Inds(g))[k]
    {
      ReflectedEdgesKeepInds(g, |g| - 1 - k);
    }
  }

  lemma {:induction false} MassFrame(m: seq<Segment>, r: seq<Segment>, n: nat)
    requires n < |m| && n < |r|
    requires forall k :: 1 <= k <= n ==> |r[k].g| == |m[k].g|
    ensures Mass(r, n) == Mass(m, n)
  {
    if n > 0 {
      MassFrame(m, r, n - 1);
    }
  }

  lemma {:induction false} MassUpdate(m: seq<Segment>, n: nat, k: nat, s: Segment)
    requires n < |m| && 1 <= k <= n
    ensures Mass(m[k := s], n) + |m[k].g| == Mass(m, n) + |s.g|
  {
    if n > k {
      MassUpdate(m, n - 1, k, s);
    } else {
      MassFrame(m, m[k := s], n - 1);
    }
  }

  /** A cluster id after the merge of cl1 and cl2 among clnum clusters,
      which happens only when the two differ. */
  function Merged(c: nat, cl1: nat, cl2: nat, clnum: nat): nat
  {
    if cl1 != cl2 then MergeMap(c, cl1, cl2, clnum) else c
  }

  /** The segment whose contents end up at k after the tail of a fusion:
      the last one when k is the emptied w2, k itself otherwise. */
  function Origin(k: nat, n: nat, w2: nat): nat
  {
    if k == w2 then n else k
  }

  /** The first half of the common ending of both fusions: the emptied
      segment w2 takes the last segment's place (rename_mito) and the last
      slot is popped. */
  function Popped(m: seq<Segment>, n: nat, w2: nat): (r: seq<Segment>)
    requires |m| == n + 1 && 1 <= w2 <= n
    ensures |r| == n
  {
    (if w2 != n then RenamedMito(m, n, w2) else m)[..n]
  }

  /** The second half: the two clusters involved are renumbered over the
      n live segments of p. */
  function Settled(p: seq<Segment>, n: nat, clnum: nat, cl1: nat, cl2: nat): (r: State)
    requires |p| == n + 1
    ensures r.Good() && r.mtnum == n && r.clnum == clnum
  {
    var m1 := GIndcl(p, n, cl1);
    State(if cl1 != cl2 then GIndcl(m1, n, cl2) else m1, n, clnum)
  }

  /** The common ending of both fusions. */
  function FusionTail(m: seq<Segment>, n: nat, clnum: nat, w2: nat, cl1: nat, cl2: nat): (r: State)
    requires |m| == n + 1 && 1 <= w2 <= n
    ensures r.Good() && r.mtnum + 1 == n && r.clnum == clnum
  {
    Settled(Popped(m, n, w2), n - 1, clnum, cl1, cl2)
  }

  /** The tail of `fuse_parallel` and `fuse_antiparallel`. */
  method FuseTail(m: seq<Segment>, n: nat, clnum: nat, w2: nat, cl1: nat, cl2: nat) returns (r: State)
    requires |m| == n + 1 && 1 <= w2 <= n
    ensures r == FusionTail(m, n, clnum, w2, cl1, cl2)
  {
    var mt := m;
    if w2 != n {
      mt := RenameMito(mt, n, w2);
    }
    mt := mt[..n];
    mt := UpdateGIndcl(mt, n - 1, cl1);
    if cl1 != cl2 {
      mt := UpdateGIndcl(mt, n - 1, cl2);
    }
    r := State(mt, n - 1, clnum);
  }

  /** What popping leaves: live segment k holds what segment Origin(k)
      held (the same edges by network index, cluster id and end counts),
      and once w2 is empty the edge total is kept. */
  ghost predicate PoppedFrom(p: seq<Segment>, m: seq<Segment>, n: nat, w2: nat)
    requires |m| == n + 1 && 1 <= w2 <= n
  {
    |p| == n &&
    (forall k {:trigger Origin(k, n, w2)} :: 1 <= k < n ==>
      var o := m[Origin(k, n, w2)];
      Inds(p[k].g) == Inds(o.g) && p[k].cl == o.cl && p[k].nn[1] == o.nn[1] && p[k].nn[2] == o.nn[2]) &&
    (m[w2].g == [] ==> Mass(p, n - 1) == Mass(m, n))
  }

  lemma PoppedMeaning(m: seq<Segment>, n: nat, w2: nat)
    requires |m| == n + 1 && 1 <= w2 <= n
    ensures PoppedFrom(Popped(m, n, w2), m, n, w2)
  {
    var m1 := if w2 != n then RenamedMito(m, n, w2) else m;
    var p := Popped(m, n, w2);
    forall k | 1 <= k < n
      ensures var o := m[Origin(k, n, w2)];
        Inds(p[k].g) == Inds(o.g) && p[k].cl == o.cl && p[k].nn[1] == o.nn[1] && p[k].nn[2] == o.nn[2]
    {
      PoppedSegment(m, n, w2, k);
    }
    if m[w2].g == [] {
      assert Mass(m1, n) == Mass(m, n) && m1[n].g == [] by {
        if w2 != n {
          RenamedMitoMass(m, n, w2);
        }
      }
      MassFrame(m1, p, n - 1);
      assert Mass(m1, n) == Mass(m1, n - 1) + |m1[n].g|;
    }
  }

  /** Live segment k after popping holds what segment Origin(k) held. */
  lemma PoppedSegment(m: seq<Segment>, n: nat, w2: nat, k: nat)
    requires |m| == n + 1 && 1 <= w2 <= n && 1 <= k < n
    ensures var p, o := Popped(m, n, w2), m[Origin(k, n, w2)];
      Inds(p[k].g) == Inds(o.g) && p[k].cl == o.cl && p[k].nn[1] == o.nn[1] && p[k].nn[2] == o.nn[2]
  {
    if w2 != n {
      var m1 := RenamedMito(m, n, w2);
      if k == w2 {
        RenamedMitoTarget(m, n, w2);
      } else {
        RenamedMitoOthers(m, n, w2);
        assert SegRenamed(m[k], m1[k], n, w2);
      }
    }
  }

  /** Segments that only gain new cluster-local indices keep their edges'
      network indices, cluster ids and counts. */
  lemma GIndclKeeps(m: seq<Segment>, n: nat, c: nat, k: nat)
    requires n < |m| && k < |m|
    ensures var r := GIndcl(m, n, c)[k];
      Inds(r.g) == Inds(m[k].g) && r.cl == m[k].cl && r.nn == m[k].nn
  {
    GIndclFrame(m, n, c);
  }

  /** Renumbering keeps every segment's edges (by network index), cluster
      id and counts. */
  lemma SettledSegments(p: seq<Segment>, n: nat, clnum: nat, cl1: nat, cl2: nat, k: nat)
    requires |p| == n + 1 && k < |p|
    ensures var r := Settled(p, n, clnum, cl1, cl2).mt[k];
      Inds(r.g) == Inds(p[k].g) && r.cl == p[k].cl && r.nn == p[k].nn
  {
    var m1 := GIndcl(p, n, cl1);
    GIndclKeeps(p, n, cl1, k);
    GIndclKeeps(m1, n, cl2, k);
  }

  /** Renaming the last segment into the emptied w2 keeps the total
      number of edges and leaves the last slot empty. */
  lemma RenamedMitoMass(m: seq<Segment>, n: nat, w2: nat)
    requires |m| == n + 1 && 1 <= w2 < n && m[w2].g == []
    ensures var r := RenamedMito(m, n, w2);
      Mass(r, n) == Mass(m, n) && r[n].g == []
  {
    var r := RenamedMito(m, n, w2);
    RenamedMitoTarget(m, n, w2);
    RenamedMitoOthers(m, n, w2);
    var a := m[w2 := m[w2].(g := m[n].g)];
    var b := a[n := a[n].(g := [])];
    MassUpdate(m, n, w2, m[w2].(g := m[n].g));
    MassUpdate(a, n, n, a[n].(g := []));
    forall k | 1 <= k <= n
      ensures |r[k].g| == |b[k].g|
    {
      if k != n && k != w2 {
        assert SegRenamed(m[k], r[k], n, w2);
      }
    }
    MassFrame(b, r, n);
  }

  /** Renumbering keeps the total number of edges. */
  lemma SettledMass(p: seq<Segment>, n: nat, clnum: nat, cl1: nat, cl2: nat)
    requires |p| == n + 1
    ensures Mass(Settled(p, n, clnum, cl1, cl2).mt, n) == Mass(p, n)
  {
    var m1 := GIndcl(p, n, cl1);
    GIndclMass(p, n, cl1);
    if cl1 != cl2 {
      GIndclMass(m1, n, cl2);
    }
  }

  /** Renumbering keeps the total number of edges. */
  lemma GIndclMass(m: seq<Segment>, n: nat, c: nat)
    requires n < |m|
    ensures Mass(GIndcl(m, n, c), n) == Mass(m, n)
  {
    GIndclFrame(m, n, c);
    MassFrame(m, GIndcl(m, n, c), n);
  }

  /** After renumbering, the edges of clusters cl1 and cl2 are numbered
      densely and without repetition within their clusters. */
  lemma SettledNumbering(p: seq<Segment>, n: nat, clnum: nat, cl1: nat, cl2: nat, c: nat)
    requires |p| == n + 1 && (c == cl1 || c == cl2)
    ensures var r := Settled(p, n, clnum, cl1, cl2).mt;
      InRange(r, SegmentsOf(r, n, c)) && DistinctIndcls(r, SegmentsOf(r, n, c), ClusterMass(r, n, c))
  {
    var m1 := GIndcl(p, n, cl1);
    GIndclDistinct(p, n, cl1);
    if cl1 != cl2 {
      GIndclDistinct(m1, n, cl2);
      if c == cl1 {
        GIndclKeepsOther(m1, n, cl2, cl1);
      }
    }
  }

  /** What `copy_neigs(f, ef, t, et)` does to the neighbour counts: end et
      of t takes the count of end ef of f, every other count stays. */
  lemma NeigsCopiedCounts(m: seq<Segment>, f: nat, ef: nat, t: nat, et: nat)
    requires f < |m| && t < |m| && (ef == 1 || ef == 2) && (et == 1 || et == 2)
    ensures var r := NeigsCopied(m, f, ef, t, et);
      r[t].nn[et] == m[f].nn[ef] && r[t].nn[Opposite(et)] == m[t].nn[Opposite(et)] &&
      forall k :: 0 <= k < |m| && k != t ==> r[k].nn == m[k].nn
  {
    var c := CopiedEnd(m, f, ef, t, et);
    var r := NeigsCopied(m, f, ef, t, et);
    CopiedEndMeaning(m, f, ef, t, et);
    NeigsCopiedRedirects(m, f, ef, t, et);
    assert SegRedirected(c[t], r[t], f, ef, t, et);
    forall k | 0 <= k < |m| && k != t
      ensures r[k].nn == m[k].nn
    {
      assert SegRedirected(c[k], r[k], f, ef, t, et);
    }
  }

  /** The cluster step of both fusions: `update_mtcl_fuse(w1, w2)` when w1
      and w2 lie in different clusters, nothing otherwise. */
  function MergeStep(m: seq<Segment>, n: nat, clnum: nat, w1: nat, w2: nat): (r: (seq<Segment>, nat))
    requires n < |m| && w1 < |m| && w2 < |m|
    ensures |r.0| == |m|
  {
    if m[w2].cl != m[w1].cl then MtclFused(m, n, clnum, w1, w2) else (m, clnum)
  }

  /** The configuration both fusions reach after copying neighbours and
      merging clusters: w1 and w2 still hold their edges, w1 lies in the
      merged cluster, and every other live segment keeps its edges and
      counts and has its cluster id merged. */
  ghost predicate Merging(s: State, m: seq<Segment>, clnum: nat, w1: nat, w2: nat)
    requires s.Good() && 1 <= w1 <= s.mtnum && 1 <= w2 <= s.mtnum
  {
    var cl1, cl2 := s.mt[w1].cl, s.mt[w2].cl;
    |m| == |s.mt| && clnum == (if cl1 != cl2 then Dec(s.clnum) else s.clnum) &&
    m[w1].g == s.mt[w1].g && m[w2].g == s.mt[w2].g && m[w1].cl == Merged(cl1, cl1, cl2, s.clnum) &&
    forall k {:trigger s.mt[k]} :: 1 <= k <= s.mtnum && k != w1 && k != w2 ==>
      m[k].g == s.mt[k].g && m[k].nn == s.mt[k].nn && m[k].cl == Merged(s.mt[k].cl, cl1, cl2, s.clnum)
  }

  /** Neighbour copies into w1 followed by the cluster step reach Merging. */
  lemma CopiedMerging(s: State, m1: seq<Segment>, w1: nat, w2: nat)
    requires s.Good() && 1 <= w1 <= s.mtnum && 1 <= w2 <= s.mtnum && w1 != w2
    requires TablesOnly(s.mt, m1)
    requires forall k :: 0 <= k < |m1| && k != w1 ==> m1[k].nn == s.mt[k].nn
    ensures var (m2, clnum) := MergeStep(m1, s.mtnum, s.clnum, w1, w2);
      Merging(s, m2, clnum, w1, w2)
  {
    MtclFusedMeaning(m1, s.mtnum, s.clnum, w1, w2);
  }

  /** Putting the joined edges g into w1 and emptying w2 turns Merging into
      Joined, as long as no edge is lost. */
  lemma GlueJoins(s: State, m: seq<Segment>, clnum: nat, w1: nat, w2: nat, g: seq<Edge>)
    requires s.Good() && 1 <= w1 <= s.mtnum && 1 <= w2 <= s.mtnum && w1 != w2
    requires Merging(s, m, clnum, w1, w2) && |g| == |s.mt[w1].g| + |s.mt[w2].g|
    ensures Joined(s, m[w1 := m[w1].(g := g)][w2 := m[w2].(g := [])], clnum, w1, w2)
  {
    var n := s.mtnum;
    var m4 := m[w1 := m[w1].(g := g)];
    assert Mass(m, n) == Mass(s.mt, n) by {
      MassFrame(s.mt, m, n);
    }
    MassUpdate(m, n, w1, m4[w1]);
    MassUpdate(m4, n, w2, m[w2].(g := []));
  }

  /** fuse_parallel up to its tail: end 1 of w1 takes the neighbours of
      end 1 of w2, the clusters merge if they differ, and w1 takes w2's
      edges followed by its own, leaving w2 empty. */
  function ParallelJoined(s: State, w1: nat, w2: nat): (r: (seq<Segment>, nat))
    requires s.Good() && 1 <= w1 <= s.mtnum && 1 <= w2 <= s.mtnum
    ensures |r.0| == |s.mt|
  {
    var (m2, clnum) := MergeStep(NeigsCopied(s.mt, w2, 1, w1, 1), s.mtnum, s.clnum, w1, w2);
    (m2[w1 := m2[w1].(g := m2[w2].g + m2[w1].g)][w2 := m2[w2].(g := [])], clnum)
  }

  /** `fuse_parallel(w1, w2)`: the new state and the two original cluster
      ids. */
  function FusedParallel(s: State, w1: nat, w2: nat): (r: (State, nat, nat))
    requires s.Good() && 1 <= w1 <= s.mtnum && 1 <= w2 <= s.mtnum
    requires w1 != w2 && s.mt[w1].nn[1] == 0 && s.mt[w2].nn[2] == 0
    ensures r.0.Good() && r.0.mtnum + 1 == s.mtnum
  {
    var (m, clnum) := ParallelJoined(s, w1, w2);
    (FusionTail(m, s.mtnum, clnum, w2, s.mt[w1].cl, s.mt[w2].cl), s.mt[w1].cl, s.mt[w2].cl)
  }

  /** `fuse_parallel(w1, w2)`. */
  method FuseParallel(s: State, w1: nat, w2: nat) returns (r: State, cl1: nat, cl2: nat)
    requires s.Good() && 1 <= w1 <= s.mtnum && 1 <= w2 <= s.mtnum
    requires w1 != w2 && s.mt[w1].nn[1] == 0 && s.mt[w2].nn[2] == 0
    ensures (r, cl1, cl2) == FusedParallel(s, w1, w2)
  {
    cl1, cl2 := s.mt[w1].cl, s.mt[w2].cl;
    var mt := CopyNeigs(s.mt, w2, 1, w1, 1);
    var clnum := s.clnum;
    if mt[w2].cl != mt[w1].cl {
      mt, clnum := UpdateMtclFuse(mt, s.mtnum, clnum, w1, w2);
    }
    mt := mt[w1 := mt[w1].(g := mt[w2].g + mt[w1].g)];
    mt := mt[w2 := mt[w2].(g := [])];
    r := FuseTail(mt, s.mtnum, clnum, w2, cl1, cl2);
  }

  /** The configuration both fusions reach before their common tail: w2
      is empty, w1 lies in the merged cluster, the edge total is kept,
      and every other live segment keeps its edges and counts and has its
      cluster id merged. */
  ghost predicate Joined(s: State, m: seq<Segment>, clnum: nat, w1: nat, w2: nat)
    requires s.Good() && 1 <= w1 <= s.mtnum && 1 <= w2 <= s.mtnum
  {
    var cl1, cl2 := s.mt[w1].cl, s.mt[w2].cl;
    |m| == |s.mt| && clnum == (if cl1 != cl2 then Dec(s.clnum) else s.clnum) &&
    m[w2].g == [] && m[w1].cl == Merged(cl1, cl1, cl2, s.clnum) &&
    Mass(m, s.mtnum) == Mass(s.mt, s.mtnum) &&
    forall k {:trigger s.mt[k]} :: 1 <= k <= s.mtnum && k != w1 && k != w2 ==>
      m[k].g == s.mt[k].g && m[k].nn == s.mt[k].nn && m[k].cl == Merged(s.mt[k].cl, cl1, cl2, s.clnum)
  }

  /** What a fusion of w1 and w2 promises about the state r it leaves,
      apart from the contents of the fused segment: one segment less, and
      the same number of edges, and the promises of FusedCluster and
      FusedOthers. */
  ghost predicate Fused(s: State, r: State, w1: nat, w2: nat)
    requires s.Good() && 1 <= w1 <= s.mtnum && 1 <= w2 <= s.mtnum && w1 != w2
  {
    r.Good() && r.mtnum + 1 == s.mtnum && Mass(r.mt, s.mtnum - 1) == Mass(s.mt, s.mtnum) &&
    FusedCluster(s, r, w1, w2) && FusedOthers(s, r, w1, w2)
  }

  /** One cluster less when two merged, and the fused segment (at w1, or at w2 when w1 was the last) in the merged
      cluster, whose edges are numbered densely. */
  ghost predicate FusedCluster(s: State, r: State, w1: nat, w2: nat)
  {
    s.Good() && 1 <= w1 <= s.mtnum && 1 <= w2 <= s.mtnum && w1 != w2 &&
    r.Good() && r.mtnum + 1 == s.mtnum &&
    var n := s.mtnum;
    var cl1, cl2 := s.mt[w1].cl, s.mt[w2].cl;
    var w := if w1 == n then w2 else w1;
    r.clnum == (if cl1 != cl2 then Dec(s.clnum) else s.clnum) &&
    r.mt[w].cl == Merged(cl1, cl1, cl2, s.clnum) &&
    Dense(r.mt, n - 1, r.mt[w].cl)
  }

  /** Every live segment k other than the fused one holds what segment
      Origin(k) held, with its cluster id merged. */
  ghost predicate FusedOthers(s: State, r: State, w1: nat, w2: nat)
    requires s.Good() && 1 <= w1 <= s.mtnum && 1 <= w2 <= s.mtnum && w1 != w2
    requires r.Good() && r.mtnum + 1 == s.mtnum
  {
    var n := s.mtnum;
    var cl1, cl2 := s.mt[w1].cl, s.mt[w2].cl;
    var w := if w1 == n then w2 else w1;
    forall k {:trigger Origin(k, n, w2)} :: 1 <= k <= r.mtnum && k != w ==>
      var o := s.mt[Origin(k, n, w2)];
      Inds(r.mt[k].g) == Inds(o.g) && r.mt[k].nn[1] == o.nn[1] && r.mt[k].nn[2] == o.nn[2] &&
      r.mt[k].cl == Merged(o.cl, cl1, cl2, s.clnum)
  }

  /** The tail turns a joined configuration into a fused state whose fused
      segment holds what w1 held before the tail. */
  lemma FusionTailFuses(s: State, m: seq<Segment>, clnum: nat, n: nat, w1: nat, w2: nat)
    requires s.Good() && 1 <= w1 <= s.mtnum && 1 <= w2 <= s.mtnum && w1 != w2
    requires n + 1 == s.mtnum && Joined(s, m, clnum, w1, w2)
    ensures var r := FusionTail(m, s.mtnum, clnum, w2, s.mt[w1].cl, s.mt[w2].cl);
      var w := if w1 == s.mtnum then w2 else w1;
      Fused(s, r, w1, w2) &&
      Holds(r, w, Inds(m[w1].g), m[w1].nn[1], m[w1].nn[2])
  {
    var p := Popped(m, s.mtnum, w2);
    assert FusionTail(m, s.mtnum, clnum, w2, s.mt[w1].cl, s.mt[w2].cl) == Settled(p, n, clnum, s.mt[w1].cl, s.mt[w2].cl);
    PoppedMeaning(m, s.mtnum, w2);
    SettledFuses(s, m, p, clnum, n, w1, w2);
  }

  /** FusionTailFuses for any popped sequence p that PoppedFrom describes. */
  lemma SettledFuses(s: State, m: seq<Segment>, p: seq<Segment>, clnum: nat, n: nat, w1: nat, w2: nat)
    requires s.Good() && 1 <= w1 <= s.mtnum && 1 <= w2 <= s.mtnum && w1 != w2
    requires n + 1 == s.mtnum && Joined(s, m, clnum, w1, w2) && PoppedFrom(p, m, s.mtnum, w2)
    ensures var r := Settled(p, n, clnum, s.mt[w1].cl, s.mt[w2].cl);
      var w := if w1 == s.mtnum then w2 else w1;
      Fused(s, r, w1, w2) &&
      Holds(r, w, Inds(m[w1].g), m[w1].nn[1], m[w1].nn[2])
  {
    PoppedPrepared(s, m, p, clnum, w1, w2);
    PreparedFuses(s, m, p, clnum, n, w1, w2);
  }

  /** A joined configuration, popped: what the renumbering needs. */
  lemma PoppedPrepared(s: State, m: seq<Segment>, p: seq<Segment>, clnum: nat, w1: nat, w2: nat)
    requires s.Good() && 1 <= w1 <= s.mtnum && 1 <= w2 <= s.mtnum && w1 != w2
    requires Joined(s, m, clnum, w1, w2) && PoppedFrom(p, m, s.mtnum, w2)
    ensures Prepared(s, m, p, clnum, w1, w2)
  {
    var n := s.mtnum;
    var w := if w1 == n then w2 else w1;
    assert 1 <= w < n && Origin(w, n, w2) == w1;
    PoppedOthersFrom(s, m, p, clnum, w1, w2);
  }

  /** The renumbering half of SettledFuses, over the n = mtnum - 1
      segments that remain. */
  lemma PreparedFuses(s: State, m: seq<Segment>, p: seq<Segment>, clnum: nat, n: nat, w1: nat, w2: nat)
    requires s.Good() && 1 <= w1 <= s.mtnum && 1 <= w2 <= s.mtnum && w1 != w2 && |m| == |s.mt|
    requires n + 1 == s.mtnum && Prepared(s, m, p, clnum, w1, w2)
    ensures var r := Settled(p, n, clnum, s.mt[w1].cl, s.mt[w2].cl);
      var w := if w1 == s.mtnum then w2 else w1;
      Fused(s, r, w1, w2) &&
      Holds(r, w, Inds(m[w1].g), m[w1].nn[1], m[w1].nn[2])
  {
    SettledMeaning(p, n, clnum, s.mt[w1].cl, s.mt[w2].cl);
    PreparedSettledFuses(s, m, p, Settled(p, n, clnum, s.mt[w1].cl, s.mt[w2].cl), clnum, n, w1, w2);
  }

  /** What a popped joined configuration p offers the renumbering. */
  ghost predicate Prepared(s: State, m: seq<Segment>, p: seq<Segment>, clnum: nat, w1: nat, w2: nat)
    requires s.Good() && 1 <= w1 <= s.mtnum && 1 <= w2 <= s.mtnum && w1 != w2 && |m| == |s.mt|
  {
    var w := if w1 == s.mtnum then w2 else w1;
    PoppedCluster(s, p, clnum, w1, w2) && PoppedOthers(s, p, w1, w2) &&
    Mass(p, s.mtnum - 1) == Mass(s.mt, s.mtnum) &&
    Inds(p[w].g) == Inds(m[w1].g) && p[w].nn[1] == m[w1].nn[1] && p[w].nn[2] == m[w1].nn[2]
  }

  /** What renumbering clusters cl1 and cl2 over the n live segments of p
      leaves in r: the same segments up to cluster-local indices, the same
      edge total, and both clusters numbered densely. */
  ghost predicate SettledFrom(p: seq<Segment>, r: State, n: nat, clnum: nat, cl1: nat, cl2: nat)
  {
    |p| == n + 1 && r.Good() && r.mtnum == n && r.clnum == clnum &&
    (forall k :: 0 <= k < |p| ==>
      Inds(r.mt[k].g) == Inds(p[k].g) && r.mt[k].cl == p[k].cl && r.mt[k].nn == p[k].nn) &&
    Mass(r.mt, n) == Mass(p, n) && Dense(r.mt, n, cl1) && Dense(r.mt, n, cl2)
  }

  lemma SettledMeaning(p: seq<Segment>, n: nat, clnum: nat, cl1: nat, cl2: nat)
    requires |p| == n + 1
    ensures SettledFrom(p, Settled(p, n, clnum, cl1, cl2), n, clnum, cl1, cl2)
  {
    forall k | 0 <= k < |p|
      ensures var r := Settled(p, n, clnum, cl1, cl2).mt[k];
        Inds(r.g) == Inds(p[k].g) && r.cl == p[k].cl && r.nn == p[k].nn
    {
      SettledSegments(p, n, clnum, cl1, cl2, k);
    }
    SettledMass(p, n, clnum, cl1, cl2);
    SettledNumbering(p, n, clnum, cl1, cl2, cl1);
    SettledNumbering(p, n, clnum, cl1, cl2, cl2);
  }

  /** PreparedFuses for any state r that SettledFrom describes. */
  lemma PreparedSettledFuses(s: State, m: seq<Segment>, p: seq<Segment>, r: State, clnum: nat, n: nat, w1: nat, w2: nat)
    requires s.Good() && 1 <= w1 <= s.mtnum && 1 <= w2 <= s.mtnum && w1 != w2 && |m| == |s.mt|
    requires n + 1 == s.mtnum && Prepared(s, m, p, clnum, w1, w2)
    requires SettledFrom(p, r, n, clnum, s.mt[w1].cl, s.mt[w2].cl)
    ensures var w := if w1 == s.mtnum then w2 else w1;
      Fused(s, r, w1, w2) &&
      Holds(r, w, Inds(m[w1].g), m[w1].nn[1], m[w1].nn[2])
  {
    var cl1, cl2 := s.mt[w1].cl, s.mt[w2].cl;
    var w := if w1 == s.mtnum then w2 else w1;
    assert r.mt[w].cl == p[w].cl == Merged(cl1, cl1, cl2, s.clnum);
    assert p[w].cl == cl1 || p[w].cl == cl2;
    forall k | 1 <= k <= r.mtnum && k != w
      ensures var o := s.mt[Origin(k, s.mtnum, w2)];
        Inds(r.mt[k].g) == Inds(o.g) && r.mt[k].nn[1] == o.nn[1] && r.mt[k].nn[2] == o.nn[2] &&
        r.mt[k].cl == Merged(o.cl, cl1, cl2, s.clnum)
    {
      assert Inds(r.mt[k].g) == Inds(p[k].g) && r.mt[k].cl == p[k].cl && r.mt[k].nn == p[k].nn;
    }
  }

  /** What the cluster half of the tail needs of the popped sequence p:
      the cluster count and the fused segment in the merged cluster. */
  ghost predicate PoppedCluster(s: State, p: seq<Segment>, clnum: nat, w1: nat, w2: nat)
    requires s.Good() && 1 <= w1 <= s.mtnum && 1 <= w2 <= s.mtnum && w1 != w2
  {
    var n := s.mtnum;
    var cl1, cl2 := s.mt[w1].cl, s.mt[w2].cl;
    var w := if w1 == n then w2 else w1;
    |p| == n && clnum == (if cl1 != cl2 then Dec(s.clnum) else s.clnum) &&
    p[w].cl == Merged(cl1, cl1, cl2, s.clnum)
  }

  /** What the other half needs: every live segment but the fused one
      holds what segment Origin(k) held, with its cluster id merged. */
  ghost predicate PoppedOthers(s: State, p: seq<Segment>, w1: nat, w2: nat)
    requires s.Good() && 1 <= w1 <= s.mtnum && 1 <= w2 <= s.mtnum && w1 != w2
  {
    var n := s.mtnum;
    var cl1, cl2 := s.mt[w1].cl, s.mt[w2].cl;
    var w := if w1 == n then w2 else w1;
    |p| == n &&
    forall k {:trigger Origin(k, n, w2)} :: 1 <= k < n && k != w ==>
      var o := s.mt[Origin(k, n, w2)];
      Inds(p[k].g) == Inds(o.g) && p[k].nn[1] == o.nn[1] && p[k].nn[2] == o.nn[2] &&
      p[k].cl == Merged(o.cl, cl1, cl2, s.clnum)
  }

  lemma PoppedOthersFrom(s: State, m: seq<Segment>, p: seq<Segment>, clnum: nat, w1: nat, w2: nat)
    requires s.Good() && 1 <= w1 <= s.mtnum && 1 <= w2 <= s.mtnum && w1 != w2
    requires Joined(s, m, clnum, w1, w2) && PoppedFrom(p, m, s.mtnum, w2)
    ensures PoppedOthers(s, p, w1, w2)
  {
    var n := s.mtnum;
    var w := if w1 == n then w2 else w1;
    forall k | 1 <= k < n && k != w
      ensures var o := s.mt[Origin(k, n, w2)];
        Inds(p[k].g) == Inds(o.g) && p[k].nn[1] == o.nn[1] && p[k].nn[2] == o.nn[2] &&
        p[k].cl == Merged(o.cl, s.mt[w1].cl, s.mt[w2].cl, s.clnum)
    {
      var j := Origin(k, n, w2);
      assert 1 <= j <= n && j != w1 && j != w2;
    }
  }

  /** Live segment w of r holds edges with the network indices inds, in
      that order, and has n1 and n2 neighbours at its ends. */
  ghost predicate Holds(r: State, w: nat, inds: seq<nat>, n1: nat, n2: nat)
  {
    r.Good() && 1 <= w <= r.mtnum && Inds(r.mt[w].g) == inds && r.mt[w].nn[1] == n1 && r.mt[w].nn[2] == n2
  }

  /** The edges of the live segments of cluster c are numbered densely:
      their cluster-local indices are distinct and below the cluster's
      edge count. */
  ghost predicate Dense(mt: seq<Segment>, n: nat, c: nat)
  {
    n < |mt| && InRange(mt, SegmentsOf(mt, n, c)) &&
    DistinctIndcls(mt, SegmentsOf(mt, n, c), ClusterMass(mt, n, c))
  }

  /** Before the tail of fuse_parallel, w1 holds w2's edges then its own,
      with end 1 of w2 and end 2 of w1 as its ends. */
  lemma ParallelJoinedMeaning(s: State, w1: nat, w2: nat)
    requires s.Good() && 1 <= w1 <= s.mtnum && 1 <= w2 <= s.mtnum && w1 != w2
    ensures var (m, clnum) := ParallelJoined(s, w1, w2);
      Joined(s, m, clnum, w1, w2) &&
      Inds(m[w1].g) == Inds(s.mt[w2].g) + Inds(s.mt[w1].g) &&
      m[w1].nn[1] == s.mt[w2].nn[1] && m[w1].nn[2] == s.mt[w1].nn[2]
  {
    var m1 := NeigsCopied(s.mt, w2, 1, w1, 1);
    NeigsCopiedCounts(s.mt, w2, 1, w1, 1);
    var (m2, clnum) := MergeStep(m1, s.mtnum, s.clnum, w1, w2);
    CopiedMerging(s, m1, w1, w2);
    GlueJoins(s, m2, clnum, w1, w2, m2[w2].g + m2[w1].g);
    IndsConcat(s.mt[w2].g, s.mt[w1].g);
  }

  /** fuse_parallel, end to end: the fused segment holds w2's edges
      followed by w1's and has the free end 1 of w2 and end 2 of w1 as
      its ends. */
  lemma FusedParallelMeaning(s: State, w1: nat, w2: nat)
    requires s.Good() && 1 <= w1 <= s.mtnum && 1 <= w2 <= s.mtnum
    requires w1 != w2 && s.mt[w1].nn[1] == 0 && s.mt[w2].nn[2] == 0
    ensures var (r, cl1, cl2) := FusedParallel(s, w1, w2);
      var w := if w1 == s.mtnum then w2 else w1;
      cl1 == s.mt[w1].cl && cl2 == s.mt[w2].cl && Fused(s, r, w1, w2) &&
      Holds(r, w, Inds(s.mt[w2].g) + Inds(s.mt[w1].g), s.mt[w2].nn[1], s.mt[w1].nn[2])
  {
    var (m, clnum) := ParallelJoined(s, w1, w2);
    ParallelJoinedMeaning(s, w1, w2);
    FusionTailFuses(s, m, clnum, s.mtnum - 1, w1, w2);
  }

  /** The neighbour copies of fuse_antiparallel: at end 1, end 1 of w1
      first takes the neighbours of its end 2; then end 2 of w1 takes the
      neighbours of the end of w2 that is not joined. */
  function AntiparallelCopied(s: State, end: nat, w1: nat, w2: nat): (r: seq<Segment>)
    requires s.Good() && 1 <= w1 <= s.mtnum && 1 <= w2 <= s.mtnum && (end == 1 || end == 2)
    ensures |r| == |s.mt|
  {
    var m0 := if end == 1 then NeigsCopied(s.mt, w1, 2, w1, 1) else s.mt;
    NeigsCopied(m0, w2, if end == 2 then 1 else 2, w1, 2)
  }

  /** After the copies, the ends of w1 have the counts of the two ends that
      are not joined, and nothing but neighbour tables changed. */
  lemma AntiparallelCopiedCounts(s: State, end: nat, w1: nat, w2: nat)
    requires s.Good() && 1 <= w1 <= s.mtnum && 1 <= w2 <= s.mtnum && w1 != w2 && (end == 1 || end == 2)
    ensures var m1 := AntiparallelCopied(s, end, w1, w2);
      var opend := if end == 2 then 1 else 2;
      TablesOnly(s.mt, m1) && (forall k :: 0 <= k < |m1| && k != w1 ==> m1[k].nn == s.mt[k].nn) &&
      m1[w1].nn[1] == s.mt[w1].nn[opend] && m1[w1].nn[2] == s.mt[w2].nn[opend]
  {
    var opend := if end == 2 then 1 else 2;
    var m0 := if end == 1 then NeigsCopied(s.mt, w1, 2, w1, 1) else s.mt;
    if end == 1 {
      NeigsCopiedCounts(s.mt, w1, 2, w1, 1);
    }
    var m1 := NeigsCopied(m0, w2, opend, w1, 2);
    NeigsCopiedCounts(m0, w2, opend, w1, 2);
    TablesOnlyTrans(s.mt, m0, m1);
  }

  /** fuse_antiparallel up to its tail. At end 1, end 1 of w1 first takes
      the neighbours of its end 2; then end 2 of w1 takes the neighbours of
      the other end of w2, the clusters merge if they differ, the segment
      joined at its end 1 (w1 at end 1, w2 at end 2) is read backwards, and
      w1 takes its edges followed by w2's, leaving w2 empty. */
  function AntiparallelJoined(s: State, end: nat, w1: nat, w2: nat): (r: (seq<Segment>, nat))
    requires s.Good() && 1 <= w1 <= s.mtnum && 1 <= w2 <= s.mtnum && (end == 1 || end == 2)
    ensures |r.0| == |s.mt|
  {
    var (m2, clnum) := MergeStep(AntiparallelCopied(s, end, w1, w2), s.mtnum, s.clnum, w1, w2);
    var g1 := if end == 1 then ReflectedEdges(m2[w1].g) else m2[w1].g;
    var g2 := if end == 1 then m2[w2].g else ReflectedEdges(m2[w2].g);
    (m2[w1 := m2[w1].(g := g1 + g2)][w2 := m2[w2].(g := [])], clnum)
  }

  /** `fuse_antiparallel(end, w1, w2)`: the new state and the two original
      cluster ids. */
  function FusedAntiparallel(s: State, end: nat, w1: nat, w2: nat): (r: (State, nat, nat))
    requires s.Good() && 1 <= w1 <= s.mtnum && 1 <= w2 <= s.mtnum && (end == 1 || end == 2)
    requires w1 != w2 && s.mt[w1].nn[end] == 0 && s.mt[w2].nn[end] == 0
    ensures r.0.Good() && r.0.mtnum + 1 == s.mtnum
  {
    var (m, clnum) := AntiparallelJoined(s, end, w1, w2);
    (FusionTail(m, s.mtnum, clnum, w2, s.mt[w1].cl, s.mt[w2].cl), s.mt[w1].cl, s.mt[w2].cl)
  }

  /** `fuse_antiparallel(end, w1, w2)`. */
  method FuseAntiparallel(s: State, end: nat, w1: nat, w2: nat) returns (r: State, cl1: nat, cl2: nat)
    requires s.Good() && 1 <= w1 <= s.mtnum && 1 <= w2 <= s.mtnum && (end == 1 || end == 2)
    requires w1 != w2 && s.mt[w1].nn[end] == 0 && s.mt[w2].nn[end] == 0
    ensures (r, cl1, cl2) == FusedAntiparallel(s, end, w1, w2)
  {
    cl1, cl2 := s.mt[w1].cl, s.mt[w2].cl;
    var mt := CopyAntiparallel(s, end, w1, w2);
    var clnum := s.clnum;
    if mt[w2].cl != mt[w1].cl {
      mt, clnum := UpdateMtclFuse(mt, s.mtnum, clnum, w1, w2);
    }
    assert (mt, clnum) == MergeStep(AntiparallelCopied(s, end, w1, w2), s.mtnum, s.clnum, w1, w2);
    var a, b := mt[w1], mt[w2];
    if end == 1 {
      a := ReflectG(a);
    } else {
      b := ReflectG(b);
    }
    mt := mt[w1 := mt[w1].(g := a.g + b.g)];
    mt := mt[w2 := mt[w2].(g := [])];
    r := FuseTail(mt, s.mtnum, clnum, w2, cl1, cl2);
  }

  /** The two `copy_neigs` calls of fuse_antiparallel. */
  method CopyAntiparallel(s: State, end: nat, w1: nat, w2: nat) returns (mt: seq<Segment>)
    requires s.Good() && 1 <= w1 <= s.mtnum && 1 <= w2 <= s.mtnum && (end == 1 || end == 2)
    ensures mt == AntiparallelCopied(s, end, w1, w2)
  {
    var opend := if end == 2 then 1 else 2;
    mt := s.mt;
    if end == 1 {
      mt := CopyNeigs(mt, w1, 2, w1, 1);
    }
    mt := CopyNeigs(mt, w2, opend, w1, 2);
  }

  /** Before the tail of fuse_antiparallel, w1 holds all the edges, w2 is
      empty, and the ends of w1 are the two ends that were not joined. */
  lemma AntiparallelJoinedMeaning(s: State, end: nat, w1: nat, w2: nat)
    requires s.Good() && 1 <= w1 <= s.mtnum && 1 <= w2 <= s.mtnum && w1 != w2 && (end == 1 || end == 2)
    ensures var (m, clnum) := AntiparallelJoined(s, end, w1, w2);
      var opend := if end == 2 then 1 else 2;
      Joined(s, m, clnum, w1, w2) && m[w1].nn[1] == s.mt[w1].nn[opend] && m[w1].nn[2] == s.mt[w2].nn[opend]
  {
    var m1 := AntiparallelCopied(s, end, w1, w2);
    AntiparallelCopiedCounts(s, end, w1, w2);
    var (m2, clnum) := MergeStep(m1, s.mtnum, s.clnum, w1, w2);
    CopiedMerging(s, m1, w1, w2);
    var g1 := if end == 1 then ReflectedEdges(m2[w1].g) else m2[w1].g;
    var g2 := if end == 1 then m2[w2].g else ReflectedEdges(m2[w2].g);
    GlueJoins(s, m2, clnum, w1, w2, g1 + g2);
  }

  /** Before the tail of fuse_antiparallel, the edges of w1 run with the
      joined ends in the middle: at end 1, w1 read backwards then w2; at
      end 2, w1 then w2 read backwards. */
  lemma AntiparallelJoinedInds(s: State, end: nat, w1: nat, w2: nat)
    requires s.Good() && 1 <= w1 <= s.mtnum && 1 <= w2 <= s.mtnum && w1 != w2 && (end == 1 || end == 2)
    ensures var (m, clnum) := AntiparallelJoined(s, end, w1, w2);
      Inds(m[w1].g) == (if end == 1 then Rev(Inds(s.mt[w1].g)) + Inds(s.mt[w2].g)
                        else Inds(s.mt[w1].g) + Rev(Inds(s.mt[w2].g)))
  {
    var m1 := AntiparallelCopied(s, end, w1, w2);
    AntiparallelCopiedCounts(s, end, w1, w2);
    var (m2, clnum) := MergeStep(m1, s.mtnum, s.clnum, w1, w2);
    CopiedMerging(s, m1, w1, w2);
    var g1 := if end == 1 then ReflectedEdges(m2[w1].g) else m2[w1].g;
    var g2 := if end == 1 then m2[w2].g else ReflectedEdges(m2[w2].g);
    IndsConcat(g1, g2);
    if end == 1 {
      IndsReflected(s.mt[w1].g);
    } else {
      IndsReflected(s.mt[w2].g);
    }
  }

  /** fuse_antiparallel, end to end: the fused segment holds the edges of
      both, the joined ends meeting in the middle, and has the two ends
      that were not joined as its ends. */
  lemma FusedAntiparallelMeaning(s: State, end: nat, w1: nat, w2: nat)
    requires s.Good() && 1 <= w1 <= s.mtnum && 1 <= w2 <= s.mtnum && (end == 1 || end == 2)
    requires w1 != w2 && s.mt[w1].nn[end] == 0 && s.mt[w2].nn[end] == 0
    ensures var (r, cl1, cl2) := FusedAntiparallel(s, end, w1, w2);
      var w := if w1 == s.mtnum then w2 else w1;
      var opend := if end == 2 then 1 else 2;
      cl1 == s.mt[w1].cl && cl2 == s.mt[w2].cl && Fused(s, r, w1, w2) &&
      Holds(r, w, if end == 1 then Rev(Inds(s.mt[w1].g)) + Inds(s.mt[w2].g)
                  else Inds(s.mt[w1].g) + Rev(Inds(s.mt[w2].g)),
            s.mt[w1].nn[opend], s.mt[w2].nn[opend])
  {
    var (m, clnum) := AntiparallelJoined(s, end, w1, w2);
    AntiparallelJoinedMeaning(s, end, w1, w2);
    AntiparallelJoinedInds(s, end, w1, w2);
    FusionTailFuses(s, m, clnum, s.mtnum - 1, w1, w2);
  }
}
