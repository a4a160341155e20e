/** Model of include/edge.h: one edge of the network graph.

  In the source an edge is a small value type stored by value inside the
  edge vector of its segment; its setters and `reflect` overwrite fields of
  that stored copy.  Here an edge is an immutable datatype value and each
  mutator is a function returning the updated edge, which the segment then
  stores back in its edge sequence. */
module Edges {

  /** Type of the per-end fission weights (a floating-point type in the source;
      only the values 0 and 1 are ever written). */
  type FinT = real

  /** The two end weights of an edge, indexed by 0 and 1. */
  type FinPair = s: seq<FinT> | |s| == 2 witness [0.0, 0.0]

  /** An edge: its network-wide index `ind`, its index `indcl` inside its
      cluster, its cluster id `cl`, and the fission weights of its two ends. */
  datatype Edge = Edge(ind: nat, indcl: nat, cl: nat, fin: FinPair)
  {
    /** `set_ind`: only `ind` changes. */
    function SetInd(i: nat): (e: Edge)
      ensures e.ind == i
      ensures e.indcl == indcl && e.cl == cl && e.fin == fin
    {
      this.(ind := i)
    }

    /** `set_indcl`: only `indcl` changes. */
    function SetIndcl(i: nat): (e: Edge)
      ensures e.indcl == i
      ensures e.ind == ind && e.cl == cl && e.fin == fin
    {
      this.(indcl := i)
    }

    /** `set_cl`: only `cl` changes. */
    function SetCl(c: nat): (e: Edge)
      ensures e.cl == c
      ensures e.ind == ind && e.indcl == indcl && e.fin == fin
    {
      this.(cl := c)
    }

    /** `set_fin(i, f)`: only the weight at end `i` changes. */
    function SetFin(i: nat, f: FinT): (e: Edge)
      requires i < 2
      ensures e.fin[i] == f && e.fin[1 - i] == fin[1 - i]
      ensures e.ind == ind && e.indcl == indcl && e.cl == cl
    {
      this.(fin := fin[i := f])
    }

    /** `reflect`: the edge is turned around, so its two end weights swap. */
    function Reflect(): (e: Edge)
      ensures e.fin[0] == fin[1] && e.fin[1] == fin[0]
      ensures e.ind == ind && e.indcl == indcl && e.cl == cl
    {
      this.(fin := [fin[1], fin[0]])
    }
  }

  /** The edge constructor: the three indices as given, both weights zero. */
  function NewEdge(ind: nat, indcl: nat, cl: nat): (e: Edge)
    ensures e.ind == ind && e.indcl == indcl && e.cl == cl
    ensures e.fin[0] == 0.0 && e.fin[1] == 0.0
  {
    Edge(ind, indcl, cl, [0.0, 0.0])
  }

  /** Turning an edge around twice gives back the same edge. */
  lemma ReflectInvolutive(e: Edge)
    ensures e.Reflect().Reflect() == e
  {
    assert e.Reflect().Reflect().fin == e.fin;
  }

  /** Writing the weight at one end and then turning the edge around moves the
      written weight to the other end. */
  lemma SetFinThenReflect(e: Edge, i: nat, f: FinT)
    requires i < 2
    ensures e.SetFin(i, f).Reflect().fin[1 - i] == f
    ensures e.SetFin(i, f).Reflect().fin[i] == e.fin[1 - i]
  {
  }
}
