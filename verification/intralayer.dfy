/**
 What the intralayer pass promises: it emits exactly the edges that the
 generator's neighbour rule assigns to the atoms of every layer, each from
 the atom the loops visit, and the renderer sees every one of them as a
 bond within a layer.
 */
module Intralayer {
  import opened Lattice
  import opened Bonds
  import opened Display

  /**
   A bond from a lattice atom to one of its neighbours under the generator's
   neighbour rule, both ends indexing the generated atom sequence.
   */
  predicate IsLatticeEdge(p: Params, b: Bond)
    requires p.Valid()
  {
    && 0 <= b.first < p.AtomCount()
    && 0 <= b.second < p.AtomCount()
    && Unflatten(p, b.second) in Neighbours(p, Unflatten(p, b.first))
  }

  /** The bonds emitted for one lattice site are edges leaving that site. */
  lemma SiteBondsAreEdges(p: Params, a: Atom)
    requires p.Valid() && InLattice(p, a)
    ensures forall b :: b in SiteBonds(p, a.layer, a.segment, a.site) ==>
      IsLatticeEdge(p, b) && b.first == Flatten(p, a)
  {
    var sb, nb := SiteBonds(p, a.layer, a.segment, a.site), Neighbours(p, a);
    SiteBondsAreNeighbours(p, a);
    NeighboursShape(p, a);
    UnflattenFlatten(p, a);
    forall b | b in sb
      ensures IsLatticeEdge(p, b) && b.first == Flatten(p, a)
    {
      var k :| 0 <= k < |sb| && sb[k] == b;
      UnflattenFlatten(p, nb[k]);
    }
  }

  /** Up to any loop position, every bond emitted is a lattice edge. */
  lemma {:induction false} IntralayerBeforeSound(p: Params, layer: int, i: int, j: int)
    requires p.Valid() && Reachable(p, layer, i, j)
    ensures forall b :: b in IntralayerBefore(p, layer, i, j) ==> IsLatticeEdge(p, b)
    decreases layer, i, j
  {
    if j > 0 {
      IntralayerBeforeSound(p, layer, i, j - 1);
      SiteBondsAreEdges(p, Atom(layer, i, j - 1));
    } else if i > 0 {
      IntralayerBeforeSound(p, layer, i - 1, 2 * p.n);
    } else if layer > 0 {
      IntralayerBeforeSound(p, layer - 1, p.lengthSegments, 0);
    }
  }

  /** Up to any loop position, the bonds of every site visited so far have been emitted. */
  lemma {:induction false} IntralayerBeforeComplete(p: Params, layer: int, i: int, j: int, a: Atom)
    requires p.Valid() && Reachable(p, layer, i, j)
    requires InLattice(p, a) && Precedes(a, layer, i, j)
    ensures forall b :: b in SiteBonds(p, a.layer, a.segment, a.site) ==> b in IntralayerBefore(p, layer, i, j)
    decreases layer, i, j
  {
    if j > 0 {
      if a != Atom(layer, i, j - 1) {
        IntralayerBeforeComplete(p, layer, i, j - 1, a);
      }
    } else if i > 0 {
      IntralayerBeforeComplete(p, layer, i - 1, 2 * p.n, a);
    } else if layer > 0 {
      IntralayerBeforeComplete(p, layer - 1, p.lengthSegments, 0, a);
    }
  }

  /**
   The intralayer bonds are exactly the edges of the neighbour rule, emitted from
   the atom that the loops visit: a bond is emitted if and only if it joins
   a lattice atom to one of its neighbours.
   */
  lemma IntralayerBondsAreLatticeEdges(p: Params, b: Bond)
    requires p.Valid()
    ensures b in IntralayerBonds(p) <==> IsLatticeEdge(p, b)
  {
    if b in IntralayerBonds(p) {
      IntralayerBeforeSound(p, p.layers, 0, 0);
    }
    if IsLatticeEdge(p, b) {
      var a, nb := Unflatten(p, b.first), Unflatten(p, b.second);
      var k :| 0 <= k < |Neighbours(p, a)| && Neighbours(p, a)[k] == nb;
      SiteBondsAreNeighbours(p, a);
      assert SiteBonds(p, a.layer, a.segment, a.site)[k] == b;
      IntralayerBeforeComplete(p, p.layers, 0, 0, a);
    }
  }

  /**
   Every intralayer bond joins two distinct atoms of one layer: either the
   next site around the same ring (the last site wrapping to site 0) or a
   site of the next segment, which exists only below the last segment; the
   renderer therefore draws it as a bond within a layer.
   */
  lemma IntralayerBondShape(p: Params, b: Bond)
    requires p.Valid() && b in IntralayerBonds(p)
    ensures 0 <= b.first < p.AtomCount() && 0 <= b.second < p.AtomCount() && b.first != b.second
    ensures var u, v := Unflatten(p, b.first), Unflatten(p, b.second);
      && v.layer == u.layer
      && ((v.segment == u.segment && v.site == (u.site + 1) % (2 * p.n))
          || (v.segment == u.segment + 1 && u.segment < p.lengthSegments - 1))
    ensures !IsInterlayer(p, b)
  {
    IntralayerBondsAreLatticeEdges(p, b);
    var u, v := Unflatten(p, b.first), Unflatten(p, b.second);
    NeighboursShape(p, u);
    LayerOfFlatten(p, u);
    LayerOfFlatten(p, v);
  }

  /** The number of bonds the pass emits per layer: one ring bond per site, three axial bonds per site pair below the last segment. */
  function LayerBondCount(p: Params): int {
    2 * p.n * p.lengthSegments + 3 * p.n * (p.lengthSegments - 1)
  }

  /** Each site emits one ring bond and, below the last segment, one axial bond if even and two if odd. */
  lemma SiteBondCount(p: Params, current: int, i: int, j: int)
    requires p.Valid() && 0 <= j < 2 * p.n
    ensures |RingBonds(p, current, j)| == 1
    ensures |AxialBonds(p, current, i, j)| == if i < p.lengthSegments - 1 then (if j % 2 == 0 then 1 else 2) else 0
  {
    if j % 2 == 0 {
      assert j != 2 * p.n - 1;
    }
  }

  /**
   The number of bonds emitted up to a loop position: a full count per
   finished layer, `2n` ring bonds per finished segment plus `3n` axial
   bonds when it is not the last, then one ring bond per site of the
   current segment plus its axial bonds.
   */
  lemma {:induction false} IntralayerBeforeCount(p: Params, layer: int, i: int, j: int)
    requires p.Valid() && Reachable(p, layer, i, j)
    ensures |IntralayerBefore(p, layer, i, j)|
      == layer * LayerBondCount(p) + 2 * p.n * i + 3 * p.n * (if i < p.lengthSegments then i else i - 1)
         + j + (if i < p.lengthSegments - 1 then j + j / 2 else 0)
    decreases layer, i, j
  {
    var n, segs := p.n, p.lengthSegments;
    if j > 0 {
      IntralayerBeforeCount(p, layer, i, j - 1);
      SiteBondCount(p, Flatten(p, Atom(layer, i, j - 1)), i, j - 1);
    } else if i > 0 {
      IntralayerBeforeCount(p, layer, i - 1, 2 * n);
      assert 2 * n * (i - 1) + 2 * n == 2 * n * i;
      if i < segs {
        assert 3 * n * (i - 1) + 3 * n == 3 * n * i;
      }
    } else if layer > 0 {
      IntralayerBeforeCount(p, layer - 1, segs, 0);
      assert (layer - 1) * LayerBondCount(p) + LayerBondCount(p) == layer * LayerBondCount(p);
    }
  }

  /**
   The intralayer pass emits `2n * lengthSegments + 3n * (lengthSegments - 1)`
   bonds per layer; with a single segment there are only the `2n` ring bonds.
   */
  lemma IntralayerBondCount(p: Params)
    requires p.Valid()
    ensures |IntralayerBonds(p)| == p.layers * (2 * p.n * p.lengthSegments + 3 * p.n * (p.lengthSegments - 1))
    ensures p.lengthSegments == 1 ==> |IntralayerBonds(p)| == p.layers * 2 * p.n
  {
    IntralayerBeforeCount(p, p.layers, 0, 0);
  }

  /**
   A bond joining two atoms of the same ring: ring `r` (segment `r %
   lengthSegments` of layer `r / lengthSegments`) occupies the `2n`
   consecutive indices from `r * 2n`.
   */
  predicate InOneRing(p: Params, b: Bond)
    requires p.Valid()
  {
    b.first / (2 * p.n) == b.second / (2 * p.n)
  }

  /** The number of bonds of `bonds` that stay within one ring. */
  function RingBondTotal(p: Params, bonds: seq<Bond>): nat
    requires p.Valid()
    decreases |bonds|
  {
    if bonds == [] then 0
    else RingBondTotal(p, bonds[..|bonds| - 1]) + (if InOneRing(p, bonds[|bonds| - 1]) then 1 else 0)
  }

  lemma {:induction false} RingBondTotalAppend(p: Params, xs: seq<Bond>, ys: seq<Bond>)
    requires p.Valid()
    ensures RingBondTotal(p, xs + ys) == RingBondTotal(p, xs) + RingBondTotal(p, ys)
    decreases |ys|
  {
    if ys != [] {
      var last := |ys| - 1;
      assert (xs + ys)[..|xs + ys| - 1] == xs + ys[..last];
      RingBondTotalAppend(p, xs, ys[..last]);
    } else {
      assert xs + ys == xs;
    }
  }

  /** The ring of a lattice atom is the block of `2n` indices its flat index falls in. */
  lemma RingOfFlatten(p: Params, a: Atom)
    requires p.Valid() && InLattice(p, a)
    ensures Flatten(p, a) / (2 * p.n) == a.layer * p.lengthSegments + a.segment
  {
    FlattenFormula(p, a);
    var w := 2 * p.n;
    assert a.layer * p.AtomsPerLayer() + a.segment * w == (a.layer * p.lengthSegments + a.segment) * w;
    DivModUnique(Flatten(p, a), w, a.layer * p.lengthSegments + a.segment, a.site);
  }

  /** Two lattice atoms share a ring exactly when they share layer and segment. */
  lemma SameRing(p: Params, a: Atom, b: Atom)
    requires p.Valid() && InLattice(p, a) && InLattice(p, b)
    ensures InOneRing(p, Bond(Flatten(p, a), Flatten(p, b))) <==> a.layer == b.layer && a.segment == b.segment
  {
    RingOfFlatten(p, a);
    RingOfFlatten(p, b);
    var s := p.lengthSegments;
    DivModUnique(a.layer * s + a.segment, s, a.layer, a.segment);
    DivModUnique(b.layer * s + b.segment, s, b.layer, b.segment);
  }

  /** Of the bonds emitted for a lattice site, the ring bond stays in the ring and the axial bonds leave it. */
  lemma SiteRingBondTotal(p: Params, a: Atom)
    requires p.Valid() && InLattice(p, a)
    ensures RingBondTotal(p, RingBonds(p, Flatten(p, a), a.site)) == 1
    ensures RingBondTotal(p, AxialBonds(p, Flatten(p, a), a.segment, a.site)) == 0
  {
    var c := Flatten(p, a);
    var ring, axial := RingBonds(p, c, a.site), AxialBonds(p, c, a.segment, a.site);
    var nb := Neighbours(p, a);
    SiteBondsAreNeighbours(p, a);
    NeighboursShape(p, a);
    SiteBondCount(p, c, a.segment, a.site);
    assert ring == [ring[0]] && ring[0] == Bond(c, Flatten(p, nb[0]));
    SameRing(p, a, nb[0]);
    assert RingBondTotal(p, ring) == RingBondTotal(p, []) + 1;
    if |axial| > 0 {
      SameRing(p, a, nb[1]);
      assert !InOneRing(p, axial[0]);
      if |axial| == 2 {
        SameRing(p, a, nb[2]);
        assert !InOneRing(p, axial[1]);
        assert axial[..1] == [axial[0]];
      }
    }
  }

  /** Visiting one more site adds exactly one ring bond. */
  lemma RingBondTotalStep(p: Params, layer: int, i: int, j: int)
    requires p.Valid() && Reachable(p, layer, i, j) && j > 0
    ensures RingBondTotal(p, IntralayerBefore(p, layer, i, j)) == RingBondTotal(p, IntralayerBefore(p, layer, i, j - 1)) + 1
  {
    var a := Atom(layer, i, j - 1);
    var c := Flatten(p, a);
    var prev, ring, axial := IntralayerBefore(p, layer, i, j - 1), RingBonds(p, c, j - 1), AxialBonds(p, c, i, j - 1);
    assert IntralayerBefore(p, layer, i, j) == prev + ring + axial;
    SiteRingBondTotal(p, a);
    RingBondTotalAppend(p, prev, ring);
    RingBondTotalAppend(p, prev + ring, axial);
  }

  /** Up to any loop position, exactly one ring bond has been emitted per site visited. */
  lemma {:induction false} IntralayerBeforeRingBondTotal(p: Params, layer: int, i: int, j: int)
    requires p.Valid() && Reachable(p, layer, i, j)
    ensures RingBondTotal(p, IntralayerBefore(p, layer, i, j)) == Flatten(p, Atom(layer, i, j))
    decreases layer, i, j
  {
    if j > 0 {
      IntralayerBeforeRingBondTotal(p, layer, i, j - 1);
      RingBondTotalStep(p, layer, i, j);
    } else if i > 0 {
      IntralayerBeforeRingBondTotal(p, layer, i - 1, 2 * p.n);
      assert IntralayerBefore(p, layer, i, 0) == IntralayerBefore(p, layer, i - 1, 2 * p.n);
    } else if layer > 0 {
      IntralayerBeforeRingBondTotal(p, layer - 1, p.lengthSegments, 0);
      assert IntralayerBefore(p, layer, 0, 0) == IntralayerBefore(p, layer - 1, p.lengthSegments, 0);
    } else {
      assert IntralayerBefore(p, layer, i, j) == [];
    }
  }

  /** Within a segment the pass only appends: the bonds of earlier sites stay as they were. */
  lemma {:induction false} IntralayerBeforeExtends(p: Params, layer: int, i: int, j: int)
    requires 0 <= j
    ensures IntralayerBefore(p, layer, i, 0) <= IntralayerBefore(p, layer, i, j)
    decreases j
  {
    if j > 0 {
      IntralayerBeforeExtends(p, layer, i, j - 1);
    }
  }

  /**
   Each segment contributes exactly `2n` bonds that stay within its ring:
   the bonds emitted for segment `i` extend those emitted before it by a
   block holding `2n` ring bonds.
   */
  lemma SegmentRingBondCount(p: Params, layer: int, i: int)
    requires p.Valid() && 0 <= layer < p.layers && 0 <= i < p.lengthSegments
    ensures var before, after := IntralayerBefore(p, layer, i, 0), IntralayerBefore(p, layer, i + 1, 0);
      && before <= after
      && RingBondTotal(p, after[|before|..]) == 2 * p.n
  {
    var before, after := IntralayerBefore(p, layer, i, 0), IntralayerBefore(p, layer, i + 1, 0);
    IntralayerBeforeExtends(p, layer, i, 2 * p.n);
    IntralayerBeforeRingBondTotal(p, layer, i, 0);
    IntralayerBeforeRingBondTotal(p, layer, i, 2 * p.n);
    assert after == before + after[|before|..];
    RingBondTotalAppend(p, before, after[|before|..]);
  }

  /** Over the whole pass the bonds that stay within a ring number one per atom. */
  lemma IntralayerRingBondTotal(p: Params)
    requires p.Valid()
    ensures RingBondTotal(p, IntralayerBonds(p)) == p.AtomCount()
  {
    IntralayerBeforeRingBondTotal(p, p.layers, 0, 0);
    LayerOffsetIsProduct(p, p.layers);
  }
}
