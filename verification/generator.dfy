/**
 The generator: an object owning the two output sequences that the
 program keeps as globals, and the one operation that rebuilds them.
 */
module Generator {
  import opened Lattice
  import opened Bonds

  /**
   The atoms the generator has laid down when its loops reach layer
   `layer`, segment `i`, site `j`: every atom before that position in the
   order (layer, segment, site).
   */
  function AtomsBefore(p: Params, layer: int, i: int, j: int): seq<Atom>
    decreases layer, i, j
  {
    if j > 0 then AtomsBefore(p, layer, i, j - 1) + [Atom(layer, i, j - 1)]
    else if i > 0 then AtomsBefore(p, layer, i - 1, 2 * p.n)
    else if layer > 0 then AtomsBefore(p, layer - 1, p.lengthSegments, 0)
    else []
  }

  /** The atom sequence of a finished generation. */
  function LatticeAtoms(p: Params): seq<Atom> {
    AtomsBefore(p, p.layers, 0, 0)
  }

  class Nanotube {
    var atoms: seq<Atom>
    var bonds: seq<Bond>

    constructor ()
      ensures atoms == [] && bonds == []
    {
      atoms := [];
      bonds := [];
    }

    /**
     Rebuilds the tube for parameters `p`: clears both sequences, lays down
     every atom, then emits the intralayer bonds layer by layer and, when
     there are several layers, the interlayer bonds. Nothing of the previous
     contents survives.
     */
    method CreateMultiWalledNanotube(p: Params)
      requires p.Valid()
      modifies this
      ensures atoms == LatticeAtoms(p)
      ensures bonds == IntralayerBonds(p) + InterlayerBonds(p)
    {
      atoms := [];
      bonds := [];
      SynthesizeAtoms(p);
      BondWithinLayers(p);
      BondAdjacentLayers(p);
    }

    /** The first pass: appends every atom, layer by layer, segment by segment, site by site. */
    method SynthesizeAtoms(p: Params)
      requires p.Valid() && atoms == []
      modifies this`atoms
      ensures atoms == LatticeAtoms(p)
    {
      var layers, n, lengthSegments := p.layers, p.n, p.lengthSegments;
      for layer := 0 to layers
        invariant atoms == AtomsBefore(p, layer, 0, 0)
      {
        for i := 0 to lengthSegments
          invariant atoms == AtomsBefore(p, layer, i, 0)
        {
          for j := 0 to 2 * n
            invariant atoms == AtomsBefore(p, layer, i, j)
          {
            atoms := atoms + [Atom(layer, i, j)];
          }
        }
      }
    }

    /** The second pass: appends the ring and axial bonds of every site, layer by layer. */
    method BondWithinLayers(p: Params)
      requires p.Valid() && bonds == []
      modifies this`bonds
      ensures bonds == IntralayerBonds(p)
    {
      var layers, n, lengthSegments := p.layers, p.n, p.lengthSegments;
      for layer := 0 to layers
        invariant bonds == IntralayerBefore(p, layer, 0, 0)
      {
        var layerOffset := layer * lengthSegments * 2 * n;
        LayerOffsetAsWritten(p, layer);
        for i := 0 to lengthSegments
          invariant bonds == IntralayerBefore(p, layer, i, 0)
        {
          for j := 0 to 2 * n
            invariant bonds == IntralayerBefore(p, layer, i, j)
          {
            var current := layerOffset + i * 2 * n + j;
            SegmentOffsetAsWritten(p, i);
            EmitRingBond(p, current, j);
            EmitAxialBonds(p, current, i, j);
          }
        }
      }
    }

    /** The ring bond of site `j`, whose flat index is `current`: the first half of the intralayer loop body. */
    method EmitRingBond(p: Params, current: int, j: int)
      modifies this`bonds
      ensures bonds == old(bonds) + RingBonds(p, current, j)
    {
      var n := p.n;
      if j % 2 == 0 {
        if j < 2 * n - 1 {
          bonds := bonds + [Bond(current, current + 1)];
        }
      } else {
        var next := if j == 2 * n - 1 then current - (2 * n - 1) else current + 1;
        bonds := bonds + [Bond(current, next)];
      }
    }

    /** The axial bonds of site `j` of segment `i`: the second half of the intralayer loop body. */
    method EmitAxialBonds(p: Params, current: int, i: int, j: int)
      modifies this`bonds
      ensures bonds == old(bonds) + AxialBonds(p, current, i, j)
    {
      var n, lengthSegments := p.n, p.lengthSegments;
      if i < lengthSegments - 1 {
        if j % 2 == 0 {
          bonds := bonds + [Bond(current, current + 2 * n)];
        } else {
          bonds := bonds + [Bond(current, current + 2 * n - 1)];
          if j < 2 * n - 1 {
            bonds := bonds + [Bond(current, current + 2 * n + 1)];
          } else {
            bonds := bonds + [Bond(current, current + 1)];
          }
        }
      }
    }

    /**
     The third pass: when there are several layers, links each atom at an
     even segment and even site to the atom at the same offset in the next layer.
     */
    method BondAdjacentLayers(p: Params)
      requires p.Valid()
      modifies this`bonds
      ensures bonds == old(bonds) + InterlayerBonds(p)
    {
      var layers := p.layers;
      if layers > 1 {
        for layer := 0 to layers - 1
          invariant bonds == old(bonds) + InterlayerBefore(p, layer, 0, 0)
        {
          var outerOffset := (layer + 1) * p.lengthSegments * 2 * p.n;
          var innerOffset := layer * p.lengthSegments * 2 * p.n;
          LayerOffsetAsWritten(p, layer + 1);
          LayerOffsetAsWritten(p, layer);
          LinkLayerPair(p, layer, innerOffset, outerOffset, old(bonds));
        }
      }
    }

    /** One iteration of the third pass's layer loop: the links from `layer` to `layer + 1`. */
    method LinkLayerPair(p: Params, layer: int, innerOffset: int, outerOffset: int, ghost base: seq<Bond>)
      requires p.Valid() && 0 <= layer < p.layers - 1
      requires innerOffset == LayerOffset(p, layer) && outerOffset == LayerOffset(p, layer + 1)
      requires bonds == base + InterlayerBefore(p, layer, 0, 0)
      modifies this`bonds
      ensures bonds == base + InterlayerBefore(p, layer + 1, 0, 0)
    {
      var n, lengthSegments := p.n, p.lengthSegments;
      var i := 0;
      while i < lengthSegments
        invariant 0 <= i <= SegmentStop(p) && i % 2 == 0
        invariant bonds == base + InterlayerBefore(p, layer, i, 0)
      {
        var j := 0;
        while j < 2 * n
          invariant 0 <= j <= 2 * n && j % 2 == 0
          invariant bonds == base + InterlayerBefore(p, layer, i, j)
        {
          var innerAtom := innerOffset + i * 2 * n + j;
          var outerAtom := outerOffset + i * 2 * n + j;
          SegmentOffsetAsWritten(p, i);
          bonds := bonds + [Bond(innerAtom, outerAtom)];
          j := j + 2;
        }
        i := i + 2;
      }
    }
  }

  /**
   Generation depends only on the parameters: regenerating for `p` after a
   generation for other parameters `q` gives back exactly the atoms and
   bonds of the first generation for `p`, in the same order.
   */
  method RegenerateAfterOther(p: Params, q: Params) returns (atoms1: seq<Atom>, bonds1: seq<Bond>, atoms2: seq<Atom>, bonds2: seq<Bond>)
    requires p.Valid() && q.Valid()
    ensures atoms1 == atoms2 && bonds1 == bonds2
    ensures atoms1 == LatticeAtoms(p)
  {
    var tube := new Nanotube();
    tube.CreateMultiWalledNanotube(p);
    atoms1, bonds1 := tube.atoms, tube.bonds;
    tube.CreateMultiWalledNanotube(q);
    tube.CreateMultiWalledNanotube(p);
    atoms2, bonds2 := tube.atoms, tube.bonds;
  }
}
