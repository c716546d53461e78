/**
 The order and count of the atoms the first pass lays down: the generated
 sequence lists every lattice atom exactly once, each at the flat index
 the bond passes and the renderer assume.
 */
module AtomOrder {
  import opened Lattice
  import opened Generator

  /**
   Up to any loop position, the atoms laid down are the lattice atoms
   before that position, each at its own flat index.
   */
  lemma {:induction false} AtomsBeforeEnumerates(p: Params, layer: int, i: int, j: int)
    requires p.Valid() && Reachable(p, layer, i, j)
    ensures var s := AtomsBefore(p, layer, i, j);
      && |s| == Flatten(p, Atom(layer, i, j))
      && forall k :: 0 <= k < |s| ==>
           InLattice(p, s[k]) && Precedes(s[k], layer, i, j) && Flatten(p, s[k]) == k
    decreases layer, i, j
  {
    if j > 0 {
      AtomsBeforeEnumerates(p, layer, i, j - 1);
    } else if i > 0 {
      AtomsBeforeEnumerates(p, layer, i - 1, 2 * p.n);
    } else if layer > 0 {
      AtomsBeforeEnumerates(p, layer - 1, p.lengthSegments, 0);
    }
  }

  /**
   After generation there are exactly `layers * lengthSegments * 2n`
   atoms, each a lattice atom stored at its own flat index.
   */
  lemma LatticeAtomsEnumerate(p: Params)
    requires p.Valid()
    ensures var s := LatticeAtoms(p);
      && |s| == p.AtomCount() == p.layers * p.lengthSegments * (2 * p.n)
      && forall k :: 0 <= k < |s| ==> InLattice(p, s[k]) && Flatten(p, s[k]) == k
  {
    AtomsBeforeEnumerates(p, p.layers, 0, 0);
    LayerOffsetIsProduct(p, p.layers);
    assert p.layers * p.AtomsPerLayer() == p.layers * p.lengthSegments * (2 * p.n);
  }

  /**
   The atom for layer `layer`, segment `i`, site `j` sits at index
   `layer * lengthSegments * 2n + i * 2n + j`.
   */
  lemma LatticeAtomAt(p: Params, a: Atom)
    requires p.Valid() && InLattice(p, a)
    ensures var k := a.layer * p.AtomsPerLayer() + a.segment * (2 * p.n) + a.site;
      0 <= k < |LatticeAtoms(p)| && LatticeAtoms(p)[k] == a
  {
    var s := LatticeAtoms(p);
    LatticeAtomsEnumerate(p);
    FlattenInLayer(p, a);
    FlattenFormula(p, a);
    var k := Flatten(p, a);
    FlattenInjective(p, s[k], a);
  }
}
