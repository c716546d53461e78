/**
 What a finished generation gives its consumer, the renderer: every bond
 indexes two distinct generated atoms, the bonds within layers come
 first and the interlayer links after them, and the layer the renderer
 derives from an index is the layer of the atom stored there.
 */
module Outcome {
  import opened Lattice
  import opened Bonds
  import opened Display
  import opened Generator
  import opened AtomOrder
  import opened Intralayer
  import opened Interlayer

  /** Every bond the generator emits joins two distinct atoms of the generated sequence. */
  lemma BondsIndexAtoms(p: Params, b: Bond)
    requires p.Valid() && b in IntralayerBonds(p) + InterlayerBonds(p)
    ensures 0 <= b.first < |LatticeAtoms(p)| && 0 <= b.second < |LatticeAtoms(p)|
    ensures b.first != b.second
  {
    LatticeAtomsEnumerate(p);
    assert |LatticeAtoms(p)| == p.AtomCount();
    if b in IntralayerBonds(p) {
      IntralayerBondShape(p, b);
    } else {
      assert b in InterlayerBonds(p);
      InterlayerBondShape(p, b);
    }
  }

  /**
   The renderer's classification splits the bond sequence where the
   passes meet: the bond at position `k` is drawn as interlayer exactly
   when it comes after all the intralayer bonds.
   */
  lemma BondOrder(p: Params, k: int)
    requires p.Valid()
    requires 0 <= k < |IntralayerBonds(p) + InterlayerBonds(p)|
    ensures IsInterlayer(p, (IntralayerBonds(p) + InterlayerBonds(p))[k]) <==> k >= |IntralayerBonds(p)|
  {
    var intra, inter := IntralayerBonds(p), InterlayerBonds(p);
    if k < |intra| {
      IntralayerBondShape(p, intra[k]);
    } else {
      InterlayerBondShape(p, inter[k - |intra|]);
    }
  }

  /** The layer the renderer computes from an atom's index is the layer of the atom stored at that index. */
  lemma RendererLayerMatchesAtom(p: Params, k: int)
    requires p.Valid() && 0 <= k < |LatticeAtoms(p)|
    ensures LayerOfIndex(p, k) == LatticeAtoms(p)[k].layer
  {
    LatticeAtomsEnumerate(p);
    LayerOfFlatten(p, LatticeAtoms(p)[k]);
  }

  /** The program's own parameters: 3 walls of a (6,6) tube, 20 segments long. */
  lemma ProgramParameters(p: Params)
    requires p == Params(3, 6, 20)
    ensures |LatticeAtoms(p)| == 720
    ensures |IntralayerBonds(p)| == 1746
    ensures |InterlayerBonds(p)| == 120
  {
    assert p.layers == 3 && p.n == 6 && p.lengthSegments == 20;
    // The closed forms evaluated at these parameters.
    assert (p.lengthSegments + 1) / 2 == 10;
    assert p.layers * (2 * p.n * p.lengthSegments + 3 * p.n * (p.lengthSegments - 1)) == 1746;
    LatticeAtomsEnumerate(p);
    IntralayerBondCount(p);
    InterlayerBondCount(p);
  }

  /** A single ring of a (6,6) tube: 12 atoms closed by 12 ring bonds, nothing else. */
  lemma SingleRing(p: Params)
    requires p == Params(1, 6, 1)
    ensures |LatticeAtoms(p)| == 12
    ensures |IntralayerBonds(p)| == 12
    ensures |InterlayerBonds(p)| == 0
  {
    LatticeAtomsEnumerate(p);
    IntralayerBondCount(p);
    InterlayerBondCount(p);
  }
}
