/**
 What the renderer derives from the generator's output: the layer of an
 atom index, used to pick the atom's colour, and whether a bond is
 interlayer, used to pick the bond's colour and thickness. Both are
 integer divisions of an index by the number of atoms per layer.
 */
module Display {
  import opened Lattice

  /** Integer division as C++ performs it: truncated toward zero. */
  function TruncDiv(x: int, d: int): (q: int)
    requires d > 0
    ensures x >= 0 ==> q * d <= x < (q + 1) * d
    ensures x < 0 ==> -q * d <= -x < (-q + 1) * d
  {
    if x >= 0 then x / d else -((-x) / d)
  }

  /** The layer the renderer attributes to an atom index. */
  function LayerOfIndex(p: Params, k: int): (layer: int)
    requires p.Valid()
    ensures k >= 0 ==> layer * p.AtomsPerLayer() <= k < (layer + 1) * p.AtomsPerLayer()
  {
    TruncDiv(k, p.AtomsPerLayer())
  }

  /**
   The renderer's layer of a non-negative index is the one layer whose
   block of indices contains it.
   */
  lemma LayerOfIndexBlock(p: Params, k: int, layer: int)
    requires p.Valid() && 0 <= k
    ensures layer * p.AtomsPerLayer() <= k < (layer + 1) * p.AtomsPerLayer() <==> LayerOfIndex(p, k) == layer
  {
    var q := LayerOfIndex(p, k);
    if q < layer {
      MulLe(q + 1, layer, p.AtomsPerLayer());
    } else if q > layer {
      MulLe(layer + 1, q, p.AtomsPerLayer());
    }
  }

  /**
   The renderer's test for an interlayer bond: its two ends fall in
   different layers, that is, the second end lies outside the block of
   indices of the first end's layer.
   */
  function IsInterlayer(p: Params, b: Bond): (interlayer: bool)
    requires p.Valid()
    ensures 0 <= b.first && 0 <= b.second ==>
      var home := LayerOfIndex(p, b.first);
      (interlayer <==> !(home * p.AtomsPerLayer() <= b.second < (home + 1) * p.AtomsPerLayer()))
  {
    var home := LayerOfIndex(p, b.first);
    if 0 <= b.second then
      LayerOfIndexBlock(p, b.second, home);
      home != LayerOfIndex(p, b.second)
    else
      home != LayerOfIndex(p, b.second)
  }

  /**
   The renderer's layer agrees with the generator's layout: the atom the
   generator stores at `Flatten(p, a)` is drawn with the colour of layer
   `a.layer`.
   */
  lemma LayerOfFlatten(p: Params, a: Atom)
    requires p.Valid() && InLattice(p, a)
    ensures LayerOfIndex(p, Flatten(p, a)) == a.layer
  {
    FlattenInLayer(p, a);
    LayerOfIndexBlock(p, Flatten(p, a), a.layer);
  }
}
