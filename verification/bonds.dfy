/**
 The two bond passes of the generator, as functions of the parameters.

 Each pass is a nest of loops, and each loop level has a function giving
 the bonds emitted before the loop variable reached a given value: these
 are the prefixes the generator's loop invariants name. The neighbour rule
 on flat indices (`SiteBonds`) is proved equal to the rule in lattice
 coordinates (`Lattice.Neighbours`).
 */
module Bonds {
  import opened Lattice

  /**
   The bond around the ring emitted for site `j` whose flat index is
   `current`: an even site links to the next index, an odd site to the next
   index too, except the last site of the ring, which links back to site 0.
   */
  function RingBonds(p: Params, current: int, j: int): seq<Bond> {
    var w := 2 * p.n;
    if j % 2 == 0 then
      if j < w - 1 then [Bond(current, current + 1)] else []
    else
      [Bond(current, if j == w - 1 then current - (w - 1) else current + 1)]
  }

  /**
   The bonds to the next segment emitted for site `j` of segment `i`, none
   in the last segment: an even site links straight up the tube, an odd
   site to the two sites on either side above it, the last site of the ring
   wrapping to the first site above.
   */
  function AxialBonds(p: Params, current: int, i: int, j: int): seq<Bond> {
    var w := 2 * p.n;
    if i < p.lengthSegments - 1 then
      if j % 2 == 0 then [Bond(current, current + w)]
      else [Bond(current, current + w - 1), Bond(current, if j < w - 1 then current + w + 1 else current + 1)]
    else []
  }

  /** The bonds the intralayer pass emits for the site `(layer, i, j)`, in emission order. */
  function SiteBonds(p: Params, layer: int, i: int, j: int): seq<Bond> {
    var current := Flatten(p, Atom(layer, i, j));
    RingBonds(p, current, j) + AxialBonds(p, current, i, j)
  }

  /**
   The integer rule implements the neighbour rule: the bonds emitted for a
   lattice site join it to exactly its neighbours under that rule, in the order
   `Neighbours` lists them.
   */
  lemma SiteBondsAreNeighbours(p: Params, a: Atom)
    requires p.Valid() && InLattice(p, a)
    ensures var sb, nb := SiteBonds(p, a.layer, a.segment, a.site), Neighbours(p, a);
      && |sb| == |nb|
      && forall k :: 0 <= k < |sb| ==> sb[k] == Bond(Flatten(p, a), Flatten(p, nb[k]))
  {
    var w := 2 * p.n;
    if a.site + 1 < w {
      DivModUnique(a.site + 1, w, 0, a.site + 1);
    } else {
      DivModUnique(a.site + 1, w, 1, 0);
    }
  }

  /**
   The bonds the intralayer pass has emitted when its loops reach layer
   `layer`, segment `i`, site `j`: those of every site before that position
   in the order (layer, segment, site). A position with `j == 0` follows
   the end of the previous segment, one with `i == 0` the end of the
   previous layer.
   */
  function IntralayerBefore(p: Params, layer: int, i: int, j: int): seq<Bond>
    decreases layer, i, j
  {
    if j > 0 then
      var current := Flatten(p, Atom(layer, i, j - 1));
      IntralayerBefore(p, layer, i, j - 1) + RingBonds(p, current, j - 1) + AxialBonds(p, current, i, j - 1)
    else if i > 0 then IntralayerBefore(p, layer, i - 1, 2 * p.n)
    else if layer > 0 then IntralayerBefore(p, layer - 1, p.lengthSegments, 0)
    else []
  }

  /** All bonds of the intralayer pass. */
  function IntralayerBonds(p: Params): seq<Bond> {
    IntralayerBefore(p, p.layers, 0, 0)
  }

  /** The interlayer bond emitted at segment `i`, site `j` between `layer` and `layer + 1`. */
  function InterlayerBond(p: Params, layer: int, i: int, j: int): Bond {
    Bond(Flatten(p, Atom(layer, i, j)), Flatten(p, Atom(layer + 1, i, j)))
  }

  /** The value at which the interlayer pass's segment loop, stepping by 2, stops. */
  function SegmentStop(p: Params): int {
    p.lengthSegments + p.lengthSegments % 2
  }

  /**
   The bonds the interlayer pass has emitted when its loops reach layer
   `layer`, segment `i`, site `j`; segments and sites advance by 2, the
   site loop ends at `2n` and the segment loop at `SegmentStop(p)`.
   */
  function InterlayerBefore(p: Params, layer: int, i: int, j: int): seq<Bond>
    decreases layer, i, j
  {
    if j > 0 then InterlayerBefore(p, layer, i, j - 2) + [InterlayerBond(p, layer, i, j - 2)]
    else if i > 0 then InterlayerBefore(p, layer, i - 2, 2 * p.n)
    else if layer > 0 then InterlayerBefore(p, layer - 1, SegmentStop(p), 0)
    else []
  }

  /** All bonds of the interlayer pass, which runs only when there is more than one layer. */
  function InterlayerBonds(p: Params): seq<Bond> {
    if p.layers > 1 then InterlayerBefore(p, p.layers - 1, 0, 0) else []
  }
}
