/**
 The lattice of a multi-walled armchair (n,n) nanotube, as indices.

 Every atom of the tube is named by its layer (the concentric wall it sits
 on), its axial segment and its site within the segment's ring of 2n atoms.
 The generator stores atoms in one flat sequence, and the flattening
 `layer * lengthSegments * 2n + segment * 2n + site` is what both bond passes
 and the renderer rely on. This module defines that flattening, its inverse,
 and the generator's neighbour rule stated in lattice coordinates, which the
 integer bond rule of the generator is later proved to implement.
 */
module Lattice {

  /** The structural parameters the generator reads (compile-time constants in the program). */
  datatype Params = Params(layers: int, n: int, lengthSegments: int) {

    /** The generator is only meaningful for positive parameters. */
    predicate Valid() {
      layers >= 1 && n >= 1 && lengthSegments >= 1
    }

    /** Number of atoms in one layer. */
    function AtomsPerLayer(): int {
      lengthSegments * (2 * n)
    }

    /** Number of atoms in the whole tube. */
    function AtomCount(): int {
      layers * AtomsPerLayer()
    }
  }

  /**
   An atom, identified by its lattice coordinates; its 3-D position is a
   function of these coordinates and of floating-point constants that this
   model does not follow.
   */
  datatype Atom = Atom(layer: int, segment: int, site: int)

  /** A bond: the flat indices of its two atoms, in the order the generator emits them. */
  datatype Bond = Bond(first: int, second: int)

  /** An atom that the generator creates for parameters `p`. */
  predicate InLattice(p: Params, a: Atom) {
    0 <= a.layer < p.layers && 0 <= a.segment < p.lengthSegments && 0 <= a.site < 2 * p.n
  }

  /**
   Atom `a` comes before position (layer, i, j) in the order in which the
   generator's loops visit (layer, segment, site).
   */
  predicate Precedes(a: Atom, layer: int, i: int, j: int) {
    a.layer < layer || (a.layer == layer && (a.segment < i || (a.segment == i && a.site < j)))
  }

  /**
   A position the generator's loop heads reach: any site of any segment
   of a layer, the end of a segment (`j == 2n`), the end of a layer
   (`i == lengthSegments`), and the end of the whole run.
   */
  predicate Reachable(p: Params, layer: int, i: int, j: int) {
    && 0 <= layer && 0 <= i <= p.lengthSegments && 0 <= j <= 2 * p.n
    && (j > 0 ==> i < p.lengthSegments)
    && (layer < p.layers || (layer == p.layers && i == 0 && j == 0))
  }

  /**
   The index of site 0 of segment `i` within its layer: `i` rings of 2n
   sites, that is `i * 2n`. It is defined by counting one ring at a time,
   so that the loop proofs step by addition and never multiply;
   `SegmentOffsetIsProduct` connects it to the product.
   */
  function SegmentOffset(p: Params, i: int): int
    decreases i
  {
    if i <= 0 then 0 else SegmentOffset(p, i - 1) + 2 * p.n
  }

  /**
   The index of the first atom of `layer`: `layer` blocks of
   `lengthSegments` rings, that is `layer * lengthSegments * 2n`. Like
   `SegmentOffset` it counts one block at a time; `LayerOffsetIsProduct`
   connects it to the product.
   */
  function LayerOffset(p: Params, layer: int): int
    decreases layer
  {
    if layer <= 0 then 0 else LayerOffset(p, layer - 1) + SegmentOffset(p, p.lengthSegments)
  }

  /** The segment offset is the product the layout formula names. */
  lemma {:induction false} SegmentOffsetIsProduct(p: Params, i: int)
    requires i >= 0
    ensures SegmentOffset(p, i) == i * (2 * p.n)
  {
    if i > 0 {
      SegmentOffsetIsProduct(p, i - 1);
      assert (i - 1) * (2 * p.n) + 2 * p.n == i * (2 * p.n);
    }
  }

  /** The layer offset is the product the layout formula names. */
  lemma {:induction false} LayerOffsetIsProduct(p: Params, layer: int)
    requires layer >= 0 && p.lengthSegments >= 0
    ensures LayerOffset(p, layer) == layer * p.AtomsPerLayer()
  {
    if layer > 0 {
      LayerOffsetIsProduct(p, layer - 1);
      SegmentOffsetIsProduct(p, p.lengthSegments);
      assert (layer - 1) * p.AtomsPerLayer() + p.AtomsPerLayer() == layer * p.AtomsPerLayer();
    }
  }

  /** The layer offset as the generator computes it, factor by factor from the left. */
  lemma LayerOffsetAsWritten(p: Params, layer: int)
    requires layer >= 0 && p.lengthSegments >= 0
    ensures layer * p.lengthSegments * 2 * p.n == LayerOffset(p, layer)
  {
    LayerOffsetIsProduct(p, layer);
    MulAssoc(layer * p.lengthSegments, 2, p.n);
    MulAssoc(layer, p.lengthSegments, 2 * p.n);
  }

  /** The segment offset as the generator computes it. */
  lemma SegmentOffsetAsWritten(p: Params, i: int)
    requires i >= 0
    ensures i * 2 * p.n == SegmentOffset(p, i)
  {
    SegmentOffsetIsProduct(p, i);
    MulAssoc(i, 2, p.n);
  }

  /** The flat index of an atom: layer offset, plus segment offset, plus site. */
  function Flatten(p: Params, a: Atom): int {
    LayerOffset(p, a.layer) + SegmentOffset(p, a.segment) + a.site
  }

  /** The flattening is the layout formula `layer * lengthSegments * 2n + segment * 2n + site`. */
  lemma FlattenFormula(p: Params, a: Atom)
    requires p.Valid() && a.layer >= 0 && a.segment >= 0
    ensures Flatten(p, a) == a.layer * p.AtomsPerLayer() + a.segment * (2 * p.n) + a.site
  {
    LayerOffsetIsProduct(p, a.layer);
    SegmentOffsetIsProduct(p, a.segment);
  }

  /**
   The atom at a flat index: the inverse of `Flatten`. Indices past the
   last layer decode to layers the generator does not create.
   */
  function Unflatten(p: Params, k: int): (a: Atom)
    requires p.Valid() && 0 <= k
    ensures 0 <= a.layer && 0 <= a.segment < p.lengthSegments && 0 <= a.site < 2 * p.n
    ensures k < p.AtomCount() <==> InLattice(p, a)
    ensures Flatten(p, a) == k
  {
    var perLayer := p.AtomsPerLayer();
    var rest := k % perLayer;
    var a := Atom(k / perLayer, rest / (2 * p.n), rest % (2 * p.n));
    Compose(k, p.layers, p.lengthSegments, 2 * p.n);
    FlattenFormula(p, a);
    a
  }

  /** The flat index of a lattice atom lies inside its own layer's block of indices. */
  lemma FlattenInLayer(p: Params, a: Atom)
    requires p.Valid() && InLattice(p, a)
    ensures a.layer * p.AtomsPerLayer() <= Flatten(p, a) < (a.layer + 1) * p.AtomsPerLayer()
    ensures 0 <= Flatten(p, a) < p.AtomCount()
  {
    FlattenFormula(p, a);
    Decompose(a.layer, a.segment, a.site, p.layers, p.lengthSegments, 2 * p.n);
  }

  /** Flattening a lattice atom and reading the index back gives the same atom. */
  lemma UnflattenFlatten(p: Params, a: Atom)
    requires p.Valid() && InLattice(p, a)
    ensures 0 <= Flatten(p, a) < p.AtomCount()
    ensures Unflatten(p, Flatten(p, a)) == a
  {
    FlattenFormula(p, a);
    Decompose(a.layer, a.segment, a.site, p.layers, p.lengthSegments, 2 * p.n);
  }

  /** Two lattice atoms with the same flat index are the same atom. */
  lemma FlattenInjective(p: Params, a: Atom, b: Atom)
    requires p.Valid() && InLattice(p, a) && InLattice(p, b)
    requires Flatten(p, a) == Flatten(p, b)
    ensures a == b
  {
    UnflattenFlatten(p, a);
    UnflattenFlatten(p, b);
  }

  /**
   The generator's neighbour rule in lattice coordinates: each site is linked
   to the next site around its ring (the last site closing the ring onto
   site 0) and, unless it sits in the last segment, to the next segment:
   an even site to the same site, an odd site to the two sites on either
   side of it.
   */
  function Neighbours(p: Params, a: Atom): seq<Atom>
    requires p.Valid()
  {
    var w := 2 * p.n;
    var ring := [Atom(a.layer, a.segment, (a.site + 1) % w)];
    var axial :=
      if a.segment < p.lengthSegments - 1 then
        if a.site % 2 == 0 then [Atom(a.layer, a.segment + 1, a.site)]
        else [Atom(a.layer, a.segment + 1, a.site - 1), Atom(a.layer, a.segment + 1, (a.site + 1) % w)]
      else [];
    ring + axial
  }

  /**
   What the neighbour rule promises: the neighbours of a lattice atom are
   lattice atoms of the same layer, distinct from it; the first is in the
   same segment, every other one in the next segment; an even site has one
   axial neighbour, an odd site two, and the last segment none.
   */
  lemma NeighboursShape(p: Params, a: Atom)
    requires p.Valid() && InLattice(p, a)
    ensures var nb := Neighbours(p, a);
      && |nb| == 1 + (if a.segment < p.lengthSegments - 1 then (if a.site % 2 == 0 then 1 else 2) else 0)
      && (forall k :: 0 <= k < |nb| ==> InLattice(p, nb[k]) && nb[k].layer == a.layer && nb[k] != a)
      && nb[0].segment == a.segment
      && (forall k :: 1 <= k < |nb| ==> nb[k].segment == a.segment + 1)
  {
    var w := 2 * p.n;
    if a.site + 1 < w {
      DivModUnique(a.site + 1, w, 0, a.site + 1);
    } else {
      DivModUnique(a.site + 1, w, 1, 0);
    }
    assert (a.site + 1) % w != a.site;
  }

  // Arithmetic helpers, stated on plain integers.

  /** The mixed-radix number (layer, segment, site) with radices (segments, width) and its digits. */
  lemma Decompose(layer: int, segment: int, site: int, layers: int, segments: int, width: int)
    requires 0 <= layer && 0 <= segment < segments && 0 <= site < width
    ensures var k := layer * (segments * width) + segment * width + site;
      && layer * (segments * width) <= k < (layer + 1) * (segments * width)
      && k / (segments * width) == layer
      && (k % (segments * width)) / width == segment
      && (k % (segments * width)) % width == site
      && (layer < layers <==> k < layers * (segments * width))
  {
    var block := segments * width;
    var rest := segment * width + site;
    MulLe(segment, segments - 1, width);
    assert rest < block;
    DivModUnique(layer * block + rest, block, layer, rest);
    DivModUnique(rest, width, segment, site);
    if layer < layers {
      MulLe(layer + 1, layers, block);
    } else {
      MulLe(layers, layer, block);
    }
  }

  /** Every index splits into digits (layer, segment, site) with the radices (segments, width). */
  lemma Compose(k: int, layers: int, segments: int, width: int)
    requires 0 <= k && segments >= 1 && width >= 1
    ensures var block := segments * width;
      var layer, segment, site := k / block, (k % block) / width, (k % block) % width;
      && 0 <= layer && 0 <= segment < segments && 0 <= site < width
      && k == layer * block + segment * width + site
      && (k < layers * block <==> layer < layers)
  {
    var block := segments * width;
    var rest := k % block;
    DivBelow(rest, segments, width);
    Decompose(k / block, rest / width, rest % width, layers, segments, width);
  }

  lemma MulLe(x: int, y: int, c: int)
    requires x <= y && c >= 0
    ensures x * c <= y * c
  {
    assert y * c - x * c == (y - x) * c;
  }

  lemma MulAssoc(x: int, y: int, z: int)
    ensures x * y * z == x * (y * z)
  {
  }

  lemma MulSucc(x: int, c: int)
    ensures (x + 1) * c == x * c + c
  {
  }

  /** Euclidean division is determined by any quotient and in-range remainder. */
  lemma DivModUnique(x: int, d: int, q: int, r: int)
    requires d > 0 && 0 <= r < d && x == q * d + r
    ensures x / d == q && x % d == r
  {
    var q', r' := x / d, x % d;
    assert x == q' * d + r';
    if q' < q {
      MulLe(q' + 1, q, d);
    } else if q < q' {
      MulLe(q + 1, q', d);
    }
  }

  /** A non-negative index below `bound * d` has quotient below `bound`. */
  lemma DivBelow(k: int, bound: int, d: int)
    requires d > 0 && 0 <= k < bound * d
    ensures 0 <= k / d < bound
  {
    if k / d >= bound {
      MulLe(bound, k / d, d);
    }
  }
}
