/**
 What the interlayer pass promises: it links every atom at an even
 segment and an even site of each layer but the outermost to the atom
 at the same place in the next layer, one layer's worth of indices
 further on, and the renderer sees each of these links as interlayer.
 */
module Interlayer {
  import opened Lattice
  import opened Bonds
  import opened Display

  /** Where the interlayer pass places a link: an even segment and an even site of a layer below the last. */
  predicate IsLinkSite(p: Params, a: Atom) {
    InLattice(p, a) && a.layer < p.layers - 1 && a.segment % 2 == 0 && a.site % 2 == 0
  }

  /**
   A bond from a link site to the index one layer further on, that is to
   the atom at the same segment and site of the next layer.
   */
  predicate IsStackedPair(p: Params, b: Bond)
    requires p.Valid()
  {
    && 0 <= b.first
    && IsLinkSite(p, Unflatten(p, b.first))
    && b.second == b.first + p.AtomsPerLayer()
  }

  /** The position reached by the interlayer pass's loops, which step segments and sites by 2. */
  predicate InterReachable(p: Params, layer: int, i: int, j: int) {
    && 0 <= layer < p.layers
    && 0 <= i <= SegmentStop(p) && i % 2 == 0
    && 0 <= j <= 2 * p.n && j % 2 == 0
    && (j > 0 ==> i < p.lengthSegments)
    && (layer == p.layers - 1 ==> i == 0 && j == 0)
  }

  /** The link emitted for a link site is a stacked pair starting at that site. */
  lemma LinkIsStackedPair(p: Params, a: Atom)
    requires p.Valid() && IsLinkSite(p, a)
    ensures var b := InterlayerBond(p, a.layer, a.segment, a.site);
      IsStackedPair(p, b) && b.first == Flatten(p, a)
  {
    UnflattenFlatten(p, a);
    SegmentOffsetIsProduct(p, p.lengthSegments);
  }

  /** Up to any loop position, every link emitted is a stacked pair. */
  lemma {:induction false} InterlayerBeforeSound(p: Params, layer: int, i: int, j: int)
    requires p.Valid() && InterReachable(p, layer, i, j)
    ensures forall b :: b in InterlayerBefore(p, layer, i, j) ==> IsStackedPair(p, b)
    decreases layer, i, j
  {
    if j > 0 {
      InterlayerBeforeSound(p, layer, i, j - 2);
      LinkIsStackedPair(p, Atom(layer, i, j - 2));
    } else if i > 0 {
      InterlayerBeforeSound(p, layer, i - 2, 2 * p.n);
    } else if layer > 0 {
      InterlayerBeforeSound(p, layer - 1, SegmentStop(p), 0);
    }
  }

  /** Up to any loop position, every link site visited has been linked. */
  lemma {:induction false} InterlayerBeforeComplete(p: Params, layer: int, i: int, j: int, a: Atom)
    requires p.Valid() && InterReachable(p, layer, i, j)
    requires IsLinkSite(p, a) && Precedes(a, layer, i, j)
    ensures InterlayerBond(p, a.layer, a.segment, a.site) in InterlayerBefore(p, layer, i, j)
    decreases layer, i, j
  {
    if j > 0 {
      if a != Atom(layer, i, j - 2) {
        InterlayerBeforeComplete(p, layer, i, j - 2, a);
      }
    } else if i > 0 {
      InterlayerBeforeComplete(p, layer, i - 2, 2 * p.n, a);
    } else if layer > 0 {
      InterlayerBeforeComplete(p, layer - 1, SegmentStop(p), 0, a);
    }
  }

  /**
   The interlayer bonds are exactly the stacked pairs: a bond is emitted if
   and only if it links an even segment and even site of a layer below the
   last to the same place in the next layer. With one layer there are none.
   */
  lemma InterlayerBondsAreStackedPairs(p: Params, b: Bond)
    requires p.Valid()
    ensures b in InterlayerBonds(p) <==> IsStackedPair(p, b)
  {
    if p.layers > 1 {
      if b in InterlayerBonds(p) {
        InterlayerBeforeSound(p, p.layers - 1, 0, 0);
      }
      if IsStackedPair(p, b) {
        var a := Unflatten(p, b.first);
        LinkIsStackedPair(p, a);
        InterlayerBeforeComplete(p, p.layers - 1, 0, 0, a);
      }
    }
  }

  /**
   Every interlayer bond runs from an atom to the atom at the same segment
   and site of the next layer, both inside the generated sequence, and the
   renderer classifies it as interlayer, its ends one layer apart.
   */
  lemma InterlayerBondShape(p: Params, b: Bond)
    requires p.Valid() && b in InterlayerBonds(p)
    ensures 0 <= b.first < b.second < p.AtomCount()
    ensures var u := Unflatten(p, b.first);
      Unflatten(p, b.second) == Atom(u.layer + 1, u.segment, u.site)
    ensures IsInterlayer(p, b) && LayerOfIndex(p, b.second) == LayerOfIndex(p, b.first) + 1
  {
    InterlayerBondsAreStackedPairs(p, b);
    var a := Unflatten(p, b.first);
    var above := Atom(a.layer + 1, a.segment, a.site);
    LinkIsStackedPair(p, a);
    assert b == InterlayerBond(p, a.layer, a.segment, a.site);
    UnflattenFlatten(p, above);
    LayerOfFlatten(p, a);
    LayerOfFlatten(p, above);
  }

  /** The links per pair of adjacent layers: `n` even sites on each of the `ceil(lengthSegments / 2)` even segments. */
  function LinksPerLayerPair(p: Params): int {
    ((p.lengthSegments + 1) / 2) * p.n
  }

  /**
   The number of links emitted up to a loop position: `LinksPerLayerPair`
   per finished layer pair, `n` per finished even segment, one per even site.
   */
  lemma {:induction false} InterlayerBeforeCount(p: Params, layer: int, i: int, j: int)
    requires p.Valid() && InterReachable(p, layer, i, j)
    ensures |InterlayerBefore(p, layer, i, j)| == layer * LinksPerLayerPair(p) + (i / 2) * p.n + j / 2
    decreases layer, i, j
  {
    if j > 0 {
      InterlayerBeforeCount(p, layer, i, j - 2);
      assert |InterlayerBefore(p, layer, i, j)| == |InterlayerBefore(p, layer, i, j - 2)| + 1;
    } else if i > 0 {
      InterlayerBeforeCount(p, layer, i - 2, 2 * p.n);
      assert InterlayerBefore(p, layer, i, 0) == InterlayerBefore(p, layer, i - 2, 2 * p.n);
      assert (i - 2) / 2 + 1 == i / 2;
      MulSucc((i - 2) / 2, p.n);
    } else if layer > 0 {
      InterlayerBeforeCount(p, layer - 1, SegmentStop(p), 0);
      assert InterlayerBefore(p, layer, 0, 0) == InterlayerBefore(p, layer - 1, SegmentStop(p), 0);
      assert SegmentStop(p) / 2 == (p.lengthSegments + 1) / 2;
      MulSucc(layer - 1, LinksPerLayerPair(p));
    }
  }

  /** The interlayer pass emits `(layers - 1) * ceil(lengthSegments / 2) * n` bonds, none with a single layer. */
  lemma InterlayerBondCount(p: Params)
    requires p.Valid()
    ensures |InterlayerBonds(p)| == (p.layers - 1) * ((p.lengthSegments + 1) / 2) * p.n
  {
    if p.layers > 1 {
      InterlayerBeforeCount(p, p.layers - 1, 0, 0);
      assert (p.layers - 1) * LinksPerLayerPair(p) == (p.layers - 1) * ((p.lengthSegments + 1) / 2) * p.n;
    }
  }
}
