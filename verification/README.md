# Multi-walled nanotube lattice generator, modelled in Dafny

The program builds a multi-walled armchair (n,n) carbon nanotube and draws
it. The generator `createMultiWalledNanotube` fills two global sequences:

- `atoms`, with `layers * lengthSegments * 2n` entries;
- `bonds`, a sequence of index pairs into `atoms`.

It works in three passes of nested loops over layer, segment and site:

1. **Atom synthesis** appends every atom in (layer, segment, site) order.
2. **Intralayer bonding** applies an integer neighbour rule to each flat
   index `current = layer * lengthSegments * 2n + i * 2n + j`. The rule has
   a ring bond that wraps at site `2n - 1`, and axial bonds to the next
   segment. Each site is thus linked to the next site around its ring and
   to one or two sites of the next segment; the resulting graph is the
   generator's own rule, not a three-coordinated graphene lattice.
3. **Interlayer bonding** runs only when there is more than one layer. It
   links every atom at an even segment and even site to the atom at the
   same place in the next layer.

The renderer then re-derives an index's layer by integer division by the
number of atoms per layer. It uses that layer to colour atoms and to
classify bonds as interlayer.

The model is organised as follows:

- `lattice.dfy` (module `Lattice`):
  - the parameters;
  - abstract atoms `Atom(layer, segment, site)`;
  - bonds;
  - the flattening of lattice coordinates to an index, and its inverse;
  - the generator's neighbour rule in lattice coordinates, as an independent
    reference.
- `display.dfy` (module `Display`): the renderer's layer-of-index and
  interlayer test, using C++ truncating division.
- `bonds.dfy` (module `Bonds`):
  - the bonds emitted for one site (ring and axial);
  - the prefix of each bond pass up to any loop position;
  - a proof that the integer rule equals the reference neighbour rule.
- `generator.dfy` (module `Generator`): the generator as a class `Nanotube`
  whose fields `atoms` and `bonds` its methods update in place. The loops
  are proved against the prefix functions.
- `atom_order.dfy`, `intralayer.dfy`, `interlayer.dfy`, `outcome.dfy`:
  - what the generated sequences are;
  - exact counts;
  - soundness and completeness of both bond passes against their reference
    descriptions;
  - what the renderer sees.

## Model

| member | source | states |
|---|---|---|
| Generator.Nanotube.constructor | Main.cpp:22-23 | Both sequences start empty. |
| Generator.Nanotube.CreateMultiWalledNanotube | Main.cpp:25-110 | Generation clears both sequences, then leaves exactly the lattice atoms in loop order and the intralayer bonds followed by the interlayer bonds; nothing of the old contents survives. |
| Generator.Nanotube.SynthesizeAtoms | Main.cpp:29-55 | Starting from an empty sequence, the three nested loops leave `LatticeAtoms(p)`. Each loop head carries the prefix of atoms before its position. |
| Generator.Nanotube.BondWithinLayers | Main.cpp:58-91 | Starting from an empty bond sequence, the loops leave exactly `IntralayerBonds(p)`. The offsets are computed as the source writes them (products), and each loop position carries the prefix of bonds emitted so far. |
| Generator.Nanotube.EmitRingBond | Main.cpp:65-73 | Appends exactly the ring bond of site `j`: one bond to the next index, or for site `2n - 1` back to site 0 of the ring. |
| Generator.Nanotube.EmitAxialBonds | Main.cpp:75-88 | Below the last segment it appends one axial bond for an even site and two for an odd site, the last odd site wrapping to `current + 1`; in the last segment it appends nothing. |
| Generator.Nanotube.BondAdjacentLayers | Main.cpp:94-109 | Appends exactly `InterlayerBonds(p)`, and nothing at all with a single layer. |
| Generator.Nanotube.LinkLayerPair | Main.cpp:96-107 | One layer-loop iteration, with segments and sites stepping by 2, appends the links from `layer` to `layer + 1` and extends the prefix to the next layer. |
| Generator.RegenerateAfterOther | Main.cpp:26-27 | Generating for `p`, then for other parameters, then for `p` again gives identical atoms and bonds in the same order; output depends only on the parameters. |
| Lattice.SegmentOffsetIsProduct | Main.cpp:63 | The recursive segment offset equals `i * 2n`. |
| Lattice.LayerOffsetIsProduct | Main.cpp:59 | The recursive layer offset equals `layer * (lengthSegments * 2n)`. |
| Lattice.LayerOffsetAsWritten | Main.cpp:59 | The source's left-to-right product `layer * lengthSegments * 2 * n` is the layer offset. |
| Lattice.SegmentOffsetAsWritten | Main.cpp:63 | The source's `i * 2 * n` is the segment offset. |
| Lattice.FlattenFormula | Main.cpp:63 | An atom's flat index is `layer * lengthSegments * 2n + segment * 2n + site`. |
| Lattice.Unflatten | Main.cpp:231-232 | Decoding an index gives in-range segment and site; the decoded atom is in the lattice exactly when the index is below the atom count; and flattening it gives back the index. |
| Lattice.FlattenInLayer | Main.cpp:59-63 | A lattice atom's index lies in its own layer's block of `lengthSegments * 2n` indices and below the atom count. |
| Lattice.UnflattenFlatten | Main.cpp:63 | Decoding the index of a lattice atom gives back that atom. |
| Lattice.FlattenInjective | Main.cpp:63 | Distinct lattice atoms have distinct indices. |
| Lattice.NeighboursShape | Main.cpp:65-88 | A site's neighbours have these properties: they are lattice atoms of the same layer, distinct from the site; the first is in the same segment; the others are in the next segment; there are one, two or zero axial neighbours (even site, odd site, last segment). |
| Bonds.SiteBondsAreNeighbours | Main.cpp:63-88 | The integer rule for one site emits exactly the bonds to the neighbours given by the reference rule, in the same order; this includes the ring wrap and the axial wrap. |
| Display.TruncDiv | Main.cpp:232 | C++ division truncates toward zero: for non-negative dividends it gives the floor quotient, and for negative ones the negated floor quotient of the magnitude. |
| Display.LayerOfIndex | Main.cpp:231-232 | For a non-negative index, the renderer's layer `L` satisfies `L * atomsPerLayer <= k < (L + 1) * atomsPerLayer`. |
| Display.LayerOfIndexBlock | Main.cpp:231-232 | A non-negative index has renderer layer `L` if and only if it lies in `L`'s block `[L * atomsPerLayer, (L + 1) * atomsPerLayer)`. |
| Display.IsInterlayer | Main.cpp:231-232 | For non-negative ends, a bond is interlayer (the truncated quotients of its ends by the atoms per layer differ) if and only if its second end lies outside the block of indices of its first end's layer. |
| Display.LayerOfFlatten | Main.cpp:238 | The renderer's layer of a lattice atom's index is that atom's layer. |
| AtomOrder.AtomsBeforeEnumerates | Main.cpp:29-55 | At every loop position, the atoms laid down are the lattice atoms before that position; their number is the position's flat index, and each sits at its own flat index. |
| AtomOrder.LatticeAtomsEnumerate | Main.cpp:29-55 | After the first pass there are exactly `layers * lengthSegments * 2n` atoms, each a lattice atom at its own flat index. |
| AtomOrder.LatticeAtomAt | Main.cpp:29-55 | The atom for (layer, i, j) is stored at index `layer * lengthSegments * 2n + i * 2n + j`. |
| Intralayer.SiteBondsAreEdges | Main.cpp:63-88 | Every bond emitted for a site starts at that site and is a lattice edge. |
| Intralayer.IntralayerBeforeSound | Main.cpp:58-91 | Every bond emitted up to any loop position is a lattice edge. |
| Intralayer.IntralayerBeforeComplete | Main.cpp:58-91 | Every bond of every site visited before a loop position has been emitted by then. |
| Intralayer.IntralayerBondsAreLatticeEdges | Main.cpp:58-91 | A bond is in the intralayer pass's output if and only if it joins a lattice atom to one of its neighbours under the reference rule in lattice coordinates. |
| Intralayer.IntralayerBondShape | Main.cpp:58-91 | Every intralayer bond has these properties: both ends are in range and distinct, and in the same layer; it goes either to the next site of the same ring (mod 2n) or to the next segment, and only from below the last segment; the renderer classifies it as not interlayer. |
| Intralayer.SiteBondCount | Main.cpp:65-88 | A site emits one ring bond, and below the last segment one axial bond if even and two if odd. |
| Intralayer.IntralayerBeforeCount | Main.cpp:58-91 | The number of bonds emitted up to any loop position is given by a closed form. |
| Intralayer.IntralayerBondCount | Main.cpp:58-91 | The pass emits `layers * (2n * lengthSegments + 3n * (lengthSegments - 1))` bonds, and with one segment only the `layers * 2n` ring bonds. |
| Intralayer.RingOfFlatten | Main.cpp:63 | A lattice atom's index divided by `2n` is the number of its ring, `layer * lengthSegments + segment`. |
| Intralayer.SameRing | Main.cpp:63 | Two lattice atoms fall in the same block of `2n` indices if and only if they share layer and segment. |
| Intralayer.SiteRingBondTotal | Main.cpp:65-88 | The ring bond of a site stays in its ring, and its axial bonds leave the ring. |
| Intralayer.RingBondTotalStep | Main.cpp:62-88 | Each site visited adds exactly one within-ring bond. |
| Intralayer.IntralayerBeforeRingBondTotal | Main.cpp:58-91 | Up to any loop position, the number of within-ring bonds equals the position's flat index. |
| Intralayer.IntralayerBeforeExtends | Main.cpp:62-88 | Within a segment, the bonds emitted so far only grow by appending. |
| Intralayer.SegmentRingBondCount | Main.cpp:61-90 | Each segment appends a block containing exactly `2n` within-ring bonds. |
| Intralayer.IntralayerRingBondTotal | Main.cpp:58-91 | Over the whole pass, the within-ring bonds number exactly one per atom. |
| Interlayer.LinkIsStackedPair | Main.cpp:101-105 | The link at an even segment and even site joins index `k` to `k + lengthSegments * 2n`. |
| Interlayer.InterlayerBeforeSound | Main.cpp:94-109 | Every link emitted up to any loop position is a stacked pair. |
| Interlayer.InterlayerBeforeComplete | Main.cpp:94-109 | The link of every even site of every even segment visited before a loop position has been emitted by then. |
| Interlayer.InterlayerBondsAreStackedPairs | Main.cpp:94-109 | A bond is in the interlayer pass's output if and only if it joins a link site of a layer below the last to the index one layer further on. |
| Interlayer.InterlayerBondShape | Main.cpp:94-109 | Every interlayer bond has these properties: its ends are in range and increasing; the second end is the atom at the same segment and site of the next layer; the renderer classifies it as interlayer, with layers exactly one apart. |
| Interlayer.InterlayerBeforeCount | Main.cpp:94-109 | The number of links emitted up to any loop position is given by a closed form. |
| Interlayer.InterlayerBondCount | Main.cpp:94-109 | The interlayer pass emits `(layers - 1) * ceil(lengthSegments / 2) * n` bonds, and none with one layer. |
| Outcome.BondsIndexAtoms | Main.cpp:63-105 | Every emitted bond indexes two distinct atoms of the generated sequence. |
| Outcome.BondOrder | Main.cpp:58-109 | The bond at position `k` is classified as interlayer by the renderer if and only if it comes after all the intralayer bonds. |
| Outcome.RendererLayerMatchesAtom | Main.cpp:237-239 | The layer the renderer computes from an atom index is the layer of the atom stored there. |
| Outcome.ProgramParameters | Main.cpp:15-20 | With the program's constants (3 layers, n = 6, 20 segments), the output is 720 atoms, 1746 intralayer bonds and 120 interlayer bonds. |
| Outcome.SingleRing | Main.cpp:65-88 | One layer of one segment with n = 6 gives 12 atoms, 12 ring bonds and no other bonds. |

## Left out

- Atom coordinates are left out. They come from floating-point trigonometry (radius, `cos`/`sin`, the axial centring), so an atom is modelled by its lattice coordinates.
- Rendering, lighting, the camera, keyboard handling and the GLUT main loop are left out. They are library calls and I/O with no integer logic; only the renderer's layer and interlayer expressions are modelled.
- The parameters are compile-time constants in the program. Here they are inputs, with the requirement that all three are at least 1. The source validates nothing and has no error path, and neither does the model.
- 32-bit `int` overflow is not modelled; indices are unbounded integers. The program's constants give indices below 720, far from the limit.
- In the second and third passes, parts of a loop body are separate methods:
  - `EmitRingBond` and `EmitAxialBonds` are the two halves of the site body;
  - `LinkLayerPair` is the body of the layer loop, and it receives the two offsets the loop computes.
  
  Their statements are those of the source in the same order. The split keeps each proof small.
- In the even branch of the ring rule, the guard `j < 2n - 1` always holds, since an even `j` below `2n` is at most `2n - 2`. It is modelled as written.
- With n = 1, the ring rule and the odd-site axial rule both name the same neighbour twice, so duplicate bonds are emitted. The model reproduces this; no property claims the bonds are pairwise distinct.
