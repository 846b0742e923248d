/**
 * The shape of the prefixes that pass in src/common/plan.c's one-machine search: without a cache they form one run,
 * with a cache they need not, which is why the search scans them all.
 */
module HybridPrefixes {

  import opened Arithmetic
  import opened HybridCost
  import opened HybridSingle
  import opened Options

  /** One more layer frees at least what its staging buffer can add. */
  lemma StagingPaid(m: Model, need: u64, c: nat)
    requires Consistent(m) && m.expertTotal <= need && m.expertTotal < MAX && c < |m.layers| && Spill(m, 0, c) > 0
    ensures Geometry(m, 0, c).Some? && Geometry(m, 0, c + 1).Some?
    ensures Gpu(m, need, 0, c + 1) <= Gpu(m, need, 0, c)
  {
    hide Target;
    hide AllWeights;
    ConsistentGeometry(m, 0, c);
    ConsistentGeometry(m, 0, c + 1);
    WeightsIffSlots(m, c);
    SpillMonotone(m, 0, c + 1, |m.layers|);
    assert Geometry(m, 0, c + 1) == AddLayer(m.layers[c], Geometry(m, 0, c).value);
    assert Spill(m, 0, c + 1) == Spill(m, 0, c) + m.layers[c].expert;
  }

  /**
   * A model that needs at least its experts on the GPU: past the first spilled layer a longer prefix never needs
   * more GPU memory.
   */
  lemma {:induction false} LongerNeedsNoMore(m: Model, need: u64, c: nat, d: nat)
    requires Consistent(m) && m.expertTotal <= need && m.expertTotal < MAX
    requires c <= d <= |m.layers| && Spill(m, 0, c) > 0
    ensures Geometry(m, 0, c).Some? && Geometry(m, 0, d).Some?
    ensures Gpu(m, need, 0, d) <= Gpu(m, need, 0, c)
    decreases d
  {
    hide Consistent;
    hide Gpu;
    hide Geometry;
    hide Spill;
    if c < d {
      LongerNeedsNoMore(m, need, c, d - 1);
      SpillMonotone(m, 0, c, d - 1);
      StagingPaid(m, need, d - 1);
    } else {
      ConsistentGeometry(m, 0, c);
    }
  }

  /** Without a cache the passing prefixes are one run: nothing between two of them fails. */
  lemma PassingIsOneRun(m: Model, o: Owner, c: nat, d: nat, e: nat)
    requires Consistent(m) && m.expertTotal <= o.need && m.expertTotal < MAX
    requires c <= d <= e <= |m.layers| && Spill(m, 0, c) > 0 && Passes(m, o, c) && Passes(m, o, e)
    ensures Passes(m, o, d)
  {
    hide Gpu;
    hide Geometry;
    LongerNeedsNoMore(m, o.need, c, d);
    SpillMonotone(m, 0, d, e);
  }

  // ----- With a cache there can be gaps -----

  const BIG: Layer := Layer(1_000_000_000, 1_000_000_000, 1000, 1000, 1)

  /** Little to spill, and large slots. */
  const DENSE: Layer := Layer(3000, 3000, 3000, 1000, 1)

  const PLAIN: Layer := Layer(1_000_000, 1_000_000, 1000, 1000, 1)

  const GAPPED: Model := Model([BIG, DENSE, PLAIN], 10_000_000_000, 1_001_003_000, 11_001_003_000, 4, 1)

  /** The machine's VRAM is exactly what the first prefix takes with two slots. */
  const TIGHT: Owner := Owner(11_001_003_000, 10_537_879_448, MAX)

  lemma GappedSums()
    ensures Spill(GAPPED, 0, 0) == 0 && Spill(GAPPED, 0, 1) == 1_000_000_000
    ensures Spill(GAPPED, 0, 2) == 1_000_003_000 && Spill(GAPPED, 0, 3) == 1_001_003_000
    ensures AllWeights(GAPPED, 0) == 10_000_000_000 && AllWeights(GAPPED, 1) == 11_000_000_000
    ensures AllWeights(GAPPED, 2) == 11_000_003_000 && AllWeights(GAPPED, 3) == 11_001_003_000
    ensures Geometry(GAPPED, 0, 0) == Some(NO_CACHE) && Geometry(GAPPED, 0, 1) == Some(Cache(1000, 1000, 1))
    ensures Geometry(GAPPED, 0, 2) == Some(Cache(4000, 1000, 2))
    ensures Geometry(GAPPED, 0, 3) == Some(Cache(5000, 1000, 3))
  {
  }

  /**
   * A consistent model and a machine that must spill, where the prefix of one layer admits a cache of two slots, the
   * prefix of two does not, and the prefix of three does again.
   */
  lemma AdmittedPrefixesHaveGaps()
    ensures Consistent(GAPPED) && TIGHT.vram < TIGHT.need && Target(GAPPED) == 2
    ensures Admits(GAPPED, TIGHT, 1, 2) && !Admits(GAPPED, TIGHT, 2, 2) && Admits(GAPPED, TIGHT, 3, 2)
  {
    GappedSums();
    hide Geometry;
    hide Spill;
    hide AllWeights;
  }
}
