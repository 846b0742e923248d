/**
 * What the MoE Hybrid searches decide, in plain bytes: the gates, the valid placements and the tables accepted, as
 * sums over layers in unbounded numbers, against the saturating arithmetic of src/common/plan.c.
 */
module HybridBytes {

  import opened Arithmetic
  import opened HybridCharge
  import opened HybridCluster
  import opened HybridCost
  import opened HybridSingle
  import opened Options

  // ----- Sums over the layers [lo, c) -----

  function ExpertBytes(m: Model, lo: nat, c: nat): nat
    requires lo <= c <= |m.layers|
  {
    if c == lo then 0 else ExpertBytes(m, lo, c - 1) + m.layers[c - 1].expert
  }

  /** One cache slot holds one expert of every weight. */
  function SlotBytes(m: Model, lo: nat, c: nat): nat
    requires lo <= c <= |m.layers|
  {
    if c == lo then 0 else SlotBytes(m, lo, c - 1) + m.layers[c - 1].slot
  }

  function WeightCount(m: Model, lo: nat, c: nat): nat
    requires lo <= c <= |m.layers|
  {
    if c == lo then 0 else WeightCount(m, lo, c - 1) + m.layers[c - 1].count
  }

  /** t is the largest of their tensors, 0 if there are none. */
  ghost predicate IsLargest(m: Model, lo: nat, c: nat, t: nat)
    requires lo <= c <= |m.layers|
  {
    && (forall i | lo <= i < c :: m.layers[i].tensor <= t)
    && (t > 0 ==> exists i :: lo <= i < c && m.layers[i].tensor == t)
  }

  /** Experts, slot, tensor and count come together, and the first two hold the others. */
  predicate WholeLayer(l: Layer) {
    if l.expert == 0 then l.slot == 0 && l.tensor == 0 && l.count == 0
    else 0 < l.slot <= l.expert && 0 < l.tensor <= l.expert && 0 < l.count
  }

  ghost predicate WholeLayers(m: Model, lo: nat, c: nat)
    requires lo <= c <= |m.layers|
  {
    forall i | lo <= i < c :: WholeLayer(m.layers[i])
  }

  /** The geometry of a range exists exactly when its layers are whole and its sums fit 64 bits, and is those sums. */
  lemma {:induction false} GeometryIff(m: Model, lo: nat, c: nat)
    requires lo <= c <= |m.layers|
    ensures Geometry(m, lo, c).Some? <==>
            WholeLayers(m, lo, c) && SlotBytes(m, lo, c) <= MAX && WeightCount(m, lo, c) <= MAX
    ensures Geometry(m, lo, c).Some? ==>
      var g := Geometry(m, lo, c).value;
      && g.slot == SlotBytes(m, lo, c) && g.weights == WeightCount(m, lo, c) && IsLargest(m, lo, c, g.tensor)
      && (g.weights == 0 ==> g.slot == 0 && g.tensor == 0)
    decreases c - lo
  {
    if lo < c {
      GeometryIff(m, lo, c - 1);
      var l := m.layers[c - 1];
      if Geometry(m, lo, c - 1).Some? {
        LayerAdded(l, Geometry(m, lo, c - 1).value);
        if Geometry(m, lo, c).Some? {
          LargestGrows(m, lo, c, Geometry(m, lo, c - 1).value.tensor);
        }
      } else if WholeLayers(m, lo, c) {
        assert WholeLayers(m, lo, c - 1);
      }
    }
  }

  lemma LayerAdded(l: Layer, g: Cache)
    ensures AddLayer(l, g).Some? <==> WholeLayer(l) && g.slot + l.slot <= MAX && g.weights + l.count <= MAX
    ensures AddLayer(l, g).Some? ==>
      AddLayer(l, g).value == Cache(g.slot + l.slot, Max(l.tensor, g.tensor), g.weights + l.count)
  {
  }

  lemma LargestGrows(m: Model, lo: nat, c: nat, t: nat)
    requires lo < c <= |m.layers| && IsLargest(m, lo, c - 1, t)
    ensures IsLargest(m, lo, c, Max(m.layers[c - 1].tensor, t))
  {
    if m.layers[c - 1].tensor <= t && t > 0 {
      var i :| lo <= i < c - 1 && m.layers[i].tensor == t;
      assert lo <= i < c;
    }
  }

  lemma {:induction false} SpillIs(m: Model, lo: nat, c: nat)
    requires lo <= c <= |m.layers|
    ensures Spill(m, lo, c) == Min(MAX, ExpertBytes(m, lo, c))
    decreases c - lo
  {
    if lo < c {
      SpillIs(m, lo, c - 1);
    }
  }

  lemma {:induction false} AllWeightsAre(m: Model, i: nat)
    requires i <= |m.layers|
    ensures AllWeights(m, i) == Min(MAX, m.shared + LayerBytes(m, 0, i))
  {
    if i > 0 {
      AllWeightsAre(m, i - 1);
    }
  }

  // ----- The gates -----

  /**
   * What an owner with a need of `base` bytes holds on its GPU with a cache of `slots`: the need less the experts in
   * RAM; once any are, a staging buffer for the largest tensor and its 512 bytes; and for a cache its slots, a second
   * such buffer, 512 bytes for every weight and one more, and 512 MiB.
   */
  function GateBytes(base: nat, experts: nat, slot: nat, tensor: nat, count: nat, slots: nat): nat {
    Max(0, base - experts)
    + (if count == 0 then 0 else
       tensor + 512 + if slots == 0 then 0 else 0x2000_0000 + tensor + 512 * (count + 1) + slot * slots)
  }

  lemma CacheBytes(g: Cache, slots: u64)
    requires g.weights == 0 ==> g.slot == 0 && g.tensor == 0
    ensures CacheNeed(g, slots) ==
      if g.weights == 0 || slots == 0 then 0
      else Min(MAX, 0x2000_0000 + g.tensor + 512 * (g.weights + 1) + g.slot * slots)
  {
    NonNegative(g.slot, slots);
    FixedBytes(g);
    hide Fixed;
  }

  lemma FixedBytes(g: Cache)
    ensures Fixed(g) == if g.weights == 0 then 0 else Min(MAX, 0x2000_0000 + g.tensor + 512 * (g.weights + 1))
  {
  }

  lemma GateInBytes(m: Model, base: u64, lo: nat, c: nat, slots: u64)
    requires lo <= c <= |m.layers| && Geometry(m, lo, c).Some?
    ensures var g := Geometry(m, lo, c).value;
      && IsLargest(m, lo, c, g.tensor)
      && Gate(m, base, lo, c, slots) == Min(MAX, GateBytes(
           base, ExpertBytes(m, lo, c), SlotBytes(m, lo, c), g.tensor, WeightCount(m, lo, c), slots))
      && Gpu(m, base, lo, c) == Min(MAX, GateBytes(
           base, ExpertBytes(m, lo, c), SlotBytes(m, lo, c), g.tensor, WeightCount(m, lo, c), 0))
  {
    hide Geometry;
    hide Spill;
    hide ExpertBytes;
    hide SlotBytes;
    hide WeightCount;
    hide IsLargest;
    GeometryIff(m, lo, c);
    SpillIs(m, lo, c);
    CacheBytes(Geometry(m, lo, c).value, slots);
    NonNegative(Geometry(m, lo, c).value.slot, slots);
    hide CacheNeed;
  }

  /** One machine: prefix [0, c) admits a cache of s slots exactly when these bytes fit the VRAM and the RAM. */
  lemma AdmitsInBytes(m: Model, o: HybridSingle.Owner, c: nat, s: u64)
    requires c <= |m.layers|
    ensures Admits(m, o, c, s) <==>
      && WholeLayers(m, 0, c) && SlotBytes(m, 0, c) <= MAX && WeightCount(m, 0, c) <= MAX
      && Min(MAX, ExpertBytes(m, 0, c)) <= o.ramCap
      && exists t :: IsLargest(m, 0, c, t) && Min(MAX, GateBytes(
           o.need, ExpertBytes(m, 0, c), SlotBytes(m, 0, c), t, WeightCount(m, 0, c), s)) <= o.vram
  {
    hide Geometry;
    hide Spill;
    hide Gate;
    hide GateBytes;
    GeometryIff(m, 0, c);
    SpillIs(m, 0, c);
    if Geometry(m, 0, c).Some? {
      GateInBytes(m, o.need, 0, c, s);
      forall t | IsLargest(m, 0, c, t) ensures t == Geometry(m, 0, c).value.tensor {
        LargestIsOne(m, 0, c, t, Geometry(m, 0, c).value.tensor);
      }
    }
  }

  lemma LargestIsOne(m: Model, lo: nat, c: nat, t: nat, u: nat)
    requires lo <= c <= |m.layers| && IsLargest(m, lo, c, t) && IsLargest(m, lo, c, u)
    ensures t == u
  {
  }

  // ----- The tables and rosters accepted -----

  /**
   * expert_buckets_consistent: the routes and the layers are whole, no layer has more experts than weights, the totals
   * are the sums, and a strict cache over all layers has a size in 64 bits.
   */
  lemma ConsistentIff(m: Model)
    ensures Consistent(m) <==>
      var n := |m.layers|;
      && 0 < m.nExpertUsed <= m.nExpert && n <= 256
      && 0 < m.expertTotal <= m.total
      && (forall i | 0 <= i < n :: m.layers[i].expert <= m.layers[i].weight)
      && m.expertTotal == Min(MAX, ExpertBytes(m, 0, n)) && m.total == Min(MAX, m.shared + LayerBytes(m, 0, n))
      && WholeLayers(m, 0, n) && 0 < SlotBytes(m, 0, n) <= MAX && WeightCount(m, 0, n) <= MAX
      && exists t: nat :: IsLargest(m, 0, n, t)
           && 0x2000_0000 + t + 512 * (WeightCount(m, 0, n) + 1) + SlotBytes(m, 0, n) * Target(m) < MAX
  {
    hide Geometry;
    hide Spill;
    hide AllWeights;
    hide CacheNeed;
    hide ExpertBytes;
    hide SlotBytes;
    hide WeightCount;
    hide LayerBytes;
    var n := |m.layers|;
    SpillIs(m, 0, n);
    AllWeightsAre(m, n);
    GeometryIff(m, 0, n);
    if Geometry(m, 0, n).Some? {
      var g := Geometry(m, 0, n).value;
      CacheBytes(g, Target(m));
      NonNegative(SlotBytes(m, 0, n), Target(m));
      forall t: nat | IsLargest(m, 0, n, t) ensures t == g.tensor {
        LargestIsOne(m, 0, n, t, g.tensor);
      }
      hide Target;
      hide IsLargest;
    }
  }

  /** The draft's bytes beside its weights in the file are known, and fit 64 bits. */
  predicate DraftKnown(p: Cluster) {
    p.draft.Some? ==>
      var d := p.draft.value;
      && (d.external > 0 || (d.layers > 0 && d.weights > 0)) && d.weights <= p.m.total
      && d.kvPerToken > 0 && d.compute > 0
      && d.external + d.compute + d.kvPerToken * p.ctx < MAX
  }

  function DraftWindow(p: Cluster): nat {
    if p.draft.None? then 0 else
    NonNegative(p.draft.value.kvPerToken, p.ctx);
    p.draft.value.external + p.draft.value.kvPerToken * p.ctx
  }

  lemma DraftIff(p: Cluster)
    ensures DraftExtra(p) != MAX <==> DraftKnown(p)
    ensures DraftKnown(p) ==> LocalKv(p) == DraftWindow(p)
  {
    if p.draft.Some? {
      NonNegative(p.draft.value.kvPerToken, p.ctx);
    }
  }

  /** The early refusals: each is the failure of one of these. */
  lemma ReadyIff(p: Cluster)
    ensures Ready(p) <==>
      && 2 <= |p.nodes| <= |p.m.layers| && p.m.nExpert > 0 && Consistent(p.m)
      && (exists i :: 0 <= i < |p.nodes| && !p.nodes[i].unified && p.nodes[i].cuda && p.nodes[i].ram > 0)
      && DraftKnown(p) && (p.draft.Some? ==> p.draft.value.weights <= p.m.shared)
      && (p.nodes[0].unified || p.hostBytes <= p.nodes[0].ram)
  {
    hide Consistent;
    hide DraftExtra;
    hide DraftKnown;
    DraftIff(p);
    assert forall i | 0 <= i < |p.nodes| ::
      CanSpill(p.nodes[i]) <==> !p.nodes[i].unified && p.nodes[i].cuda && p.nodes[i].ram > 0;
  }

  // ----- The valid placements -----

  /** What the owner of layers [lo, hi) needs with nothing spilled. */
  function NeedBytes(p: Cluster, slot: nat, s: Share): nat
    requires slot < |p.nodes| && InRange(p, s)
  {
    var n, count := |p.m.layers|, s.hi - s.lo;
    NonNegative(p.kv, count);
    LayerBytes(p.m, s.lo, s.hi) + (p.kv * count + n - 1) / n + p.overhead
    + Min(MAX, p.workspace + if p.draft.Some? then p.draft.value.compute else 0)
    + if slot > 0 then 0
      else p.m.shared + p.mmproj + DraftWindow(p) + if p.nodes[0].unified then p.hostBytes else 0
  }

  lemma NeedInBytes(p: Cluster, slot: nat, s: Share)
    requires Ready(p) && p.m.total < MAX && slot < |p.nodes| && InRange(p, s)
    ensures |p.m.layers| <= MAX_LAYERS && Base(p, slot, s.lo, s.hi) == Min(MAX, NeedBytes(p, slot, s))
  {
    ReadyMeans(p);
    assert DraftExtra(p) != MAX;
    hide Ready;
    hide Consistent;
    hide Base;
    hide LayerBytes;
    hide MulDivCeil;
    hide DraftWindow;
    DraftIff(p);
    hide LocalKv;
    hide DraftKnown;
    hide DraftExtra;
    BaseIsCharge(p, slot, s);
    MulDivCeilExact(p.kv, s.hi - s.lo, |p.m.layers|);
  }

  /**
   * Several machines: a share is valid on its owner exactly when these bytes fit the VRAM and, if anything is spilled,
   * the machine's own RAM holds it.
   */
  lemma FitsInBytes(p: Cluster, slots: u64, slot: nat, s: Share)
    requires Ready(p) && p.m.total < MAX && slot < |p.nodes|
    ensures Fits(p, slots, slot, s) <==>
      && InRange(p, s)
      && (s.lo < s.c ==> RamHolds(p, slot, Min(MAX, ExpertBytes(p.m, s.lo, s.c))))
      && exists t :: IsLargest(p.m, s.lo, s.c, t) && Min(MAX, GateBytes(
           Min(MAX, NeedBytes(p, slot, s)), ExpertBytes(p.m, s.lo, s.c), SlotBytes(p.m, s.lo, s.c), t,
           WeightCount(p.m, s.lo, s.c), slots)) <= p.nodes[slot].vram
  {
    ReadyMeans(p);
    FitsIff(p, slots, slot, s);
    hide Ready;
    hide Fits;
    hide RamHolds;
    if InRange(p, s) {
      hide Base;
      hide NeedBytes;
      hide GateBytes;
      NeedInBytes(p, slot, s);
      SpillIs(p.m, s.lo, s.c);
      ConsistentGeometry(p.m, s.lo, s.c);
      hide Consistent;
      GateInBytes(p.m, Base(p, slot, s.lo, s.hi), s.lo, s.c, slots);
      hide Gate;
      hide Geometry;
      forall t | IsLargest(p.m, s.lo, s.c, t) ensures t == Geometry(p.m, s.lo, s.c).value.tensor {
        LargestIsOne(p.m, s.lo, s.c, t, Geometry(p.m, s.lo, s.c).value.tensor);
      }
    }
  }

  // ----- What is minimised -----

  /** The expert bytes in the RAM of all owners. */
  function SpilledBytes(p: Cluster, shares: seq<Share>): nat
    requires forall i | 0 <= i < |shares| :: InRange(p, shares[i])
  {
    if shares == [] then 0 else
    var n := |shares| - 1;
    assert InRange(p, shares[n]);
    SpilledBytes(p, shares[..n]) + ExpertBytes(p.m, shares[n].lo, shares[n].c)
  }

  /** Every range is valid, and what a placement puts in RAM is all bytes spilled. */
  lemma {:induction false} RamInBytes(p: Cluster, slots: u64, shares: seq<Share>, hi: nat)
    requires Ready(p) && |shares| <= |p.nodes| && Places(p, slots, shares, hi)
    ensures forall i | 0 <= i < |shares| :: InRange(p, shares[i])
    ensures CostOf(p, slots, shares, hi).ram == Min(MAX, SpilledBytes(p, shares))
    decreases |shares|
  {
    hide Ready;
    hide GateOf;
    hide GpuOf;
    hide Spill;
    if shares != [] {
      var n := |shares| - 1;
      RamInBytes(p, slots, shares[..n], shares[n].lo);
      assert forall i | 0 <= i < n :: shares[..n][i] == shares[i];
      SpillIs(p.m, shares[n].lo, shares[n].c);
    }
  }

  /** Its peak is the fullest of its GPUs. */
  ghost predicate IsPeak(p: Cluster, shares: seq<Share>, peak: nat)
    requires Consistent(p.m) && |shares| <= |p.nodes| && forall i | 0 <= i < |shares| :: InRange(p, shares[i])
  {
    && (forall i | 0 <= i < |shares| :: GpuOf(p, i, shares[i]) <= peak)
    && (peak > 0 ==> exists i :: 0 <= i < |shares| && GpuOf(p, i, shares[i]) == peak)
  }

  lemma {:induction false} PeakIs(p: Cluster, slots: u64, shares: seq<Share>, hi: nat)
    requires Ready(p) && |shares| <= |p.nodes| && Places(p, slots, shares, hi)
    ensures Consistent(p.m) && forall i | 0 <= i < |shares| :: InRange(p, shares[i])
    ensures IsPeak(p, shares, CostOf(p, slots, shares, hi).peak)
    decreases |shares|
  {
    ReadyMeans(p);
    hide Ready;
    hide Consistent;
    hide Fits;
    hide GpuOf;
    hide SpillOf;
    RamInBytes(p, slots, shares, hi);
    if shares != [] {
      var n := |shares| - 1;
      PeakIs(p, slots, shares[..n], shares[n].lo);
      PeakGrows(p, shares, CostOf(p, slots, shares[..n], shares[n].lo).peak);
    }
  }

  lemma PeakGrows(p: Cluster, shares: seq<Share>, peak: nat)
    requires Consistent(p.m) && 0 < |shares| <= |p.nodes| && forall i | 0 <= i < |shares| :: InRange(p, shares[i])
    requires IsPeak(p, shares[..|shares| - 1], peak)
    ensures var gpu := GpuOf(p, |shares| - 1, shares[|shares| - 1]);
      IsPeak(p, shares, if gpu > peak then gpu else peak)
  {
    hide Consistent;
    hide GpuOf;
    var n := |shares| - 1;
    assert forall i | 0 <= i < n :: shares[..n][i] == shares[i];
    if peak > 0 {
      var i :| 0 <= i < n && GpuOf(p, i, shares[..n][i]) == peak;
      assert GpuOf(p, i, shares[i]) == peak;
    }
  }
}
