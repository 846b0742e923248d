/**
 * The costs of moving routed experts to RAM, as src/common/plan.c computes them in saturating
 * 64-bit arithmetic: the bytes spilled, the cache geometry of the spilled layers, and the gate a
 * placement has to pass on its owner's GPU.
 */
module HybridCost {

  import opened Arithmetic
  import opened Options

  function SatAdd(a: u64, b: u64): (r: u64)
    ensures r == if a + b <= MAX then a + b else MAX
  {
    if MAX - a < b then MAX else a + b
  }

  function SatMul(a: u64, b: u64): u64 {
    if 0 <= a * b <= MAX then a * b else MAX
  }

  /** The code's own test, which cannot overflow: MAX when b > MAX / a, else the product. */
  lemma SatMulByDivision(a: u64, b: u64)
    ensures SatMul(a, b) == if a != 0 && b > MAX / a then MAX else a * b
  {
    if a != 0 && b > MAX / a {
      ProductExceeds(a, b);
    } else {
      ProductFits(a, b);
    }
  }

  lemma ProductExceeds(a: nat, b: nat)
    requires a != 0 && b > MAX / a
    ensures a * b > MAX
  {
    assert MAX < (MAX / a + 1) * a;
    NonNegative(b - (MAX / a + 1), a);
    assert b * a == (MAX / a + 1) * a + (b - (MAX / a + 1)) * a;
  }

  lemma ProductFits(a: nat, b: nat)
    requires a == 0 || b <= MAX / a
    ensures 0 <= a * b <= MAX
  {
    NonNegative(a, b);
    if a != 0 {
      NonNegative(MAX / a - b, a);
      assert (MAX / a) * a == b * a + (MAX / a - b) * a;
    }
  }

  // ----- The model, layer by layer -----

  /** One block: its bytes, its routed-expert bytes, and the geometry of its cacheable expert weights. */
  datatype Layer = Layer(weight: u64, expert: u64, slot: u64, tensor: u64, count: u64)

  datatype Model = Model(
    layers: seq<Layer>, shared: u64, expertTotal: u64, total: u64, nExpert: u32, nExpertUsed: u32
  )

  const MAX_LAYERS: nat := 256

  /** What a cache over some layers needs: bytes per slot, the largest tensor, the number of weights. */
  datatype Cache = Cache(slot: u64, tensor: u64, weights: u64)

  const NO_CACHE: Cache := Cache(0, 0, 0)

  /** moe_cache_add_layer; None is its error. */
  function AddLayer(l: Layer, c: Cache): Option<Cache> {
    if l.expert == 0 then
      if l.slot == 0 && l.tensor == 0 && l.count == 0 then Some(c) else None
    else if l.slot == 0 || l.tensor == 0 || l.count == 0 || l.tensor > l.expert || l.slot > l.expert
            || MAX - c.slot < l.slot || MAX - c.weights < l.count then None
    else Some(Cache(c.slot + l.slot, if l.tensor > c.tensor then l.tensor else c.tensor, c.weights + l.count))
  }

  /** The geometry of layers [lo, c). */
  function Geometry(m: Model, lo: nat, c: nat): Option<Cache>
    requires lo <= c <= |m.layers|
  {
    if c == lo then Some(NO_CACHE) else
    match Geometry(m, lo, c - 1)
    case None => None
    case Some(g) => AddLayer(m.layers[c - 1], g)
  }

  /** The expert bytes of layers [lo, c). */
  function Spill(m: Model, lo: nat, c: nat): u64
    requires lo <= c <= |m.layers|
  {
    if c == lo then 0 else SatAdd(Spill(m, lo, c - 1), m.layers[c - 1].expert)
  }

  /** The weight bytes of the first i layers. */
  function WeightPrefix(m: Model, i: nat): u64
    requires i <= |m.layers|
  {
    if i == 0 then 0 else SatAdd(WeightPrefix(m, i - 1), m.layers[i - 1].weight)
  }

  /** The weight bytes of the first i layers and the shared ones. */
  function AllWeights(m: Model, i: nat): u64
    requires i <= |m.layers|
  {
    if i == 0 then m.shared else SatAdd(AllWeights(m, i - 1), m.layers[i - 1].weight)
  }

  /** idletoken_llama_moe_cache_budget succeeds: the strict cache over [lo, hi) has a size. */
  predicate Budgeted(m: Model, lo: nat, hi: nat)
    requires lo <= hi <= |m.layers|
  {
    && 0 < m.nExpertUsed <= m.nExpert && Geometry(m, lo, hi).Some?
    && Target(m) != 0 && CacheNeed(Geometry(m, lo, hi).value, Target(m)) != MAX
  }

  /** expert_buckets_consistent: the table adds up and its geometry is complete. */
  predicate Consistent(m: Model) {
    && 0 < m.expertTotal <= m.total && |m.layers| <= MAX_LAYERS
    && (forall i | 0 <= i < |m.layers| :: m.layers[i].expert <= m.layers[i].weight)
    && Spill(m, 0, |m.layers|) == m.expertTotal && AllWeights(m, |m.layers|) == m.total
    && Budgeted(m, 0, |m.layers|) && Geometry(m, 0, |m.layers|).value.slot > 0
  }

  /** moe_cache_fixed. */
  function Fixed(c: Cache): u64 {
    if c.weights == 0 then 0
    else SatAdd(512 * 0x10_0000, SatAdd(c.tensor, SatMul(SatAdd(c.weights, 1), 512)))
  }

  /** moe_cache_need. */
  function CacheNeed(c: Cache, slots: u64): u64 {
    if slots == 0 then 0 else SatAdd(Fixed(c), SatMul(c.slot, slots))
  }

  /** idletoken_llama_moe_cache_target_experts. */
  function Target(m: Model): (t: u32)
    ensures 0 < m.nExpertUsed <= m.nExpert ==> m.nExpertUsed <= t <= m.nExpert
  {
    if m.nExpert == 0 || m.nExpertUsed == 0 || m.nExpertUsed > m.nExpert then 0
    else
      var twoRoutes := if m.nExpertUsed > m.nExpert / 2 then m.nExpert else m.nExpertUsed * 2;
      var population := m.nExpert / 3 + (if m.nExpert % 3 != 0 then 1 else 0);
      if twoRoutes > population then twoRoutes else population
  }

  /** The larger of two complete routes, at most all experts, and a third of the experts rounded up; else 0. */
  lemma TargetIs(m: Model)
    ensures Target(m) ==
      if 0 < m.nExpertUsed <= m.nExpert then Max(Min(2 * m.nExpertUsed, m.nExpert), (m.nExpert + 2) / 3) else 0
  {
  }

  function Staging(c: Cache): u64 {
    if c.weights == 0 then 0 else SatAdd(c.tensor, 512)
  }

  function Rest(base: u64, spill: u64): u64 {
    if base > spill then base - spill else 0
  }

  /** What the owner's GPU holds when layers [lo, c) have their experts in RAM. */
  function Gpu(m: Model, base: u64, lo: nat, c: nat): u64
    requires lo <= c <= |m.layers| && Geometry(m, lo, c).Some?
  {
    SatAdd(Rest(base, Spill(m, lo, c)), Staging(Geometry(m, lo, c).value))
  }

  /** The same with room for a cache of that many slots. */
  function Gate(m: Model, base: u64, lo: nat, c: nat, slots: u64): u64
    requires lo <= c <= |m.layers| && Geometry(m, lo, c).Some?
  {
    var g := Geometry(m, lo, c).value;
    SatAdd(Rest(base, Spill(m, lo, c)), SatAdd(Staging(g), CacheNeed(g, slots)))
  }

  // ----- Monotonicity -----

  lemma {:induction false} SpillMonotone(m: Model, lo: nat, c: nat, d: nat)
    requires lo <= c <= d <= |m.layers|
    ensures Spill(m, lo, c) <= Spill(m, lo, d)
    decreases d - c
  {
    if c < d {
      SpillMonotone(m, lo, c, d - 1);
    }
  }

  /** A range inside a range with valid geometry has valid geometry, and no larger. */
  lemma {:induction false} GeometryInside(m: Model, lo: nat, c: nat)
    requires lo <= c <= |m.layers| && Geometry(m, 0, c).Some?
    ensures Geometry(m, lo, c).Some?
    ensures var g, h := Geometry(m, lo, c).value, Geometry(m, 0, c).value;
      g.slot <= h.slot && g.tensor <= h.tensor && g.weights <= h.weights
    decreases c
  {
    if lo < c {
      GeometryInside(m, lo, c - 1);
    }
  }

  lemma {:induction false} GeometryShorter(m: Model, c: nat, n: nat)
    requires c <= n <= |m.layers| && Geometry(m, 0, n).Some?
    ensures Geometry(m, 0, c).Some?
    decreases n
  {
    if c < n {
      GeometryShorter(m, c, n - 1);
    }
  }

  lemma ConsistentGeometry(m: Model, lo: nat, c: nat)
    requires Consistent(m) && lo <= c <= |m.layers|
    ensures Geometry(m, lo, c).Some?
  {
    GeometryShorter(m, c, |m.layers|);
    GeometryInside(m, lo, c);
  }

  lemma {:induction false} GeometryGrows(m: Model, lo: nat, c: nat, d: nat)
    requires Consistent(m) && lo <= c <= d <= |m.layers|
    ensures Geometry(m, lo, c).Some? && Geometry(m, lo, d).Some?
    ensures var g, h := Geometry(m, lo, c).value, Geometry(m, lo, d).value;
      g.slot <= h.slot && g.tensor <= h.tensor && g.weights <= h.weights
    decreases d - c
  {
    hide Consistent;
    ConsistentGeometry(m, lo, c);
    ConsistentGeometry(m, lo, d);
    if c < d {
      GeometryGrows(m, lo, c, d - 1);
    }
  }

  lemma SatMulMonotone(a: u64, s: u64, t: u64)
    requires s <= t
    ensures SatMul(a, s) <= SatMul(a, t)
  {
    NonNegative(a, s);
    ProductMonotone(a, s, t);
  }

  /** More slots only tighten the gate. */
  lemma GateMonotone(m: Model, base: u64, lo: nat, c: nat, s: u64, t: u64)
    requires lo <= c <= |m.layers| && Geometry(m, lo, c).Some? && s <= t
    ensures Gpu(m, base, lo, c) <= Gate(m, base, lo, c, s) <= Gate(m, base, lo, c, t)
  {
    hide SatMul;
    hide Fixed;
    hide Geometry;
    hide Spill;
    SatMulMonotone(Geometry(m, lo, c).value.slot, s, t);
  }

  /** Among prefixes with the same spill a longer one needs no less on the GPU. */
  lemma GpuOfEqualSpill(m: Model, base: u64, lo: nat, c: nat, d: nat)
    requires Consistent(m) && lo <= c <= d <= |m.layers| && Spill(m, lo, c) == Spill(m, lo, d)
    ensures Geometry(m, lo, c).Some? && Geometry(m, lo, d).Some?
    ensures Gpu(m, base, lo, c) <= Gpu(m, base, lo, d)
  {
    hide Consistent;
    GeometryGrows(m, lo, c, d);
  }

  /** A consistent table has a strict cache size for every range of its layers. */
  lemma ConsistentBudget(m: Model, lo: nat, hi: nat)
    requires Consistent(m) && lo <= hi <= |m.layers|
    ensures Budgeted(m, lo, hi)
  {
    hide Target;
    hide Spill;
    hide AllWeights;
    ConsistentGeometry(m, lo, hi);
    GeometryShorter(m, hi, |m.layers|);
    GeometryInside(m, lo, hi);
    GeometryGrows(m, 0, hi, |m.layers|);
    assert Target(m) != 0;
    NeedGrows(Geometry(m, lo, hi).value, Geometry(m, 0, |m.layers|).value, Target(m));
  }

  lemma NeedGrows(g: Cache, h: Cache, s: u64)
    requires g.slot <= h.slot && g.tensor <= h.tensor && g.weights <= h.weights
    ensures CacheNeed(g, s) <= CacheNeed(h, s)
  {
    NonNegative(g.slot, s);
    ProductMonotone(s, g.slot, h.slot);
    assert SatMul(g.slot, s) <= SatMul(h.slot, s);
    hide SatMul;
  }
}
