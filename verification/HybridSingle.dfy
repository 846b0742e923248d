/** The one-machine MoE Hybrid search of src/common/plan.c: one scan over the expert prefixes. */
module HybridSingle {

  import opened Arithmetic
  import opened HybridCost
  import opened Options

  /** What the owner offers, and what the whole model needs on its GPU with nothing spilled. */
  datatype Owner = Owner(need: u64, vram: u64, ramCap: u64)

  /** Prefix [0, c) passes both gates. */
  predicate Passes(m: Model, o: Owner, c: nat)
    requires c <= |m.layers|
  {
    Geometry(m, 0, c).Some? && Gpu(m, o.need, 0, c) <= o.vram && Spill(m, 0, c) <= o.ramCap
  }

  /** The cache slots prefix [0, c) leaves room for: none below one active route, none above the target. */
  function SlotsOf(m: Model, o: Owner, c: nat): nat
    requires c <= |m.layers| && Passes(m, o, c)
  {
    var g := Geometry(m, 0, c).value;
    var available := o.vram - Gpu(m, o.need, 0, c);
    var capacity := if g.slot != 0 && available > Fixed(g) then (available - Fixed(g)) / g.slot else 0;
    if capacity < m.nExpertUsed then 0 else if capacity < Target(m) then capacity else Target(m)
  }

  datatype Choice = Choice(prefix: nat, gpu: u64, ram: u64, slots: nat)

  /** The result of the scan, and the first prefix whose GPU half fits while its RAM half does not. */
  datatype Scan = Scan(best: Option<Choice>, ramShort: Option<nat>)

  ghost predicate Chosen(m: Model, o: Owner, n: nat, best: Option<Choice>)
    requires n <= |m.layers|
  {
    match best
    case None => forall c | 1 <= c <= n :: !Passes(m, o, c)
    case Some(b) =>
      && 1 <= b.prefix <= n && Passes(m, o, b.prefix)
      && b == Choice(b.prefix, Gpu(m, o.need, 0, b.prefix), Spill(m, 0, b.prefix), SlotsOf(m, o, b.prefix))
      && (forall c | 1 <= c <= n && Passes(m, o, c) :: SlotsOf(m, o, c) <= b.slots)
      && (forall c | 1 <= c < b.prefix && Passes(m, o, c) :: SlotsOf(m, o, c) < b.slots)
  }

  /** The scan stopped because prefix k fits the GPU and host RAM cannot hold it. */
  ghost predicate RamShort(m: Model, o: Owner, k: nat) {
    && 1 <= k <= |m.layers| && Geometry(m, 0, k).Some?
    && Gpu(m, o.need, 0, k) <= o.vram && Spill(m, 0, k) > o.ramCap
  }

  lemma ChosenSkip(m: Model, o: Owner, c: nat, best: Option<Choice>)
    requires 1 <= c <= |m.layers| && Chosen(m, o, c - 1, best) && !Passes(m, o, c)
    ensures Chosen(m, o, c, best)
  {
    hide SlotsOf;
    hide Passes;
  }

  /** Deeper prefixes cannot fit the RAM gate either. */
  lemma ChosenWhenShort(m: Model, o: Owner, c: nat, best: Option<Choice>)
    requires 1 <= c <= |m.layers| && Chosen(m, o, c - 1, best) && Spill(m, 0, c) > o.ramCap
    ensures Chosen(m, o, |m.layers|, best)
  {
    hide SlotsOf;
    hide Gpu;
    forall d | c <= d <= |m.layers| ensures !Passes(m, o, d) {
      SpillMonotone(m, 0, c, d);
    }
  }

  /** No prefix has more slots than the target. */
  lemma ChosenAtTarget(m: Model, o: Owner, c: nat, best: Option<Choice>)
    requires Consistent(m) && c <= |m.layers| && Chosen(m, o, c, best) && best.Some? && best.value.slots == Target(m)
    ensures Chosen(m, o, |m.layers|, best)
  {
    hide SlotsOf;
    hide Passes;
    hide Target;
    hide Consistent;
    forall d | 1 <= d <= |m.layers| && Passes(m, o, d) ensures SlotsOf(m, o, d) <= Target(m) {
      SlotsAre(m, o, d);
    }
  }

  /** The part of the loop body that runs when both gates are open. */
  method Consider(m: Model, o: Owner, c: nat, gpu: u64, prefix: u64, cache: Cache, best: Option<Choice>)
    returns (best': Option<Choice>)
    requires Consistent(m) && 1 <= c <= |m.layers| && Passes(m, o, c) && Chosen(m, o, c - 1, best)
    requires gpu == Gpu(m, o.need, 0, c) && prefix == Spill(m, 0, c) && Geometry(m, 0, c) == Some(cache)
    ensures Chosen(m, o, c, best') && best'.Some?
  {
    hide Target;
    hide SlotsOf;
    hide Gpu;
    hide Spill;
    hide Geometry;
    hide Consistent;
    SlotsAre(m, o, c);
    var available := o.vram - gpu;
    var fixed := Fixed(cache);
    var capacity := if cache.slot != 0 && available > fixed then (available - fixed) / cache.slot else 0;
    var slots := if capacity < m.nExpertUsed then 0 else if capacity < Target(m) then capacity else Target(m);
    if best.None? || slots > best.value.slots {
      return Some(Choice(c, gpu, prefix, slots));
    }
    return best;
  }

  /**
   * The linear scan is lexicographically optimal: most slots first, then the shortest prefix; and it comes
   * back empty only when no prefix passes both gates.
   */
  method ScanPrefixes(m: Model, o: Owner) returns (r: Scan)
    requires Consistent(m)
    ensures Chosen(m, o, |m.layers|, r.best)
    ensures r.ramShort.Some? ==> RamShort(m, o, r.ramShort.value)
    ensures r.best.None? ==>
      forall c | 1 <= c < (if r.ramShort.Some? then r.ramShort.value else |m.layers| + 1) ::
        Geometry(m, 0, c).Some? && Gpu(m, o.need, 0, c) > o.vram
  {
    hide Consistent;
    hide Target;
    hide Chosen;
    hide Gpu;
    var prefix: u64, cache := 0, NO_CACHE;
    var best: Option<Choice> := None;
    ChosenNothing(m, o);
    var i := 0;
    while i < |m.layers|
      invariant 0 <= i <= |m.layers|
      invariant Geometry(m, 0, i) == Some(cache) && prefix == Spill(m, 0, i)
      invariant Chosen(m, o, i, best)
      invariant best.None? ==> forall c | 1 <= c <= i ::
                  Geometry(m, 0, c).Some? && Gpu(m, o.need, 0, c) > o.vram
    {
      i := i + 1;
      ConsistentGeometry(m, 0, i);
      prefix := SatAdd(prefix, m.layers[i - 1].expert);
      cache := AddLayer(m.layers[i - 1], cache).value;
      var gpu := SatAdd(Rest(o.need, prefix), Staging(cache));
      GpuIs(m, o, i);
      if gpu > o.vram {
        ChosenSkip(m, o, i, best);
        continue;
      }
      if prefix > o.ramCap {
        ChosenWhenShort(m, o, i, best);
        return Scan(best, Some(i));
      }
      best := Consider(m, o, i, gpu, prefix, cache, best);
      if best.value.slots == Target(m) {
        ChosenAtTarget(m, o, i, best);
        return Scan(best, None);
      }
    }
    return Scan(best, None);
  }

  lemma ChosenNothing(m: Model, o: Owner)
    ensures Chosen(m, o, 0, None)
  {
  }

  lemma GpuIs(m: Model, o: Owner, c: nat)
    requires c <= |m.layers| && Geometry(m, 0, c).Some?
    ensures Gpu(m, o.need, 0, c) == SatAdd(Rest(o.need, Spill(m, 0, c)), Staging(Geometry(m, 0, c).value))
  {
  }

  lemma SlotsAre(m: Model, o: Owner, c: nat)
    requires Consistent(m) && c <= |m.layers| && Passes(m, o, c)
    ensures var g := Geometry(m, 0, c).value;
      var available := o.vram - Gpu(m, o.need, 0, c);
      var capacity := if g.slot != 0 && available > Fixed(g) then (available - Fixed(g)) / g.slot else 0;
      SlotsOf(m, o, c) == (if capacity < m.nExpertUsed then 0 else if capacity < Target(m) then capacity else Target(m))
    ensures SlotsOf(m, o, c) <= Target(m) && 0 < m.nExpertUsed <= Target(m)
  {
  }

  // ----- The scan against the definition by gates -----

  /** Prefix [0, c) admits a cache of s slots: both gates, with the cache in the GPU one. */
  predicate Admits(m: Model, o: Owner, c: nat, s: u64)
    requires c <= |m.layers|
  {
    Geometry(m, 0, c).Some? && Gate(m, o.need, 0, c, s) <= o.vram && Spill(m, 0, c) <= o.ramCap
  }

  /** Room for s slots of a cache on a GPU with `available` bytes left, in the two ways the planner asks. */
  lemma RoomForSlots(rest: u64, g: Cache, vram: u64, s: u64)
    requires vram < MAX && s > 0 && g.slot != 0
    requires SatAdd(rest, Staging(g)) <= vram
    ensures var available := vram - SatAdd(rest, Staging(g));
      SatAdd(rest, SatAdd(Staging(g), CacheNeed(g, s))) <= vram
      <==> available > Fixed(g) && s <= (available - Fixed(g)) / g.slot
  {
    hide Staging;
    hide Fixed;
    var available := vram - SatAdd(rest, Staging(g));
    NonNegative(g.slot - 1, s - 1);
    assert g.slot * s >= s;
    if available > Fixed(g) {
      QuotientBound(available - Fixed(g), g.slot, s);
    }
  }

  /**
   * The slots of a prefix are the largest cache size worth having that it admits; a prefix that spills nothing needs
   * no cache and admits any, and so does every passing prefix where saturated sums all fit the VRAM.
   */
  lemma SlotsAreLargestAdmitted(m: Model, o: Owner, c: nat, s: u64)
    requires Consistent(m) && c <= |m.layers| && m.nExpertUsed <= s <= Target(m)
    ensures Admits(m, o, c, s) <==>
            Passes(m, o, c) && (Spill(m, 0, c) == 0 || o.vram == MAX || s <= SlotsOf(m, o, c))
  {
    hide Consistent;
    hide Target;
    hide SlotsOf;
    hide Spill;
    hide Geometry;
    hide Fixed;
    hide Staging;
    hide CacheNeed;
    ConsistentGeometry(m, 0, c);
    WeightsIffSlots(m, c);
    GateMonotone(m, o.need, 0, c, 0, s);
    if Spill(m, 0, c) == 0 {
      EmptyGate(m, o.need, c, s);
    } else if Passes(m, o, c) && o.vram < MAX {
      SlotsAre(m, o, c);
      RoomForSlots(Rest(o.need, Spill(m, 0, c)), Geometry(m, 0, c).value, o.vram, s);
    }
  }

  /** With nothing spilled there is no cache to make room for. */
  lemma EmptyGate(m: Model, base: u64, c: nat, s: u64)
    requires c <= |m.layers| && Geometry(m, 0, c).Some? && Spill(m, 0, c) == 0
    ensures Gate(m, base, 0, c, s) == Gpu(m, base, 0, c)
  {
    hide Spill;
    hide Geometry;
    WeightsIffSlots(m, c);
  }

  lemma {:induction false} WeightsIffSlots(m: Model, c: nat)
    requires c <= |m.layers| && Geometry(m, 0, c).Some?
    ensures Geometry(m, 0, c).value.weights == 0 <==> Geometry(m, 0, c).value.slot == 0
    ensures Geometry(m, 0, c).value.weights == 0 <==> Spill(m, 0, c) == 0
    ensures Geometry(m, 0, c).value.weights == 0 ==> Geometry(m, 0, c).value == NO_CACHE
  {
    if c > 0 {
      WeightsIffSlots(m, c - 1);
    }
  }

  /** The search runs only when the whole model does not fit the GPU; a prefix that spills nothing then never fits. */
  lemma SpilledOrShut(m: Model, o: Owner, c: nat, s: u64)
    requires c <= |m.layers| && o.vram < o.need && Admits(m, o, c, s)
    ensures Spill(m, 0, c) > 0
  {
    hide Spill;
    hide Geometry;
    hide Staging;
    hide CacheNeed;
    GateMonotone(m, o.need, 0, c, 0, s);
  }

  /**
   * The search in the terms it is documented in. A cache of at least one route that any prefix admits is no larger
   * than the chosen one; the chosen prefix is the shortest that admits it; and with no such cache it is the shortest
   * prefix that passes both gates.
   */
  lemma ChoiceIsDocumented(m: Model, o: Owner, best: Option<Choice>)
    requires Consistent(m) && o.vram < o.need && Chosen(m, o, |m.layers|, best)
    ensures forall c, s: u64 | 1 <= c <= |m.layers| && m.nExpertUsed <= s <= Target(m) && Admits(m, o, c, s) ::
              best.Some? && s <= best.value.slots
    ensures best.Some? && best.value.slots > 0 ==>
      && m.nExpertUsed <= best.value.slots <= Target(m) && Admits(m, o, best.value.prefix, best.value.slots)
      && forall c | 1 <= c < best.value.prefix :: !Admits(m, o, c, best.value.slots)
    ensures best.Some? && best.value.slots == 0 ==> forall c | 1 <= c < best.value.prefix :: !Passes(m, o, c)
  {
    hide Consistent;
    hide Target;
    hide Passes;
    hide SlotsOf;
    hide Admits;
    forall c, s: u64 | 1 <= c <= |m.layers| && m.nExpertUsed <= s <= Target(m) && Admits(m, o, c, s)
      ensures Passes(m, o, c) && s <= SlotsOf(m, o, c)
    {
      SpilledOrShut(m, o, c, s);
      SlotsAreLargestAdmitted(m, o, c, s);
    }
    if best.Some? && best.value.slots > 0 {
      SlotsAre(m, o, best.value.prefix);
      SlotsWithinTarget(m, o, best.value.prefix);
      ChosenIsAdmitted(m, o, best.value.prefix);
    }
  }

  lemma SlotsWithinTarget(m: Model, o: Owner, c: nat)
    requires Consistent(m) && c <= |m.layers| && Passes(m, o, c)
    ensures SlotsOf(m, o, c) == 0 || m.nExpertUsed <= SlotsOf(m, o, c) <= Target(m)
  {
    hide Consistent;
    hide Target;
    hide SlotsOf;
    SlotsAre(m, o, c);
  }

  lemma ChosenIsAdmitted(m: Model, o: Owner, c: nat)
    requires Consistent(m) && c <= |m.layers| && o.vram < o.need && Passes(m, o, c) && SlotsOf(m, o, c) > 0
    ensures SlotsOf(m, o, c) <= Target(m) && Admits(m, o, c, SlotsOf(m, o, c))
  {
    hide Consistent;
    hide Target;
    hide SlotsOf;
    hide Admits;
    hide Spill;
    hide Geometry;
    SlotsWithinTarget(m, o, c);
    PassingSpills(m, o, c);
    SlotsAreLargestAdmitted(m, o, c, SlotsOf(m, o, c));
  }

  lemma PassingSpills(m: Model, o: Owner, c: nat)
    requires c <= |m.layers| && o.vram < o.need && Passes(m, o, c)
    ensures Spill(m, 0, c) > 0
  {
    hide Spill;
    hide Geometry;
    hide Staging;
  }
}
