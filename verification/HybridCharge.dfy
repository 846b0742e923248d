/**
 * What a placement is charged for, owner by owner, against the model as a whole: every byte of weights, workspace and
 * window is charged, and charged once.
 */
module HybridCharge {

  import opened Arithmetic
  import opened HybridCost
  import opened HybridCluster

  /** The weight bytes of layers [lo, hi), exactly. */
  function LayerBytes(m: Model, lo: nat, hi: nat): nat
    requires lo <= hi <= |m.layers|
  {
    if lo == hi then 0 else LayerBytes(m, lo, hi - 1) + m.layers[hi - 1].weight
  }

  lemma {:induction false} LayerBytesSplit(m: Model, lo: nat, mid: nat, hi: nat)
    requires lo <= mid <= hi <= |m.layers|
    ensures LayerBytes(m, lo, mid) + LayerBytes(m, mid, hi) == LayerBytes(m, lo, hi)
    decreases hi - mid
  {
    if mid < hi {
      LayerBytesSplit(m, lo, mid, hi - 1);
    }
  }

  /** Neither running sum saturates when the model's total does not. */
  lemma {:induction false} SumsAreExact(m: Model, i: nat)
    requires i <= |m.layers| && AllWeights(m, i) < MAX
    ensures AllWeights(m, i) == m.shared + LayerBytes(m, 0, i) && WeightPrefix(m, i) == LayerBytes(m, 0, i)
  {
    if i > 0 {
      SumsAreExact(m, i - 1);
    }
  }

  lemma {:induction false} AllWeightsGrow(m: Model, i: nat, n: nat)
    requires i <= n <= |m.layers|
    ensures AllWeights(m, i) <= AllWeights(m, n)
    decreases n
  {
    if i < n {
      AllWeightsGrow(m, i, n - 1);
    }
  }

  /** The share of the window that an owner of that many layers is charged. */
  function KvShare(p: Cluster, count: nat): nat
    requires 0 < count <= |p.m.layers| <= MAX_LAYERS
  {
    MulDivCeil(p.kv, count, |p.m.layers|)
  }

  /** An owner's need in unbounded numbers: its own layers, its share of the window, and what every owner pays. */
  function Charge(p: Cluster, slot: nat, s: Share): nat
    requires slot < |p.nodes| && InRange(p, s) && |p.m.layers| <= MAX_LAYERS
  {
    LayerBytes(p.m, s.lo, s.hi) + KvShare(p, s.hi - s.lo) + p.overhead + Graph(p)
    + if slot == 0 then Once(p) else 0
  }

  /** What only the coordinator carries. */
  function Once(p: Cluster): nat
    requires |p.nodes| > 0
  {
    p.m.shared + p.mmproj + HostGpu(p) + LocalKv(p)
  }

  /** The saturating sum is the exact one, or the maximum where that does not fit. */
  lemma BaseIsCharge(p: Cluster, slot: nat, s: Share)
    requires Consistent(p.m) && p.m.total < MAX && slot < |p.nodes| && InRange(p, s)
    ensures Base(p, slot, s.lo, s.hi) == Min(MAX, Charge(p, slot, s))
  {
    hide Geometry;
    hide Spill;
    hide MulDivCeil;
    hide Target;
    hide LocalKv;
    hide Graph;
    hide HostGpu;
    var n := |p.m.layers|;
    AllWeightsGrow(p.m, s.hi, n);
    AllWeightsGrow(p.m, s.lo, n);
    SumsAreExact(p.m, s.hi);
    SumsAreExact(p.m, s.lo);
    LayerBytesSplit(p.m, 0, s.lo, s.hi);
  }

  function Charges(p: Cluster, shares: seq<Share>): nat
    requires |shares| <= |p.nodes| && |p.m.layers| <= MAX_LAYERS
    requires forall i | 0 <= i < |shares| :: InRange(p, shares[i])
  {
    if shares == [] then 0 else
    var n := |shares| - 1;
    Charges(p, shares[..n]) + Charge(p, n, shares[n])
  }

  function KvCharged(p: Cluster, shares: seq<Share>): nat
    requires |p.m.layers| <= MAX_LAYERS && forall i | 0 <= i < |shares| :: InRange(p, shares[i])
  {
    if shares == [] then 0 else
    var n := |shares| - 1;
    assert InRange(p, shares[n]);
    KvCharged(p, shares[..n]) + KvShare(p, shares[n].hi - shares[n].lo)
  }

  /** The shares tile layers [0, hi). */
  predicate Tiles(shares: seq<Share>, hi: nat) {
    if shares == [] then hi == 0 else
    var n := |shares| - 1;
    shares[n].hi == hi && Tiles(shares[..n], shares[n].lo)
  }

  /** All owners together are charged the layers once, the coordinator's part once, and the rest once a node. */
  lemma {:induction false} ChargedOnce(p: Cluster, shares: seq<Share>, hi: nat)
    requires |shares| <= |p.nodes| && hi <= |p.m.layers| <= MAX_LAYERS && Tiles(shares, hi)
    requires forall i | 0 <= i < |shares| :: InRange(p, shares[i])
    ensures Charges(p, shares) ==
      LayerBytes(p.m, 0, hi) + KvCharged(p, shares) + |shares| * (p.overhead + Graph(p))
      + if shares == [] then 0 else Once(p)
    decreases |shares|
  {
    hide KvShare;
    hide Once;
    hide LayerBytes;
    if shares != [] {
      var n := |shares| - 1;
      ChargedOnce(p, shares[..n], shares[n].lo);
      LayerBytesSplit(p.m, 0, shares[n].lo, hi);
      assert (n + 1) * (p.overhead + Graph(p)) == n * (p.overhead + Graph(p)) + (p.overhead + Graph(p));
    } else {
      NothingCharged(p.m);
    }
  }

  lemma NothingCharged(m: Model)
    ensures LayerBytes(m, 0, 0) == 0
  {
  }

  /** A share rounded up: at least its part of the window, and less than one byte more. */
  lemma KvShareRounds(p: Cluster, count: nat)
    requires 0 < count <= |p.m.layers| <= MAX_LAYERS
    ensures var n, k := |p.m.layers|, KvShare(p, count);
      0 <= p.kv * count <= k * n < p.kv * count + n
  {
    var n := |p.m.layers|;
    MulDivCeilExact(p.kv, count, n);
    Rounds(p.kv * count, n);
  }

  lemma Rounds(v: nat, n: nat)
    requires n > 0
    ensures v <= (v + n - 1) / n * n < v + n
  {
    assert v + n - 1 == (v + n - 1) / n * n + (v + n - 1) % n;
  }

  /** Over a whole tiling the window is covered, with less than one byte a node to spare. */
  lemma {:induction false} KvCovered(p: Cluster, shares: seq<Share>, hi: nat)
    requires hi <= |p.m.layers| <= MAX_LAYERS && Tiles(shares, hi)
    requires forall i | 0 <= i < |shares| :: InRange(p, shares[i])
    ensures var n := |p.m.layers|;
      p.kv * hi <= KvCharged(p, shares) * n <= p.kv * hi + n * |shares|
    decreases |shares|
  {
    hide KvShare;
    if shares != [] {
      var n, k := |p.m.layers|, |shares| - 1;
      var s := shares[k];
      KvCovered(p, shares[..k], s.lo);
      KvShareRounds(p, s.hi - s.lo);
      Grows(p.kv, s.lo, s.hi, n, KvCharged(p, shares[..k]), KvShare(p, s.hi - s.lo), k);
    }
  }

  lemma Grows(kv: int, lo: int, hi: int, n: int, a: int, b: int, k: int)
    ensures kv * hi == kv * lo + kv * (hi - lo) && (a + b) * n == a * n + b * n && n * (k + 1) == n * k + n
  {
  }

  lemma {:induction false} PlacedInRange(p: Cluster, slots: u64, shares: seq<Share>, hi: nat)
    requires Ready(p) && |shares| <= |p.nodes| && Places(p, slots, shares, hi)
    ensures Tiles(shares, hi) && forall i | 0 <= i < |shares| :: InRange(p, shares[i])
    decreases |shares|
  {
    hide Ready;
    hide GateOf;
    if shares != [] {
      var n := |shares| - 1;
      PlacedInRange(p, slots, shares[..n], shares[n].lo);
      assert forall i | 0 <= i < n :: shares[..n][i] == shares[i];
    }
  }

  lemma CancelLayers(kv: nat, charged: nat, n: nat, k: nat)
    requires n > 0 && kv * n <= charged * n <= kv * n + n * k
    ensures kv <= charged <= kv + k
  {
    if charged < kv {
      ProductMonotone(n, charged + 1, kv);
    }
    if charged > kv + k {
      ProductMonotone(n, kv + k + 1, charged);
    }
  }

  /**
   * Conservation: over every valid placement, the owners' charges add up to the whole model, the vision tower, the
   * draft's part, the window, and the overhead and workspace once a node; only the window is rounded, by at most one
   * byte a node. Each owner's need is its charge, or the maximum where that does not fit.
   */
  lemma WholeModelCharged(p: Cluster, slots: u64, shares: seq<Share>)
    requires Ready(p) && p.m.total < MAX && |shares| == |p.nodes| && Places(p, slots, shares, |p.m.layers|)
    ensures |p.m.layers| <= MAX_LAYERS && forall i | 0 <= i < |shares| ::
              InRange(p, shares[i]) && Base(p, i, shares[i].lo, shares[i].hi) == Min(MAX, Charge(p, i, shares[i]))
    ensures var n := |p.nodes|;
      var fixed := p.m.total + p.mmproj + HostGpu(p) + LocalKv(p) + n * (p.overhead + Graph(p));
      fixed + p.kv <= Charges(p, shares) <= fixed + p.kv + n
  {
    hide Charge;
    hide Charges;
    hide Base;
    hide Places;
    hide Tiles;
    hide KvCharged;
    hide HostGpu;
    hide LocalKv;
    hide Graph;
    var layers := |p.m.layers|;
    ReadyMeans(p);
    TotalIsSum(p.m);
    hide Ready;
    PlacedInRange(p, slots, shares, layers);
    forall i | 0 <= i < |shares|
      ensures Base(p, i, shares[i].lo, shares[i].hi) == Min(MAX, Charge(p, i, shares[i]))
    {
      BaseIsCharge(p, i, shares[i]);
    }
    ChargedOnce(p, shares, layers);
    KvCovered(p, shares, layers);
    CancelLayers(p.kv, KvCharged(p, shares), layers, |shares|);
  }

  lemma TotalIsSum(m: Model)
    requires Consistent(m) && m.total < MAX
    ensures m.total == m.shared + LayerBytes(m, 0, |m.layers|)
  {
    hide Geometry;
    hide Spill;
    SumsAreExact(m, |m.layers|);
  }
}
