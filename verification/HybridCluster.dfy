/**
 * The several-machine MoE Hybrid search of src/common/plan.c: which contiguous placements are valid, what each
 * owner's greedy pricing gives, and the table of best partial placements. The main result is that the table's
 * last cell is lexicographically optimal over every valid placement.
 */
module HybridCluster {

  import opened Arithmetic
  import opened HybridCost
  import opened Options

  /** One machine in tensor-split order; slot 0 is the coordinator. A pinnable size of 0 means not measured. */
  datatype Node = Node(vram: u64, ram: u64, pinnable: u64, unified: bool, cuda: bool)

  /** The draft model, when it is enabled: its compute memory is a measurement, 0 where there is none. */
  datatype Draft = Draft(layers: u32, weights: u64, external: u64, kvPerToken: u64, compute: u64)

  /** The roster, and the byte terms of the need that do not depend on the placement. */
  datatype Cluster = Cluster(
    m: Model, nodes: seq<Node>, ctx: u32, mmproj: u64, overhead: u64, workspace: u64, kv: u64, hostBytes: u64,
    draft: Option<Draft>
  )

  function DraftCompute(p: Cluster): u64 {
    if p.draft.Some? then p.draft.value.compute else 0
  }

  function DraftWeights(p: Cluster): u64 {
    if p.draft.Some? then p.draft.value.weights else 0
  }

  /** idletoken_llama_mtp_bytes: what the draft takes beside its weights in the file, MAX when that is not known. */
  function DraftExtra(p: Cluster): (r: u64)
    ensures DraftCompute(p) <= r
  {
    match p.draft
    case None => 0
    case Some(d) =>
      if (d.layers == 0 && d.external == 0) || (d.weights == 0 && d.external == 0)
         || d.weights > p.m.total || d.kvPerToken == 0 || d.compute == 0 then MAX
      else SatAdd(d.external, SatAdd(d.compute, SatMul(d.kvPerToken, p.ctx)))
  }

  /** The compute peak that every owner pays. */
  function Graph(p: Cluster): u64 {
    SatAdd(p.workspace, DraftCompute(p))
  }

  /** The draft's window and outside weights, which the coordinator alone carries. */
  function LocalKv(p: Cluster): u64 {
    DraftExtra(p) - DraftCompute(p)
  }

  predicate CanSpill(nd: Node) {
    !nd.unified && nd.cuda && nd.ram > 0
  }

  function RamCap(nd: Node): u64 {
    if 0 < nd.pinnable < nd.ram then nd.pinnable else nd.ram
  }

  function HostRam(p: Cluster): u64
    requires |p.nodes| > 0
  {
    if p.nodes[0].unified then 0 else p.hostBytes
  }

  function HostGpu(p: Cluster): u64
    requires |p.nodes| > 0
  {
    if p.nodes[0].unified then p.hostBytes else 0
  }

  /** A slot's machine after the coordinator has set its draft workspace aside. */
  function Owner(p: Cluster, slot: nat): Node
    requires slot < |p.nodes| && HostRam(p) <= p.nodes[0].ram
  {
    var nd, host := p.nodes[slot], HostRam(p);
    if slot != 0 || host == 0 then nd else
    nd.(ram := nd.ram - host,
        pinnable := if nd.pinnable == 0 then 0 else if nd.pinnable > host then nd.pinnable - host else 1)
  }

  /** Everything the search checks before it looks at a placement. */
  predicate Ready(p: Cluster) {
    && |p.nodes| >= 2 && p.m.nExpert != 0 && Consistent(p.m) && |p.m.layers| >= |p.nodes|
    && (exists i | 0 <= i < |p.nodes| :: CanSpill(p.nodes[i]))
    && DraftWeights(p) <= p.m.shared && DraftExtra(p) != MAX
    && HostRam(p) <= p.nodes[0].ram
  }

  lemma ReadyMeans(p: Cluster)
    requires Ready(p)
    ensures Consistent(p.m) && 2 <= |p.nodes| <= |p.m.layers| <= MAX_LAYERS && HostRam(p) <= p.nodes[0].ram
  {
  }

  /** A remainder's part of a share is a small number. */
  lemma SmallTail(r: nat, num: nat, den: nat)
    requires r < den && 0 < num <= den <= MAX_LAYERS
    ensures 0 <= r * num <= r * den && 0 <= (r * num + den - 1) / den <= r
  {
    NonNegative(r, num);
    ProductMonotone(r, num, den);
    var t := r * num + den - 1;
    assert t == den * (t / den) + t % den;
    if t / den > r {
      ProductMonotone(den, r + 1, t / den);
    }
  }

  /** mul_div_ceil_u64 with a denominator that is not zero. */
  function MulDivCeil(value: u64, num: nat, den: nat): u64
    requires 0 < num <= den <= MAX_LAYERS
  {
    SmallTail(value % den, num, den);
    SatAdd(SatMul(value / den, num), (value % den * num + den - 1) / den)
  }

  lemma CeilOfSum(q: nat, r: nat, num: nat, den: nat)
    requires r < den && 0 < num <= den <= MAX_LAYERS
    ensures 0 <= (q * den + r) * num
    ensures ((q * den + r) * num + den - 1) / den == q * num + (r * num + den - 1) / den
    ensures 0 <= q * num <= q * den
  {
    SmallTail(r, num, den);
    NonNegative(q, num);
    ProductMonotone(q, num, den);
    NonNegative(q * den + r, num);
    Expand(q, den, r, num);
    WholesAndRest((q * den + r) * num + den - 1, q * num, den, r * num + den - 1);
  }

  lemma Expand(q: int, den: int, r: int, num: int)
    ensures (q * den + r) * num == q * num * den + r * num
  {
    assert (q * den + r) * num == q * den * num + r * num;
    assert q * den * num == q * num * den;
  }

  lemma WholesAndRest(v: nat, q: int, den: nat, t: nat)
    requires den > 0 && v == q * den + t
    ensures v / den == q + t / den
  {
    assert t == t / den * den + t % den;
    assert (q + t / den) * den == q * den + t / den * den;
    QuotientIs(v, den, q + t / den, t % den);
  }

  /** It never saturates: it is the share of the value, rounded up. */
  lemma MulDivCeilExact(value: u64, num: nat, den: nat)
    requires 0 < num <= den <= MAX_LAYERS
    ensures 0 <= value * num && MulDivCeil(value, num, den) == (value * num + den - 1) / den <= value
  {
    var q, r := value / den, value % den;
    WholesAndPart(value, den);
    CeilOfSum(q, r, num, den);
    SmallTail(r, num, den);
    NoSaturation(q, num, (r * num + den - 1) / den, value);
  }

  lemma WholesAndPart(value: nat, den: nat)
    requires den > 0
    ensures value == value / den * den + value % den
  {
  }

  lemma NoSaturation(q: u64, num: nat, tail: nat, value: u64)
    requires num <= MAX_LAYERS && 0 <= q * num && q * num + tail <= value
    ensures SatAdd(SatMul(q, num), tail) == q * num + tail
  {
  }

  lemma {:induction false} PrefixGrows(m: Model, lo: nat, hi: nat)
    requires lo <= hi <= |m.layers|
    ensures WeightPrefix(m, lo) <= WeightPrefix(m, hi)
    decreases hi
  {
    if lo < hi {
      PrefixGrows(m, lo, hi - 1);
    }
  }

  /** What the owner of layers [lo, hi) must hold on its GPU when it spills nothing. */
  function Base(p: Cluster, slot: nat, lo: nat, hi: nat): u64
    requires slot < |p.nodes| && lo < hi <= |p.m.layers| <= MAX_LAYERS
  {
    PrefixGrows(p.m, lo, hi);
    var weights := SatAdd(WeightPrefix(p.m, hi) - WeightPrefix(p.m, lo),
                          if slot == 0 then SatAdd(p.m.shared, p.mmproj) else 0);
    var gpu := SatAdd(p.overhead, SatAdd(weights, SatAdd(Graph(p), MulDivCeil(p.kv, hi - lo, |p.m.layers|))));
    if slot == 0 then SatAdd(gpu, SatAdd(HostGpu(p), LocalKv(p))) else gpu
  }

  // ----- Placements -----

  /** One owner's layers [lo, hi), of which [lo, c) keep their experts in RAM. */
  datatype Share = Share(lo: nat, c: nat, hi: nat)

  predicate InRange(p: Cluster, s: Share) {
    s.lo <= s.c <= s.hi <= |p.m.layers| && s.lo < s.hi
  }

  function SpillOf(p: Cluster, s: Share): u64
    requires InRange(p, s)
  {
    Spill(p.m, s.lo, s.c)
  }

  function GpuOf(p: Cluster, slot: nat, s: Share): u64
    requires Consistent(p.m) && slot < |p.nodes| && InRange(p, s)
  {
    ConsistentGeometry(p.m, s.lo, s.c);
    Gpu(p.m, Base(p, slot, s.lo, s.hi), s.lo, s.c)
  }

  function GateOf(p: Cluster, slots: u64, slot: nat, s: Share): u64
    requires Consistent(p.m) && slot < |p.nodes| && InRange(p, s)
  {
    ConsistentGeometry(p.m, s.lo, s.c);
    Gate(p.m, Base(p, slot, s.lo, s.hi), s.lo, s.c, slots)
  }

  /**
   * A share is valid on its owner when the VRAM gate holds with a cache of that many slots and, if anything is
   * spilled, the owner may spill and its own RAM holds it.
   */
  predicate Fits(p: Cluster, slots: u64, slot: nat, s: Share)
    requires Ready(p) && slot < |p.nodes|
  {
    && InRange(p, s) && GateOf(p, slots, slot, s) <= Owner(p, slot).vram
    && (s.lo < s.c ==> CanSpill(Owner(p, slot)) && SpillOf(p, s) <= RamCap(Owner(p, slot)))
  }

  /** The part of the draft's workspace that a slot keeps in its RAM. */
  function HostPart(p: Cluster, slot: nat): u64
    requires slot < |p.nodes|
  {
    if slot == 0 && !p.nodes[0].unified then p.hostBytes else 0
  }

  /**
   * What a machine can keep in its RAM, in the bytes it reports: it is a discrete CUDA machine with RAM left, the
   * spill and the host part are within that RAM, and where a pinnable ceiling was measured the spill is within what
   * the host part leaves of it, at least one byte.
   */
  predicate RamHolds(p: Cluster, slot: nat, spill: nat)
    requires slot < |p.nodes|
  {
    var nd, host := p.nodes[slot], HostPart(p, slot);
    && !nd.unified && nd.cuda && nd.ram > host && spill + host <= nd.ram
    && (nd.pinnable > 0 ==> spill <= Max(nd.pinnable - host, if host > 0 then 1 else 0))
  }

  /** A share is valid exactly when its gate holds and, if anything is spilled, the machine's RAM holds it. */
  lemma FitsIff(p: Cluster, slots: u64, slot: nat, s: Share)
    requires Ready(p) && slot < |p.nodes|
    ensures Fits(p, slots, slot, s) <==>
      && InRange(p, s) && GateOf(p, slots, slot, s) <= p.nodes[slot].vram
      && (s.lo < s.c ==> RamHolds(p, slot, SpillOf(p, s)))
  {
    hide Consistent;
    hide GateOf;
    hide SpillOf;
  }

  /** The shares tile layers [0, hi) in slot order and each fits its owner. */
  predicate Places(p: Cluster, slots: u64, shares: seq<Share>, hi: nat)
    requires Ready(p) && |shares| <= |p.nodes|
  {
    if shares == [] then hi == 0 else
    var s := shares[|shares| - 1];
    s.hi == hi && Fits(p, slots, |shares| - 1, s) && Places(p, slots, shares[..|shares| - 1], s.lo)
  }

  /** The RAM bytes of all owners, and the fullest GPU: what the search minimises, in this order. */
  datatype Cost = Cost(ram: u64, peak: u64) {
    predicate AtMost(other: Cost) {
      ram < other.ram || (ram == other.ram && peak <= other.peak)
    }
  }

  function Extend(cost: Cost, spill: u64, gpu: u64): Cost {
    Cost(SatAdd(cost.ram, spill), if gpu > cost.peak then gpu else cost.peak)
  }

  function CostOf(p: Cluster, slots: u64, shares: seq<Share>, hi: nat): Cost
    requires Ready(p) && |shares| <= |p.nodes| && Places(p, slots, shares, hi)
  {
    if shares == [] then Cost(0, 0) else
    var s := shares[|shares| - 1];
    Extend(CostOf(p, slots, shares[..|shares| - 1], s.lo), SpillOf(p, s), GpuOf(p, |shares| - 1, s))
  }

  // ----- One owner: the greedy prefix -----

  /** The first c' >= c whose gate is open, or hi. */
  function FirstOpen(p: Cluster, slots: u64, slot: nat, s: Share): (c: nat)
    requires Ready(p) && slot < |p.nodes| && InRange(p, s)
    ensures s.c <= c <= s.hi
    ensures c < s.hi ==> GateOf(p, slots, slot, s.(c := c)) <= Owner(p, slot).vram
    decreases s.hi - s.c
  {
    if s.c < s.hi && GateOf(p, slots, slot, s) > Owner(p, slot).vram then
      FirstOpen(p, slots, slot, s.(c := s.c + 1))
    else s.c
  }

  lemma {:induction false} FirstOpenIsFirst(p: Cluster, slots: u64, slot: nat, s: Share, d: nat)
    requires Ready(p) && slot < |p.nodes| && InRange(p, s)
    requires s.c <= d < FirstOpen(p, slots, slot, s)
    ensures GateOf(p, slots, slot, s.(c := d)) > Owner(p, slot).vram
    decreases d - s.c
  {
    hide Ready;
    hide GateOf;
    if s.c < d {
      FirstOpenIsFirst(p, slots, slot, s.(c := s.c + 1), d);
    }
  }

  /** The owner's price for layers [lo, hi): spill the shortest prefix that opens the gate, if the owner may. */
  function Price(p: Cluster, slots: u64, slot: nat, lo: nat, hi: nat): (r: Option<Share>)
    requires Ready(p) && slot < |p.nodes| && lo < hi <= |p.m.layers|
  {
    var s := Share(lo, lo, hi);
    var t := s.(c := FirstOpen(p, slots, slot, s));
    if Fits(p, slots, slot, t) then Some(t) else None
  }

  /** Whatever fits spills no less than the price does, and at equal spill needs no less GPU memory. */
  lemma PriceIsCheapest(p: Cluster, slots: u64, slot: nat, s: Share)
    requires Ready(p) && slot < |p.nodes| && Fits(p, slots, slot, s)
    ensures var t := Price(p, slots, slot, s.lo, s.hi);
      && t.Some? && InRange(p, t.value)
      && (SpillOf(p, t.value) < SpillOf(p, s)
          || (SpillOf(p, t.value) == SpillOf(p, s) && GpuOf(p, slot, t.value) <= GpuOf(p, slot, s)))
  {
    hide Ready;
    hide GateOf;
    hide Consistent;
    hide Spill;
    hide Gpu;
    hide Base;
    ReadyMeans(p);
    var start := Share(s.lo, s.lo, s.hi);
    var c := FirstOpen(p, slots, slot, start);
    assert start.(c := s.c) == s;
    if s.c < c {
      FirstOpenIsFirst(p, slots, slot, start, s.c);
    }
    var t := start.(c := c);
    SpillMonotone(p.m, s.lo, c, s.c);
    if c == s.c {
      assert t == s;
    }
    if SpillOf(p, t) == SpillOf(p, s) {
      GpuOfEqualSpill(p.m, Base(p, slot, s.lo, s.hi), s.lo, c, s.c);
    }
  }

  // ----- The table of best partial placements -----

  /** One cell: the cost, and the last owner's share with its two halves. A cost of MAX means no placement. */
  datatype Cell = Cell(cost: Cost, share: Share, spill: u64, gpu: u64)

  const NO_SHARE: Share := Share(0, 0, 0)

  const START: Cell := Cell(Cost(0, 0), NO_SHARE, 0, 0)

  const EMPTY: Cell := Cell(Cost(MAX, 0), NO_SHARE, 0, 0)

  /** The cell reached when slot `used - 1` takes layers [lo, hi) after a partial placement ending at lo. */
  function Offer(p: Cluster, slots: u64, used: nat, before: Cell, lo: nat, hi: nat): Cell
    requires Ready(p) && 1 <= used <= |p.nodes| && lo < hi <= |p.m.layers|
  {
    if before.cost.ram == MAX then EMPTY else
    match Price(p, slots, used - 1, lo, hi)
    case None => EMPTY
    case Some(s) =>
      var spill, gpu := SpillOf(p, s), GpuOf(p, used - 1, s);
      Cell(Extend(before.cost, spill, gpu), s, spill, gpu)
  }

  /** The comparison of the inner loop. */
  function Improve(kept: Cell, offer: Cell): Cell {
    if offer.cost.ram < kept.cost.ram || (offer.cost.ram == kept.cost.ram && offer.cost.peak < kept.cost.peak) then
      offer
    else kept
  }

  /** Cell (used, hi) of the finished table. */
  function Best(p: Cluster, slots: u64, used: nat, hi: nat): Cell
    requires Ready(p) && used <= |p.nodes| && hi <= |p.m.layers|
    decreases used, 1, 0
  {
    if used == 0 then if hi == 0 then START else EMPTY
    else Scan(p, slots, used, hi, hi)
  }

  /** Cell (used, hi) after the cuts below k have been considered. */
  function Scan(p: Cluster, slots: u64, used: nat, hi: nat, k: nat): Cell
    requires Ready(p) && 1 <= used <= |p.nodes| && k <= hi <= |p.m.layers|
    decreases used, 0, k
  {
    if k < used then EMPTY else
    Improve(Scan(p, slots, used, hi, k - 1), Offer(p, slots, used, Best(p, slots, used - 1, k - 1), k - 1, hi))
  }

  /** The placement a cell stands for, read back from its last share. */
  ghost predicate Attains(p: Cluster, slots: u64, shares: seq<Share>, hi: nat, cell: Cell)
    requires Ready(p) && |shares| <= |p.nodes|
  {
    Places(p, slots, shares, hi) && CostOf(p, slots, shares, hi) == cell.cost
  }

  lemma OfferAttained(p: Cluster, slots: u64, used: nat, before: Cell, lo: nat, hi: nat, shares: seq<Share>)
    requires Ready(p) && 1 <= used <= |p.nodes| && lo < hi <= |p.m.layers|
    requires |shares| == used - 1 && Attains(p, slots, shares, lo, before)
    requires Offer(p, slots, used, before, lo, hi).cost.ram < MAX
    ensures var cell := Offer(p, slots, used, before, lo, hi);
      Attains(p, slots, shares + [cell.share], hi, cell)
  {
    hide Ready;
    hide Fits;
    hide FirstOpen;
    var more := shares + [Offer(p, slots, used, before, lo, hi).share];
    assert more[..used - 1] == shares;
  }

  lemma OfferShape(p: Cluster, slots: u64, used: nat, before: Cell, lo: nat, hi: nat)
    requires Ready(p) && 1 <= used <= |p.nodes| && lo < hi <= |p.m.layers|
    requires Offer(p, slots, used, before, lo, hi).cost.ram < MAX
    ensures Offer(p, slots, used, before, lo, hi).share.lo == lo && before.cost.ram < MAX
  {
    hide Ready;
    hide Fits;
    hide FirstOpen;
  }

  lemma ScanStep(p: Cluster, slots: u64, used: nat, hi: nat, k: nat)
    requires Ready(p) && 1 <= used <= |p.nodes| && k <= hi <= |p.m.layers|
    ensures Scan(p, slots, used, hi, k) ==
      if k < used then EMPTY else
      Improve(Scan(p, slots, used, hi, k - 1), Offer(p, slots, used, Best(p, slots, used - 1, k - 1), k - 1, hi))
  {
    hide Ready;
    hide Best;
    hide Offer;
    hide Improve;
  }

  lemma BestStep(p: Cluster, slots: u64, used: nat, hi: nat)
    requires Ready(p) && used <= |p.nodes| && hi <= |p.m.layers|
    ensures Best(p, slots, used, hi) ==
      if used > 0 then Scan(p, slots, used, hi, hi) else if hi == 0 then START else EMPTY
  {
    hide Ready;
    hide Scan;
  }

  /** `cell` is the offer made at its own cut. */
  ghost predicate MadeAtCut(p: Cluster, slots: u64, used: nat, hi: nat, cell: Cell)
    requires Ready(p) && 1 <= used <= |p.nodes| && hi <= |p.m.layers|
  {
    && used - 1 <= cell.share.lo < hi
    && Best(p, slots, used - 1, cell.share.lo).cost.ram < MAX
    && cell == Offer(p, slots, used, Best(p, slots, used - 1, cell.share.lo), cell.share.lo, hi)
  }

  /** A cell that is not empty is the offer made at its own cut. */
  lemma {:induction false} ScanIsOffer(p: Cluster, slots: u64, used: nat, hi: nat, k: nat)
    requires Ready(p) && 1 <= used <= |p.nodes| && k <= hi <= |p.m.layers|
    requires Scan(p, slots, used, hi, k).cost.ram < MAX
    ensures MadeAtCut(p, slots, used, hi, Scan(p, slots, used, hi, k))
    decreases k
  {
    hide Ready;
    hide Scan;
    hide Best;
    hide Offer;
    ScanStep(p, slots, used, hi, k);
    var kept := Scan(p, slots, used, hi, k - 1);
    var offer := Offer(p, slots, used, Best(p, slots, used - 1, k - 1), k - 1, hi);
    if Improve(kept, offer) == kept {
      ScanIsOffer(p, slots, used, hi, k - 1);
    } else {
      OfferShape(p, slots, used, Best(p, slots, used - 1, k - 1), k - 1, hi);
    }
  }

  /** `shares` is what a walk back from cell (|shares|, hi) along the cuts reads. */
  ghost predicate Traces(p: Cluster, slots: u64, shares: seq<Share>, hi: nat)
    requires Ready(p)
  {
    && |shares| <= |p.nodes| && hi <= |p.m.layers| && Best(p, slots, |shares|, hi).cost.ram < MAX
    && if shares == [] then hi == 0 else
       && shares[|shares| - 1] == Best(p, slots, |shares|, hi).share
       && Traces(p, slots, shares[..|shares| - 1], shares[|shares| - 1].lo)
  }

  /** From a cell that is not empty the walk back reads a valid placement of exactly the cell's cost. */
  lemma {:induction false} BestAttained(p: Cluster, slots: u64, used: nat, hi: nat) returns (shares: seq<Share>)
    requires Ready(p) && used <= |p.nodes| && hi <= |p.m.layers| && Best(p, slots, used, hi).cost.ram < MAX
    ensures |shares| == used && Traces(p, slots, shares, hi) && Attains(p, slots, shares, hi, Best(p, slots, used, hi))
    decreases used
  {
    hide Ready;
    hide Best;
    hide Offer;
    hide Scan;
    BestStep(p, slots, used, hi);
    if used == 0 {
      return [];
    }
    hide Attains;
    ScanIsOffer(p, slots, used, hi, hi);
    var s := Best(p, slots, used, hi).share;
    var fewer := BestAttained(p, slots, used - 1, s.lo);
    shares := fewer + [s];
    assert shares[..used - 1] == fewer;
    OfferAttained(p, slots, used, Best(p, slots, used - 1, s.lo), s.lo, hi, fewer);
  }

  lemma ExtendMonotone(a: Cost, spill: u64, gpu: u64, b: Cost, spill': u64, gpu': u64)
    requires a.AtMost(b) && (spill < spill' || (spill == spill' && gpu <= gpu'))
    requires SatAdd(b.ram, spill') < MAX
    ensures Extend(a, spill, gpu).AtMost(Extend(b, spill', gpu')) && Extend(a, spill, gpu).ram < MAX
  {
  }

  /** The offer made at a placement's last cut costs no more than the placement. */
  lemma OfferIsCheap(p: Cluster, slots: u64, shares: seq<Share>, hi: nat, before: Cell)
    requires Ready(p) && 1 <= |shares| <= |p.nodes|
    requires Places(p, slots, shares, hi) && CostOf(p, slots, shares, hi).ram < MAX
    requires var s := shares[|shares| - 1];
      before.cost.AtMost(CostOf(p, slots, shares[..|shares| - 1], s.lo))
    ensures var s := shares[|shares| - 1];
      s.lo < hi <= |p.m.layers| && Offer(p, slots, |shares|, before, s.lo, hi).cost.AtMost(CostOf(p, slots, shares, hi))
  {
    hide Ready;
    hide Price;
    hide GateOf;
    ReadyMeans(p);
    var s := shares[|shares| - 1];
    PriceIsCheapest(p, slots, |shares| - 1, s);
    var t := Price(p, slots, |shares| - 1, s.lo, s.hi).value;
    ExtendMonotone(before.cost, SpillOf(p, t), GpuOf(p, |shares| - 1, t),
                   CostOf(p, slots, shares[..|shares| - 1], s.lo), SpillOf(p, s), GpuOf(p, |shares| - 1, s));
  }

  /** Every layer range is at least one layer, so k owners need k layers. */
  lemma {:induction false} PlacesNeedsLayers(p: Cluster, slots: u64, shares: seq<Share>, hi: nat)
    requires Ready(p) && |shares| <= |p.nodes| && Places(p, slots, shares, hi)
    ensures |shares| <= hi
    ensures shares != [] ==> hi <= |p.m.layers| && |shares| - 1 <= shares[|shares| - 1].lo < hi
    decreases |shares|
  {
    hide Ready;
    hide GateOf;
    if shares != [] {
      PlacesNeedsLayers(p, slots, shares[..|shares| - 1], shares[|shares| - 1].lo);
    }
  }

  lemma {:induction false} ScanAtMost(p: Cluster, slots: u64, used: nat, hi: nat, k: nat, lo: nat)
    requires Ready(p) && 1 <= used <= |p.nodes| && used - 1 <= lo < k <= hi <= |p.m.layers|
    ensures Scan(p, slots, used, hi, k).cost.AtMost(Offer(p, slots, used, Best(p, slots, used - 1, lo), lo, hi).cost)
    decreases k
  {
    hide Ready;
    hide Best;
    hide Offer;
    if lo < k - 1 {
      ScanAtMost(p, slots, used, hi, k - 1, lo);
    }
  }

  /** No valid placement of those layers on those owners beats the cell, in RAM first and then in GPU peak. */
  lemma {:induction false} BestIsMinimal(p: Cluster, slots: u64, shares: seq<Share>, hi: nat)
    requires Ready(p) && |shares| <= |p.nodes|
    requires Places(p, slots, shares, hi) && hi <= |p.m.layers|
    ensures Best(p, slots, |shares|, hi).cost.AtMost(CostOf(p, slots, shares, hi))
          || CostOf(p, slots, shares, hi).ram == MAX
    decreases |shares|
  {
    hide Ready;
    hide Fits;
    hide Offer;
    if shares != [] && CostOf(p, slots, shares, hi).ram < MAX {
      PlacesNeedsLayers(p, slots, shares, hi);
      var s := shares[|shares| - 1];
      BestIsMinimal(p, slots, shares[..|shares| - 1], s.lo);
      var before := Best(p, slots, |shares| - 1, s.lo);
      assert before.cost.AtMost(CostOf(p, slots, shares[..|shares| - 1], s.lo));
      OfferIsCheap(p, slots, shares, hi, before);
      ScanAtMost(p, slots, |shares|, hi, hi, s.lo);
    }
  }

  // ----- What a placement can cost, and what more slots do to it -----

  lemma {:induction false} SpillSplits(m: Model, lo: nat, mid: nat, hi: nat)
    requires lo <= mid <= hi <= |m.layers|
    ensures SatAdd(Spill(m, lo, mid), Spill(m, mid, hi)) == Spill(m, lo, hi)
    decreases hi - mid
  {
    if mid < hi {
      SpillSplits(m, lo, mid, hi - 1);
    }
  }

  /** No placement moves more than the model's experts, so a cost of MAX is only ever a model of that size. */
  lemma {:induction false} RamWithinExperts(p: Cluster, slots: u64, shares: seq<Share>, hi: nat)
    requires Ready(p) && |shares| <= |p.nodes| && Places(p, slots, shares, hi) && hi <= |p.m.layers|
    ensures CostOf(p, slots, shares, hi).ram <= Spill(p.m, 0, hi) <= p.m.expertTotal
    decreases |shares|
  {
    hide GateOf;
    hide GpuOf;
    ReadyMeans(p);
    SpillMonotone(p.m, 0, hi, |p.m.layers|);
    assert Spill(p.m, 0, |p.m.layers|) == p.m.expertTotal;
    hide Ready;
    hide Consistent;
    if shares != [] {
      var s := shares[|shares| - 1];
      RamWithinExperts(p, slots, shares[..|shares| - 1], s.lo);
      SpillSplits(p.m, 0, s.lo, hi);
      SpillMonotone(p.m, s.lo, s.c, hi);
    }
  }

  /** A placement that leaves room for t slots leaves room for s <= t, at the same cost. */
  lemma {:induction false} FewerSlotsStillFit(p: Cluster, s: u64, t: u64, shares: seq<Share>, hi: nat)
    requires Ready(p) && |shares| <= |p.nodes| && Places(p, t, shares, hi) && s <= t
    ensures Places(p, s, shares, hi) && CostOf(p, s, shares, hi) == CostOf(p, t, shares, hi)
    decreases |shares|
  {
    hide Ready;
    hide Base;
    ReadyMeans(p);
    if shares != [] {
      var last := shares[|shares| - 1];
      FewerSlotsStillFit(p, s, t, shares[..|shares| - 1], last.lo);
      ConsistentGeometry(p.m, last.lo, last.c);
      GateMonotone(p.m, Base(p, |shares| - 1, last.lo, last.hi), last.lo, last.c, s, t);
    }
  }

  /** Places, slot by slot: the ranges start at 0, meet, and end at hi, and each fits its own owner. */
  lemma {:induction false} PlacesIsTiling(p: Cluster, slots: u64, shares: seq<Share>, hi: nat)
    requires Ready(p) && 1 <= |shares| <= |p.nodes|
    ensures Places(p, slots, shares, hi) <==>
      && shares[0].lo == 0 && shares[|shares| - 1].hi == hi
      && (forall i | 0 <= i < |shares| - 1 :: shares[i].hi == shares[i + 1].lo)
      && (forall i | 0 <= i < |shares| :: Fits(p, slots, i, shares[i]))
    decreases |shares|
  {
    hide Ready;
    hide Fits;
    var n := |shares| - 1;
    var fewer := shares[..n];
    if n > 0 {
      PlacesIsTiling(p, slots, fewer, shares[n].lo);
      if Places(p, slots, shares, hi) {
        forall i | 0 <= i < n ensures shares[i].hi == shares[i + 1].lo {
          if i < n - 1 {
            assert fewer[i].hi == fewer[i + 1].lo;
          }
        }
        forall i | 0 <= i < n ensures Fits(p, slots, i, shares[i]) {
          assert fewer[i] == shares[i];
        }
      }
    }
  }
}
