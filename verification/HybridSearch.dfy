/** The imperative search of src/common/plan.c for several machines, proved against the table of HybridCluster. */
module HybridSearch {

  import opened Arithmetic
  import opened HybridCluster
  import opened HybridCost
  import opened Options

  /** What a successful search writes into the plan. */
  datatype Plan = Plan(
    shares: seq<Share>, spill: seq<u64>, gpu: seq<u64>, pool: seq<u64>,
    cpuMoe: u64, ramNeed: u64, gpuNeed: u64, hybrid: bool
  )

  /** The shares are the whole placement, and nothing valid is better. */
  ghost predicate Optimal(p: Cluster, slots: u64, shares: seq<Share>)
    requires Ready(p)
  {
    var n, layers := |p.nodes|, |p.m.layers|;
    && |shares| == n && Places(p, slots, shares, layers) && CostOf(p, slots, shares, layers).ram < MAX
    && forall other: seq<Share> | |other| == n && Places(p, slots, other, layers) ::
         var cost, than := CostOf(p, slots, shares, layers), CostOf(p, slots, other, layers);
         cost.ram < than.ram || (cost.ram == than.ram && cost.peak <= than.peak)
  }

  /** Some placement is valid and has a cost that can be told from "none". */
  ghost predicate Feasible(p: Cluster, slots: u64) {
    && Ready(p)
    && exists shares: seq<Share> :: |shares| == |p.nodes| && Places(p, slots, shares, |p.m.layers|)
                                    && CostOf(p, slots, shares, |p.m.layers|).ram < MAX
  }

  lemma BestDecides(p: Cluster, slots: u64)
    requires Ready(p)
    ensures Feasible(p, slots) <==> Best(p, slots, |p.nodes|, |p.m.layers|).cost.ram < MAX
  {
    hide Ready;
    hide Places;
    var n, layers := |p.nodes|, |p.m.layers|;
    if Best(p, slots, n, layers).cost.ram < MAX {
      var shares := BestAttained(p, slots, n, layers);
    }
    forall shares: seq<Share> | |shares| == n && Places(p, slots, shares, layers)
      ensures Best(p, slots, n, layers).cost.AtMost(CostOf(p, slots, shares, layers))
              || CostOf(p, slots, shares, layers).ram == MAX
    {
      BestIsMinimal(p, slots, shares, layers);
    }
  }

  lemma BestIsOptimal(p: Cluster, slots: u64, shares: seq<Share>)
    requires Ready(p) && |shares| == |p.nodes|
    requires Attains(p, slots, shares, |p.m.layers|, Best(p, slots, |p.nodes|, |p.m.layers|))
    requires Best(p, slots, |p.nodes|, |p.m.layers|).cost.ram < MAX
    ensures Optimal(p, slots, shares)
  {
    hide Ready;
    hide Places;
    hide Best;
    forall other: seq<Share> | |other| == |p.nodes| && Places(p, slots, other, |p.m.layers|)
      ensures CostOf(p, slots, shares, |p.m.layers|).AtMost(CostOf(p, slots, other, |p.m.layers|))
    {
      BestIsMinimal(p, slots, other, |p.m.layers|);
    }
  }

  /** More slots are never easier. */
  lemma FeasibleIsDownward(p: Cluster, s: u64, t: u64)
    requires Feasible(p, t) && s <= t
    ensures Feasible(p, s)
  {
    hide Ready;
    hide Places;
    var shares: seq<Share> :| |shares| == |p.nodes| && Places(p, t, shares, |p.m.layers|)
                              && CostOf(p, t, shares, |p.m.layers|).ram < MAX;
    FewerSlotsStillFit(p, s, t, shares, |p.m.layers|);
  }

  /** Unless the experts fill the 64-bit range, feasible means that some placement is valid. */
  lemma FeasibleMeansPlaceable(p: Cluster, slots: u64)
    requires Ready(p) && p.m.expertTotal < MAX
    ensures Feasible(p, slots) <==>
            exists shares: seq<Share> :: |shares| == |p.nodes| && Places(p, slots, shares, |p.m.layers|)
  {
    hide Ready;
    hide Places;
    forall shares: seq<Share> | |shares| == |p.nodes| && Places(p, slots, shares, |p.m.layers|)
      ensures CostOf(p, slots, shares, |p.m.layers|).ram < MAX
    {
      RamWithinExperts(p, slots, shares, |p.m.layers|);
    }
  }

  // ----- One owner -----

  /** The inner loop: spill one more layer while the gate is shut. */
  method PriceOwner(p: Cluster, slots: u64, slot: nat, lo: nat, hi: nat)
    returns (r: Option<Share>, spill: u64, gpu: u64)
    requires Ready(p) && slot < |p.nodes| && lo < hi <= |p.m.layers|
    ensures r == Price(p, slots, slot, lo, hi)
    ensures r.Some? ==> InRange(p, r.value) && spill == SpillOf(p, r.value) && gpu == GpuOf(p, slot, r.value)
  {
    hide Ready;
    hide Consistent;
    hide Base;
    hide Owner;
    hide RamCap;
    hide Price;
    hide FirstOpen;
    hide SpillOf;
    hide GpuOf;
    hide GateOf;
    hide Spill;
    hide Geometry;
    hide AddLayer;
    hide CacheNeed;
    hide Staging;
    hide Rest;
    ReadyMeans(p);
    var nd := Owner(p, slot);
    var base := Base(p, slot, lo, hi);
    spill, gpu := 0, base;
    var cache := NO_CACHE;
    var c, gate := lo, gpu;
    OpenAtOnce(p, slots, slot, lo, hi);
    if gate > nd.vram {
      ShutWithoutRam(p, slots, slot, lo, hi);
      if nd.unified || !nd.cuda || nd.ram == 0 {
        return None, 0, 0;
      }
      while c < hi && gate > nd.vram
        invariant lo <= c <= hi && InRange(p, Share(lo, c, hi))
        invariant spill == SpillOf(p, Share(lo, c, hi)) && Geometry(p.m, lo, c) == Some(cache)
        invariant gate == GateOf(p, slots, slot, Share(lo, c, hi)) && gpu == GpuOf(p, slot, Share(lo, c, hi))
        invariant FirstOpen(p, slots, slot, Share(lo, c, hi)) == FirstOpen(p, slots, slot, Share(lo, lo, hi))
      {
        SpillOneMore(p, slots, slot, Share(lo, c, hi), cache);
        spill := SatAdd(spill, p.m.layers[c].expert);
        cache := AddLayer(p.m.layers[c], cache).value;
        var staging := Staging(cache);
        var want := SatAdd(staging, CacheNeed(cache, slots));
        var rest := Rest(base, spill);
        gpu := SatAdd(rest, staging);
        gate := SatAdd(rest, want);
        c := c + 1;
      }
      WhenOpen(p, slots, slot, Share(lo, c, hi));
      if gate > nd.vram || spill > RamCap(nd) {
        return None, 0, 0;
      }
    } else {
      WhenOpen(p, slots, slot, Share(lo, c, hi));
    }
    r := Some(Share(lo, c, hi));
  }

  /** With nothing spilled the gate is the base. */
  lemma OpenAtOnce(p: Cluster, slots: u64, slot: nat, lo: nat, hi: nat)
    requires Ready(p) && slot < |p.nodes| && lo < hi <= |p.m.layers| <= MAX_LAYERS && Consistent(p.m)
    ensures var s := Share(lo, lo, hi);
      && GateOf(p, slots, slot, s) == GpuOf(p, slot, s) == Base(p, slot, lo, hi)
      && SpillOf(p, s) == 0 && Geometry(p.m, lo, lo) == Some(NO_CACHE)
  {
    hide Ready;
    hide Consistent;
    hide Base;
  }

  /** A gate that is shut with nothing spilled stays shut on a machine that may not spill. */
  lemma ShutWithoutRam(p: Cluster, slots: u64, slot: nat, lo: nat, hi: nat)
    requires Ready(p) && slot < |p.nodes| && lo < hi <= |p.m.layers| && Consistent(p.m)
    requires GateOf(p, slots, slot, Share(lo, lo, hi)) > Owner(p, slot).vram
    ensures var nd := Owner(p, slot);
      nd.unified || !nd.cuda || nd.ram == 0 ==> Price(p, slots, slot, lo, hi) == None
  {
    hide Ready;
    hide Consistent;
    hide GateOf;
    hide Owner;
    hide RamCap;
  }

  /** One round of the inner loop. */
  lemma SpillOneMore(p: Cluster, slots: u64, slot: nat, s: Share, cache: Cache)
    requires Ready(p) && slot < |p.nodes| <= |p.m.layers| <= MAX_LAYERS && Consistent(p.m)
    requires InRange(p, s) && s.c < s.hi && Geometry(p.m, s.lo, s.c) == Some(cache)
    requires GateOf(p, slots, slot, s) > Owner(p, slot).vram
    ensures var t, l := s.(c := s.c + 1), p.m.layers[s.c];
      && InRange(p, t) && AddLayer(l, cache).Some?
      && Geometry(p.m, s.lo, t.c) == AddLayer(l, cache)
      && SpillOf(p, t) == SatAdd(SpillOf(p, s), l.expert)
      && FirstOpen(p, slots, slot, t) == FirstOpen(p, slots, slot, s)
      && var g, base := AddLayer(l, cache).value, Base(p, slot, s.lo, s.hi);
         var staging, rest := Staging(g), Rest(base, SpillOf(p, t));
         && GpuOf(p, slot, t) == SatAdd(rest, staging)
         && GateOf(p, slots, slot, t) == SatAdd(rest, SatAdd(staging, CacheNeed(g, slots)))
  {
    hide Ready;
    hide Consistent;
    hide Base;
    hide AddLayer;
    hide CacheNeed;
    ConsistentGeometry(p.m, s.lo, s.c + 1);
  }

  /** Where the loop stops, the price is the share reached or nothing. */
  lemma WhenOpen(p: Cluster, slots: u64, slot: nat, s: Share)
    requires Ready(p) && slot < |p.nodes| <= |p.m.layers| <= MAX_LAYERS && Consistent(p.m) && InRange(p, s)
    requires s.c == s.hi || GateOf(p, slots, slot, s) <= Owner(p, slot).vram
    requires FirstOpen(p, slots, slot, s) == FirstOpen(p, slots, slot, Share(s.lo, s.lo, s.hi))
    ensures Price(p, slots, slot, s.lo, s.hi) ==
      if GateOf(p, slots, slot, s) <= Owner(p, slot).vram
         && (s.lo < s.c ==> CanSpill(Owner(p, slot)) && SpillOf(p, s) <= RamCap(Owner(p, slot)))
      then Some(s) else None
  {
    hide Ready;
    hide Consistent;
    hide GateOf;
    hide Owner;
    hide CanSpill;
    hide RamCap;
  }

  // ----- The table -----

  /** The cells of rows 0 to `rows` that a placement of all layers can pass through are final. */
  ghost predicate RowsDone(p: Cluster, slots: u64, cells: array2<Cell>, rows: nat)
    requires Ready(p) && rows <= |p.nodes|
    requires cells.Length0 == |p.nodes| + 1 && cells.Length1 == |p.m.layers| + 1
    reads cells
  {
    forall u, h | 0 <= u <= rows && u <= h <= |p.m.layers| - (|p.nodes| - u) :: cells[u, h] == Best(p, slots, u, h)
  }

  /** The innermost loop: cell (used, hi) over all cuts. */
  method FillCell(p: Cluster, slots: u64, cells: array2<Cell>, used: nat, hi: nat)
    requires Ready(p) && 1 <= used <= |p.nodes| && used <= hi <= |p.m.layers| - (|p.nodes| - used)
    requires cells.Length0 == |p.nodes| + 1 && cells.Length1 == |p.m.layers| + 1
    requires RowsDone(p, slots, cells, used - 1) && cells[used, hi] == EMPTY
    modifies cells
    ensures cells[used, hi] == Best(p, slots, used, hi)
    ensures forall u, h | 0 <= u < cells.Length0 && 0 <= h < cells.Length1 && (u != used || h != hi) ::
              cells[u, h] == old(cells[u, h])
  {
    hide Ready;
    hide Best;
    hide Scan;
    hide Price;
    hide SpillOf;
    hide GpuOf;
    ScanStep(p, slots, used, hi, used - 1);
    var lo := used - 1;
    while lo < hi
      invariant used - 1 <= lo <= hi
      invariant cells[used, hi] == Scan(p, slots, used, hi, lo)
      invariant forall u, h | 0 <= u < cells.Length0 && 0 <= h < cells.Length1 && (u != used || h != hi) ::
                  cells[u, h] == old(cells[u, h])
    {
      var before := cells[used - 1, lo];
      assert before == Best(p, slots, used - 1, lo);
      ScanStep(p, slots, used, hi, lo + 1);
      EmptyNeverWins(p, slots, used, hi, lo);
      if before.cost.ram != MAX {
        var share, spill, gpu := PriceOwner(p, slots, used - 1, lo, hi);
        if share.Some? {
          var ram := SatAdd(before.cost.ram, spill);
          var peak := if gpu > before.cost.peak then gpu else before.cost.peak;
          var kept := cells[used, hi];
          if ram < kept.cost.ram || (ram == kept.cost.ram && peak < kept.cost.peak) {
            cells[used, hi] := Cell(Cost(ram, peak), share.value, spill, gpu);
          }
        }
      }
      lo := lo + 1;
    }
    BestStep(p, slots, used, hi);
  }

  /** Skipping a cut and offering an empty cell are the same. */
  lemma {:induction false} EmptyNeverWins(p: Cluster, slots: u64, used: nat, hi: nat, k: nat)
    requires Ready(p) && 1 <= used <= |p.nodes| && k <= hi <= |p.m.layers|
    ensures Improve(Scan(p, slots, used, hi, k), EMPTY) == Scan(p, slots, used, hi, k)
  {
    hide Ready;
    hide Scan;
    hide Offer;
    hide Best;
    ScanStep(p, slots, used, hi, k);
    if used <= k {
      EmptyNeverWins(p, slots, used, hi, k - 1);
    }
  }

  /** The whole table, filled row by row. */
  method FillTable(p: Cluster, slots: u64) returns (cells: array2<Cell>)
    requires Ready(p)
    ensures fresh(cells) && cells.Length0 == |p.nodes| + 1 && cells.Length1 == |p.m.layers| + 1
    ensures RowsDone(p, slots, cells, |p.nodes|)
  {
    hide Ready;
    hide Best;
    ReadyMeans(p);
    var n, layers := |p.nodes|, |p.m.layers|;
    cells := new Cell[n + 1, layers + 1]((i, j) => EMPTY);
    cells[0, 0] := START;
    FirstRow(p, slots, cells);
    var used := 0;
    while used < n
      invariant 0 <= used <= n
      invariant RowsDone(p, slots, cells, used)
      invariant forall u, h | used < u <= n && 0 <= h <= layers :: cells[u, h] == EMPTY
    {
      used := used + 1;
      FillRow(p, slots, cells, used);
    }
  }

  lemma FirstRow(p: Cluster, slots: u64, cells: array2<Cell>)
    requires Ready(p) && cells.Length0 == |p.nodes| + 1 && cells.Length1 == |p.m.layers| + 1
    requires cells[0, 0] == START && forall h | 1 <= h <= |p.m.layers| :: cells[0, h] == EMPTY
    ensures RowsDone(p, slots, cells, 0)
  {
    hide Ready;
  }

  /** One row: all the ends that leave a layer for every later owner. */
  method FillRow(p: Cluster, slots: u64, cells: array2<Cell>, used: nat)
    requires Ready(p) && 1 <= used <= |p.nodes|
    requires cells.Length0 == |p.nodes| + 1 && cells.Length1 == |p.m.layers| + 1
    requires RowsDone(p, slots, cells, used - 1)
    requires forall h | 0 <= h <= |p.m.layers| :: cells[used, h] == EMPTY
    modifies cells
    ensures RowsDone(p, slots, cells, used)
    ensures forall u, h | 0 <= u < cells.Length0 && 0 <= h < cells.Length1 && u != used ::
              cells[u, h] == old(cells[u, h])
  {
    hide Ready;
    hide Best;
    var hi := used;
    while hi <= |p.m.layers| - (|p.nodes| - used)
      invariant used <= hi
      invariant RowsDone(p, slots, cells, used - 1)
      invariant forall h | used <= h < hi && h <= |p.m.layers| - (|p.nodes| - used) ::
                  cells[used, h] == Best(p, slots, used, h)
      invariant forall h | hi <= h <= |p.m.layers| :: cells[used, h] == EMPTY
      invariant forall u, h | 0 <= u < cells.Length0 && 0 <= h < cells.Length1 && u != used ::
                  cells[u, h] == old(cells[u, h])
    {
      FillCell(p, slots, cells, used, hi);
      hi := hi + 1;
    }
  }

  // ----- Reading the plan back -----

  /** The saturating sum, as the search accumulates it. */
  function Total(s: seq<u64>): u64 {
    if s == [] then 0 else SatAdd(Total(s[..|s| - 1]), s[|s| - 1])
  }

  lemma {:induction false} TotalPrepend(x: u64, s: seq<u64>)
    ensures Total([x] + s) == SatAdd(x, Total(s))
    decreases |s|
  {
    if s != [] {
      assert ([x] + s)[..|s|] == [x] + s[..|s| - 1];
      TotalPrepend(x, s[..|s| - 1]);
    }
  }

  /** Every slot's figures are its share's, its pool is what its GPU has left, and the sums are theirs. */
  ghost predicate Reports(p: Cluster, plan: Plan)
    requires Ready(p)
  {
    && |plan.shares| == |plan.spill| == |plan.gpu| == |plan.pool| == |p.nodes|
    && (forall i | 0 <= i < |p.nodes| :: Figures(p, i, plan.shares[i], plan.spill[i], plan.gpu[i], plan.pool[i]))
    && plan.cpuMoe == Total(plan.spill) && plan.ramNeed == SatAdd(plan.cpuMoe, HostRam(p))
    && plan.gpuNeed == Total(plan.gpu) && (plan.hybrid <==> plan.cpuMoe > 0)
  }

  ghost predicate Figures(p: Cluster, slot: nat, s: Share, spill: u64, gpu: u64, pool: u64)
    requires Ready(p) && slot < |p.nodes|
  {
    InRange(p, s) && spill == SpillOf(p, s) && gpu == GpuOf(p, slot, s) && gpu + pool == p.nodes[slot].vram
  }

  /** One step of the walk back. */
  lemma TraceStep(p: Cluster, slots: u64, shares: seq<Share>, hi: nat)
    requires Ready(p) && 1 <= |shares| <= |p.nodes| && Traces(p, slots, shares, hi) && Places(p, slots, shares, hi)
    ensures var used := |shares|;
      var cell, s := Best(p, slots, used, hi), shares[used - 1];
      && Traces(p, slots, shares[..used - 1], s.lo) && Places(p, slots, shares[..used - 1], s.lo)
      && used - 1 <= s.lo < hi && cell.share == s && cell.gpu <= p.nodes[used - 1].vram
      && Figures(p, used - 1, s, cell.spill, cell.gpu, p.nodes[used - 1].vram - cell.gpu)
  {
    hide Ready;
    hide Scan;
    hide Best;
    hide Offer;
    hide Fits;
    hide SpillOf;
    hide GpuOf;
    var used := |shares|;
    ReadyMeans(p);
    BestStep(p, slots, used, hi);
    ScanIsOffer(p, slots, used, hi, hi);
    var s := shares[used - 1];
    OfferFigures(p, slots, used, Best(p, slots, used - 1, s.lo), s.lo, hi);
    FitsInVram(p, slots, used - 1, s);
  }

  lemma OfferFigures(p: Cluster, slots: u64, used: nat, before: Cell, lo: nat, hi: nat)
    requires Ready(p) && Consistent(p.m) && 1 <= used <= |p.nodes| && lo < hi <= |p.m.layers|
    requires Offer(p, slots, used, before, lo, hi).cost.ram < MAX
    ensures var cell := Offer(p, slots, used, before, lo, hi);
      InRange(p, cell.share) && cell.spill == SpillOf(p, cell.share) && cell.gpu == GpuOf(p, used - 1, cell.share)
  {
    hide Ready;
    hide Consistent;
    hide GateOf;
    hide Base;
    hide SpillOf;
    hide GpuOf;
  }

  lemma FitsInVram(p: Cluster, slots: u64, slot: nat, s: Share)
    requires Ready(p) && Consistent(p.m) && slot < |p.nodes| <= |p.m.layers| <= MAX_LAYERS && Fits(p, slots, slot, s)
    ensures GpuOf(p, slot, s) <= p.nodes[slot].vram
  {
    hide Ready;
    hide Consistent;
    hide Base;
    hide Gpu;
    hide Gate;
    ConsistentGeometry(p.m, s.lo, s.c);
    GateMonotone(p.m, Base(p, slot, s.lo, s.hi), s.lo, s.c, slots, slots);
  }

  method SumUp(spill: seq<u64>) returns (cpuMoe: u64)
    ensures cpuMoe == Total(spill)
  {
    cpuMoe := 0;
    for slot := 0 to |spill|
      invariant cpuMoe == Total(spill[..slot])
    {
      assert spill[..slot + 1][..slot] == spill[..slot];
      cpuMoe := SatAdd(cpuMoe, spill[slot]);
    }
    assert spill[..|spill|] == spill;
  }

  lemma TotalFrom(s: seq<u64>, i: nat)
    requires i < |s|
    ensures Total(s[i..]) == SatAdd(s[i], Total(s[i + 1..]))
  {
    assert s[i..] == [s[i]] + s[i + 1..];
    TotalPrepend(s[i], s[i + 1..]);
  }

  /** The slots from `used` on are filled in, with the shares of `whole`. */
  ghost predicate Filled(p: Cluster, whole: seq<Share>, plan: Plan, used: nat)
    requires Ready(p)
  {
    && |whole| == |plan.shares| == |plan.spill| == |plan.gpu| == |plan.pool| == |p.nodes|
    && forall i | used <= i < |p.nodes| ::
         plan.shares[i] == whole[i] && Figures(p, i, plan.shares[i], plan.spill[i], plan.gpu[i], plan.pool[i])
  }

  /** One slot of the plan, from its cell. */
  function FillSlot(p: Cluster, plan: Plan, slot: nat, cell: Cell): Plan
    requires slot < |p.nodes| == |plan.shares| == |plan.spill| == |plan.gpu| == |plan.pool|
    requires cell.gpu <= p.nodes[slot].vram
  {
    plan.(shares := plan.shares[slot := cell.share], spill := plan.spill[slot := cell.spill],
          gpu := plan.gpu[slot := cell.gpu], pool := plan.pool[slot := p.nodes[slot].vram - cell.gpu],
          gpuNeed := SatAdd(plan.gpuNeed, cell.gpu))
  }

  lemma FilledStep(p: Cluster, whole: seq<Share>, plan: Plan, slot: nat, cell: Cell)
    requires Ready(p) && slot < |p.nodes| && Filled(p, whole, plan, slot + 1) && cell.gpu <= p.nodes[slot].vram
    requires cell.share == whole[slot]
    requires Figures(p, slot, cell.share, cell.spill, cell.gpu, p.nodes[slot].vram - cell.gpu)
    requires plan.gpuNeed == Total(plan.gpu[slot + 1..])
    ensures var next := FillSlot(p, plan, slot, cell);
      && |next.shares| == |next.spill| == |next.gpu| == |next.pool| == |p.nodes|
      && Filled(p, whole, next, slot) && next.gpuNeed == Total(next.gpu[slot..])
  {
    hide Ready;
    hide Figures;
    hide Total;
    var next := FillSlot(p, plan, slot, cell);
    TotalFrom(next.gpu, slot);
    assert next.gpu[slot + 1..] == plan.gpu[slot + 1..];
  }

  /** The walk back over the finished table. */
  method ReadPlan(p: Cluster, slots: u64, cells: array2<Cell>, ghost whole: seq<Share>) returns (plan: Plan)
    requires Ready(p) && cells.Length0 == |p.nodes| + 1 && cells.Length1 == |p.m.layers| + 1
    requires RowsDone(p, slots, cells, |p.nodes|)
    requires |whole| == |p.nodes| && Traces(p, slots, whole, |p.m.layers|) && Places(p, slots, whole, |p.m.layers|)
    ensures plan.shares == whole && Reports(p, plan)
  {
    hide Ready;
    hide Traces;
    hide Places;
    hide Best;
    hide Figures;
    hide Filled;
    hide FillSlot;
    hide Total;
    hide HostRam;
    ReadyMeans(p);
    var n := |p.nodes|;
    var cursor, used := |p.m.layers|, n;
    plan := BlankPlan(p, whole);
    assert whole[..n] == whole;
    while used > 0
      invariant 0 <= used <= n && used <= cursor <= |p.m.layers| - (n - used)
      invariant Traces(p, slots, whole[..used], cursor) && Places(p, slots, whole[..used], cursor)
      invariant |plan.shares| == |plan.spill| == |plan.gpu| == |plan.pool| == n
      invariant Filled(p, whole, plan, used) && plan.gpuNeed == Total(plan.gpu[used..])
    {
      var cell := cells[used, cursor];
      TraceStep(p, slots, whole[..used], cursor);
      assert whole[..used][..used - 1] == whole[..used - 1];
      used := used - 1;
      FilledStep(p, whole, plan, used, cell);
      plan := FillSlot(p, plan, used, cell);
      cursor := cell.share.lo;
    }
    var cpuMoe := SumUp(plan.spill);
    FilledIsReported(p, whole, plan, cpuMoe);
    plan := plan.(cpuMoe := cpuMoe, ramNeed := SatAdd(cpuMoe, HostRam(p)), hybrid := cpuMoe > 0);
  }

  /** The plan zeroed, before any slot is written. */
  method BlankPlan(p: Cluster, ghost whole: seq<Share>) returns (plan: Plan)
    requires Ready(p) && |whole| == |p.nodes|
    ensures |plan.shares| == |plan.spill| == |plan.gpu| == |plan.pool| == |p.nodes|
    ensures Filled(p, whole, plan, |p.nodes|) && plan.gpuNeed == Total(plan.gpu[|p.nodes|..]) == 0
  {
    hide Ready;
    var zeros: seq<u64> := seq(|p.nodes|, i => 0);
    plan := Plan(seq(|p.nodes|, i => NO_SHARE), zeros, zeros, zeros, 0, 0, 0, false);
  }

  lemma FilledIsReported(p: Cluster, whole: seq<Share>, plan: Plan, cpuMoe: u64)
    requires Ready(p) && |plan.gpu| == |p.nodes| && Filled(p, whole, plan, 0) && plan.gpuNeed == Total(plan.gpu[0..])
    requires cpuMoe == Total(plan.spill)
    ensures plan.shares == whole
    ensures Reports(p, plan.(cpuMoe := cpuMoe, ramNeed := SatAdd(cpuMoe, HostRam(p)), hybrid := cpuMoe > 0))
  {
    hide Ready;
    hide Figures;
    hide Total;
    assert plan.gpu[0..] == plan.gpu;
  }

  /** try_cluster_moe_hybrid. */
  method Solve(p: Cluster, slots: u64) returns (r: Option<Plan>)
    ensures r.Some? <==> Feasible(p, slots)
    ensures r.Some? ==> Ready(p) && Optimal(p, slots, r.value.shares) && Reports(p, r.value)
    ensures r.Some? ==> r.value.cpuMoe == CostOf(p, slots, r.value.shares, |p.m.layers|).ram
    ensures r.Some? ==> WithinMachines(p, r.value)
  {
    hide Places;
    hide Traces;
    hide Reports;
    hide WithinMachines;
    hide Best;
    hide RowsDone;
    if |p.nodes| < 2 || p.m.nExpert == 0 || !Consistent(p.m) || |p.m.layers| < |p.nodes| {
      return None;
    }
    var ramNode, i := false, 0;
    while i < |p.nodes| && !ramNode
      invariant 0 <= i <= |p.nodes|
      invariant ramNode <==> exists k | 0 <= k < i :: CanSpill(p.nodes[k])
    {
      ramNode := CanSpill(p.nodes[i]);
      i := i + 1;
    }
    if !ramNode {
      return None;
    }
    if DraftWeights(p) > p.m.shared || DraftExtra(p) == MAX || p.nodes[0].ram < HostRam(p) {
      return None;
    }
    var n, layers := |p.nodes|, |p.m.layers|;
    hide Consistent;
    assert Ready(p);
    var cells := FillTable(p, slots);
    TableCell(p, slots, cells);
    BestDecides(p, slots);
    if cells[n, layers].cost.ram == MAX {
      return None;
    }
    ghost var whole := BestAttained(p, slots, n, layers);
    BestIsOptimal(p, slots, whole);
    var plan := ReadPlan(p, slots, cells, whole);
    ReportedCost(p, slots, plan);
    PlanWithinMachines(p, slots, plan);
    r := Some(plan);
  }

  lemma TableCell(p: Cluster, slots: u64, cells: array2<Cell>)
    requires Ready(p) && cells.Length0 == |p.nodes| + 1 && cells.Length1 == |p.m.layers| + 1
    requires RowsDone(p, slots, cells, |p.nodes|)
    ensures cells[|p.nodes|, |p.m.layers|] == Best(p, slots, |p.nodes|, |p.m.layers|)
  {
    hide Ready;
    hide Best;
    ReadyMeans(p);
  }

  /** The RAM the plan reports is the cost the search minimised. */
  lemma {:induction false} TotalIsCost(p: Cluster, slots: u64, shares: seq<Share>, spill: seq<u64>, hi: nat)
    requires Ready(p) && |shares| == |spill| <= |p.nodes| && Places(p, slots, shares, hi)
    requires forall i | 0 <= i < |shares| :: InRange(p, shares[i]) && spill[i] == SpillOf(p, shares[i])
    ensures Total(spill) == CostOf(p, slots, shares, hi).ram
    decreases |shares|
  {
    hide Ready;
    hide Fits;
    hide SpillOf;
    hide GpuOf;
    if shares != [] {
      var n := |shares| - 1;
      TotalIsCost(p, slots, shares[..n], spill[..n], shares[n].lo);
    }
  }

  lemma ReportedCost(p: Cluster, slots: u64, plan: Plan)
    requires Ready(p) && Reports(p, plan) && Places(p, slots, plan.shares, |p.m.layers|)
    ensures plan.cpuMoe == CostOf(p, slots, plan.shares, |p.m.layers|).ram
  {
    hide Ready;
    hide Places;
    hide CostOf;
    hide GpuOf;
    hide SpillOf;
    TotalIsCost(p, slots, plan.shares, plan.spill, |p.m.layers|);
  }

  // ----- What the machines have to hold -----

  /**
   * Every slot's GPU figure fits its VRAM, and what it spills fits its RAM: the slot is a discrete CUDA machine, the
   * spill and, on slot 0, the draft's workspace are within its usable RAM, and within its pinnable ceiling where one
   * was measured.
   */
  ghost predicate WithinMachines(p: Cluster, plan: Plan) {
    && |plan.spill| == |plan.gpu| == |p.nodes|
    && forall i | 0 <= i < |p.nodes| ::
         plan.gpu[i] <= p.nodes[i].vram && (plan.spill[i] > 0 ==> RamHolds(p, i, plan.spill[i]))
  }

  lemma {:induction false} SpillsHeld(p: Cluster, slots: u64, shares: seq<Share>, hi: nat, i: nat)
    requires Ready(p) && |shares| <= |p.nodes| && Places(p, slots, shares, hi) && i < |shares|
    ensures InRange(p, shares[i]) && (SpillOf(p, shares[i]) > 0 ==> RamHolds(p, i, SpillOf(p, shares[i])))
  {
    hide Ready;
    hide Fits;
    hide RamHolds;
    var n := |shares| - 1;
    if i == n {
      FitsIff(p, slots, n, shares[n]);
    } else {
      SpillsHeld(p, slots, shares[..n], shares[n].lo, i);
    }
  }

  lemma PlanWithinMachines(p: Cluster, slots: u64, plan: Plan)
    requires Ready(p) && Reports(p, plan) && Places(p, slots, plan.shares, |p.m.layers|)
    ensures WithinMachines(p, plan)
  {
    hide Ready;
    hide Places;
    hide SpillOf;
    hide GpuOf;
    hide RamHolds;
    forall i | 0 <= i < |p.nodes|
      ensures plan.gpu[i] <= p.nodes[i].vram && (plan.spill[i] > 0 ==> RamHolds(p, i, plan.spill[i]))
    {
      SpillsHeld(p, slots, plan.shares, |p.m.layers|, i);
      assert Figures(p, i, plan.shares[i], plan.spill[i], plan.gpu[i], plan.pool[i]);
    }
  }

  // ----- The common cache target -----

  /**
   * try_cluster_moe_hybrid_any: the strict target if some placement admits it, else the largest common cache that
   * covers one active route, else none at all; and it fails only when even that cannot be placed.
   */
  method SolveAny(p: Cluster) returns (r: Option<Plan>, slots: u64)
    ensures r.None? ==> !Feasible(p, 0)
    ensures r.Some? ==> Ready(p) && Feasible(p, slots) && Optimal(p, slots, r.value.shares) && Reports(p, r.value)
    ensures r.Some? ==> WithinMachines(p, r.value)
    ensures r.Some? ==>
      || slots == Target(p.m)
      || (p.m.nExpertUsed <= slots < Target(p.m) && forall s: u64 | slots < s <= Target(p.m) :: !Feasible(p, s))
      || (slots == 0 && forall s: u64 | p.m.nExpertUsed <= s <= Target(p.m) :: !Feasible(p, s))
  {
    hide Ready;
    hide Feasible;
    hide Optimal;
    hide Reports;
    hide WithinMachines;
    hide Target;
    var target := Target(p.m);
    r := Solve(p, target);
    if r.Some? {
      return r, target;
    }
    var bestSlots: u64 := 0;
    var used: u64 := p.m.nExpertUsed;
    NoneAbove(p, target);
    if used < target {
      var candidate := Solve(p, used);
      if candidate.Some? {
        bestSlots, r := used, candidate;
        var lo, hi := bestSlots + 1, target - 1;
        while lo <= hi
          invariant used + 1 <= lo <= hi + 1 <= target && lo == bestSlots + 1
          invariant r.Some? && Ready(p) && Feasible(p, bestSlots)
          invariant Optimal(p, bestSlots, r.value.shares) && Reports(p, r.value) && WithinMachines(p, r.value)
          invariant forall s: u64 | hi < s <= target :: !Feasible(p, s)
          decreases hi + 1 - lo
        {
          var mid := lo + (hi - lo) / 2;
          candidate := Solve(p, mid);
          if candidate.Some? {
            bestSlots, r := mid, candidate;
            lo := mid + 1;
          } else {
            NoneAbove(p, mid);
            hi := mid - 1;
          }
        }
      } else {
        NoneAbove(p, used);
      }
    }
    if bestSlots == 0 {
      r := Solve(p, 0);
    }
    slots := bestSlots;
  }

  lemma NoneAbove(p: Cluster, s: u64)
    requires !Feasible(p, s)
    ensures forall t: u64 | s <= t :: !Feasible(p, t)
  {
    hide Feasible;
    forall t: u64 | s <= t ensures !Feasible(p, t) {
      if Feasible(p, t) {
        FeasibleIsDownward(p, s, t);
      }
    }
  }
}
