/** idletoken_plan_layers of src/common/plan.c: a contiguous layer split in four passes over one array. */
module LayerSplit {

  import opened Arithmetic

  /** The numbers of a model the split reads; `overhead` is the per-node overhead of the context size. */
  datatype Model = Model(nLayers: nat, layerBytes: nat, sharedBytes: nat, overhead: nat, multiple: nat)

  const MAX_REPAIRED: nat := 64

  function Sum(s: seq<int>): int {
    if s == [] then 0 else Sum(s[..|s| - 1]) + s[|s| - 1]
  }

  lemma {:induction false} SumUpdate(s: seq<int>, i: nat, v: int)
    requires i < |s|
    ensures Sum(s[i := v]) == Sum(s) - s[i] + v
  {
    var n := |s| - 1;
    if i < n {
      SumUpdate(s[..n], i, v);
      assert s[i := v][..n] == s[..n][i := v];
    } else {
      assert s[i := v][..n] == s[..n];
    }
  }

  lemma SumMove(s: seq<int>, i: nat, j: nat, d: int)
    requires i < |s| && j < |s| && i != j
    ensures Sum(s[i := s[i] + d][j := s[j] - d]) == Sum(s)
  {
    SumUpdate(s, i, s[i] + d);
    SumUpdate(s[i := s[i] + d], j, s[j] - d);
  }

  lemma {:induction false} SumBounds(s: seq<int>, t: seq<int>)
    requires |s| == |t| && forall i | 0 <= i < |s| :: s[i] <= t[i]
    ensures Sum(s) <= Sum(t)
    ensures (exists i | 0 <= i < |s| :: s[i] < t[i]) ==> Sum(s) < Sum(t)
  {
    if s != [] {
      var n := |s| - 1;
      SumBounds(s[..n], t[..n]);
      if i :| 0 <= i < |s| && s[i] < t[i] {
        if i < n { assert s[..n][i] < t[..n][i]; }
      }
    }
  }

  /** node_split_weight: a node that reported nothing counts as one byte. */
  function Weight(vram: nat): (w: nat)
    ensures w > 0
  {
    if vram == 0 then 1 else vram
  }

  function TotalWeight(vram: seq<nat>): nat {
    if vram == [] then 0 else TotalWeight(vram[..|vram| - 1]) + Weight(vram[|vram| - 1])
  }

  /** The cap divides by a layer's bytes only for a node with memory left; they must not round down to zero then. */
  predicate Divides(m: Model, vram: nat) {
    m.nLayers > 0 && (m.layerBytes >= m.nLayers || Weight(vram) <= m.sharedBytes + m.overhead)
  }

  /** The cap is defined exactly where its guard keeps it from the division or the divisor is not zero. */
  lemma DividesIff(m: Model, vram: nat)
    requires m.nLayers > 0
    ensures var perLayer := m.layerBytes / m.nLayers;
      Divides(m, vram) <==> Max(1, vram) <= m.sharedBytes + m.overhead + perLayer || perLayer != 0
  {
    if m.layerBytes >= m.nLayers {
      AtLeastOneByte(m.layerBytes, m.nLayers);
    }
  }

  predicate AllDivide(m: Model, vram: seq<nat>) {
    m.nLayers > 0 && forall i | 0 <= i < |vram| :: Divides(m, vram[i])
  }

  /** node_layer_cap: how many layers a node can hold, at least one. */
  function Cap(m: Model, vram: nat): (c: nat)
    requires Divides(m, vram)
    ensures c >= 1
  {
    var perLayer := m.layerBytes / m.nLayers;
    var reserved := m.sharedBytes + m.overhead;
    if Weight(vram) <= reserved + perLayer then 1
    else
      var c := (Weight(vram) - reserved) / perLayer;
      if c < 1 then 1 else c
  }

  /** What a cap means in bytes: q layers, the shared part and the overhead fit the node's memory. */
  lemma CapIff(m: Model, vram: nat, q: nat)
    requires Divides(m, vram) && q >= 2
    ensures q <= Cap(m, vram) <==>
      m.layerBytes >= m.nLayers && q * (m.layerBytes / m.nLayers) + m.sharedBytes + m.overhead <= Max(1, vram)
  {
    var perLayer, reserved, w := m.layerBytes / m.nLayers, m.sharedBytes + m.overhead, Max(1, vram);
    CapAbove(m, vram, q, perLayer, reserved, w);
    hide Cap;
    if m.layerBytes >= m.nLayers {
      AtLeastOneByte(m.layerBytes, m.nLayers);
      QuotientCap(w, reserved, perLayer, q);
    }
  }

  lemma CapAbove(m: Model, vram: nat, q: nat, perLayer: nat, reserved: nat, w: nat)
    requires Divides(m, vram) && q >= 2 && perLayer == m.layerBytes / m.nLayers
    requires reserved == m.sharedBytes + m.overhead && w == Max(1, vram)
    ensures q <= Cap(m, vram) <==>
      m.layerBytes >= m.nLayers && w > reserved + perLayer && perLayer > 0 && q <= (w - reserved) / perLayer
  {
    if m.layerBytes >= m.nLayers {
      AtLeastOneByte(m.layerBytes, m.nLayers);
    }
  }

  lemma QuotientCap(w: nat, reserved: nat, d: nat, q: nat)
    requires d >= 1 && q >= 2
    ensures (if w <= reserved + d then false else q <= (w - reserved) / d) <==> q * d + reserved <= w
  {
    NonNegative(q - 2, d);
    assert q * d == (q - 2) * d + 2 * d && q * d == d * q;
    if w > reserved {
      QuotientBound(w - reserved, d, q);
    }
  }

  lemma AtLeastOneByte(v: nat, d: nat)
    requires 0 < d <= v
    ensures v / d >= 1
  {
  }

  function Caps(m: Model, vram: seq<nat>): (c: seq<int>)
    requires AllDivide(m, vram)
    ensures |c| == |vram| && forall i | 0 <= i < |c| :: c[i] >= 1
  {
    seq(|vram|, i requires 0 <= i < |vram| => Cap(m, vram[i]))
  }

  /** The floor of the proportional share, at least one layer. */
  function Share(nLayers: nat, vram: seq<nat>, i: nat): (s: int)
    requires i < |vram| && TotalWeight(vram) > 0
    ensures s >= 1
  {
    var s := nLayers * Weight(vram[i]) / TotalWeight(vram);
    if s < 1 then 1 else s
  }

  /** The proportional share rounded down, or one layer where that is less. */
  lemma ShareIs(nLayers: nat, vram: seq<nat>, i: nat)
    requires i < |vram| && TotalWeight(vram) > 0
    ensures var s, t, w := Share(nLayers, vram, i), TotalWeight(vram), Max(1, vram[i]);
      if nLayers * w < t then s == 1 else s * t <= nLayers * w < (s + 1) * t
  {
    hide TotalWeight;
    var t, v := TotalWeight(vram), nLayers * Max(1, vram[i]);
    NonNegative(nLayers, Max(1, vram[i]));
    assert v == v / t * t + v % t && (v / t + 1) * t == v / t * t + t;
    if v / t < 1 {
      NonNegative(0 - v / t, t);
    } else {
      NonNegative(v / t - 1, t);
      assert v / t * t == (v / t - 1) * t + t;
    }
  }

  /** The total is the sum of what the nodes report, each at least one byte. */
  lemma {:induction false} TotalWeightIs(vram: seq<nat>)
    ensures TotalWeight(vram) == Sum(seq(|vram|, i requires 0 <= i < |vram| => Max(1, vram[i])))
  {
    if vram != [] {
      var n := |vram| - 1;
      TotalWeightIs(vram[..n]);
      assert seq(|vram|, i requires 0 <= i < |vram| => Max(1, vram[i]))[..n]
          == seq(n, i requires 0 <= i < n => Max(1, vram[..n][i]));
    }
  }

  function Shares(nLayers: nat, vram: seq<nat>): (s: seq<int>)
    requires TotalWeight(vram) > 0
    ensures |s| == |vram|
  {
    seq(|vram|, i requires 0 <= i < |vram| => Share(nLayers, vram, i))
  }

  // ----- First pass: proportional shares, remainders to the front, overshoot from the back -----

  /** After t rounds of handing out, the first c nodes of the next one served. */
  ghost predicate HandedOut(s: seq<int>, f: seq<int>, t: nat, c: nat) {
    |s| == |f| && c <= |f| && forall i | 0 <= i < |f| :: s[i] == f[i] + t + (if i < c then 1 else 0)
  }

  /** After t sweeps of clawing back, the nodes from c on swept once more; nobody falls below one. */
  ghost predicate ClawedBack(s: seq<int>, f: seq<int>, t: nat, c: int) {
    |s| == |f| && c <= |f| && forall i | 0 <= i < |f| :: s[i] == Max(1, f[i] - t - (if i >= c then 1 else 0))
  }

  method HandOut(out: array<int>, nLayers: nat)
    requires out.Length > 0 && Sum(out[..]) <= nLayers
    modifies out
    ensures Sum(out[..]) == nLayers
    ensures exists t, c :: HandedOut(out[..], old(out[..]), t, c)
  {
    ghost var f := out[..];
    ghost var t, c := 0, 0;
    ghost var sum := Sum(f);
    var total := SumOf(out);
    while total < nLayers
      invariant total == Sum(out[..]) <= nLayers
      invariant HandedOut(out[..], f, t, c) && (total < nLayers ==> c == 0)
      decreases nLayers - total
    {
      var i := 0;
      ghost var start := total;
      while i < out.Length && total < nLayers
        invariant 0 <= i <= out.Length && total == Sum(out[..]) <= nLayers
        invariant HandedOut(out[..], f, t, i) && total == start + i
      {
        Bump(out, i, 1);
        total := total + 1;
        i := i + 1;
      }
      if i == out.Length { t, c := t + 1, 0; } else { c := i; }
    }
  }

  method SumOf(out: array<int>) returns (total: int)
    ensures total == Sum(out[..])
  {
    total := 0;
    for i := 0 to out.Length
      invariant total == Sum(out[..i])
    {
      assert out[..i + 1][..i] == out[..i];
      total := total + out[i];
    }
    assert out[..out.Length] == out[..];
  }

  method Bump(out: array<int>, i: nat, d: int)
    requires i < out.Length
    modifies out
    ensures out[..] == old(out[..])[i := old(out[i]) + d] && Sum(out[..]) == old(Sum(out[..])) + d
  {
    SumUpdate(out[..], i, out[i] + d);
    ghost var s := out[..];
    out[i] := out[i] + d;
    assert out[..] == s[i := s[i] + d];
  }

  /** The claw-back loop: sweeps from the weakest node until the total fits. */
  method ClawBack(out: array<int>, nLayers: nat)
    requires out.Length > 0 && Sum(out[..]) >= nLayers >= out.Length
    requires forall i | 0 <= i < out.Length :: out[i] >= 1
    modifies out
    ensures Sum(out[..]) == nLayers
    ensures exists t, c :: ClawedBack(out[..], old(out[..]), t, c)
  {
    hide Sum;
    ghost var f := out[..];
    ghost var t, c := 0, out.Length;
    var total := SumOf(out);
    while total > nLayers
      invariant total == Sum(out[..]) >= nLayers
      invariant ClawedBack(out[..], f, t, c) && (total > nLayers ==> c == out.Length)
      decreases total
    {
      var took := false;
      ghost var start := total;
      c := out.Length;
      for i := out.Length downto 0
        invariant total == Sum(out[..]) >= nLayers && total <= start
        invariant ClawedBack(out[..], f, t, c) && i <= c && (total > nLayers ==> c == i)
        invariant took <==> total < start
        invariant !took ==> forall j | c <= j < out.Length :: out[j] == 1
      {
        if out[i] > 1 && total > nLayers {
          Bump(out, i, -1);
          total := total - 1;
          took := true;
          c := i;
        } else if total > nLayers {
          c := i;
        }
      }
      if !took {
        AllOnes(out[..]);
        assert false;
      }
      if total > nLayers { t, c := t + 1, out.Length; }
    }
  }

  lemma {:induction false} AllOnes(s: seq<int>)
    requires forall i | 0 <= i < |s| :: s[i] == 1
    ensures Sum(s) == |s|
  {
    if s != [] { AllOnes(s[..|s| - 1]); }
  }

  /** The counts before repair: shares plus the remainder, or shares minus the overshoot. */
  ghost predicate Proportional(s: seq<int>, nLayers: nat, vram: seq<nat>)
    requires TotalWeight(vram) > 0
  {
    && Sum(s) == nLayers
    && ((exists t, c :: HandedOut(s, Shares(nLayers, vram), t, c))
        || (exists t, c :: ClawedBack(s, Shares(nLayers, vram), t, c)))
  }

  method AddWeights(vram: seq<nat>) returns (w: nat)
    ensures w == TotalWeight(vram)
  {
    w := 0;
    for i := 0 to |vram|
      invariant w == TotalWeight(vram[..i])
    {
      assert vram[..i + 1][..i] == vram[..i];
      w := w + Weight(vram[i]);
    }
    assert vram[..|vram|] == vram;
  }

  lemma ProportionalPositive(s: seq<int>, nLayers: nat, vram: seq<nat>)
    requires TotalWeight(vram) > 0 && Proportional(s, nLayers, vram)
    ensures |s| == |vram| && forall i | 0 <= i < |s| :: s[i] >= 1
  {
  }

  method SplitProportionally(nLayers: nat, vram: seq<nat>, out: array<int>)
    requires 0 < |vram| == out.Length <= nLayers
    modifies out
    ensures TotalWeight(vram) > 0
    ensures Proportional(out[..], nLayers, vram)
  {
    var total := AddWeights(vram);
    assert vram[..|vram| - 1] + [vram[|vram| - 1]] == vram;
    for i := 0 to |vram|
      invariant forall j | 0 <= j < i :: out[j] == Share(nLayers, vram, j)
    {
      var share := nLayers * Weight(vram[i]) / total;
      if share < 1 { share := 1; }
      out[i] := share;
    }
    assert out[..] == Shares(nLayers, vram);
    var given := SumOf(out);
    if given <= nLayers {
      HandOut(out, nLayers);
    } else {
      ClawBack(out, nLayers);
    }
  }

  // ----- Second pass: move what a node cannot hold to nodes with room, strongest first -----

  ghost predicate Within(s: seq<int>, caps: seq<int>) {
    |s| == |caps| && forall i | 0 <= i < |s| :: s[i] <= caps[i]
  }

  ghost predicate Beyond(s: seq<int>, caps: seq<int>) {
    |s| == |caps| && forall i | 0 <= i < |s| :: s[i] >= caps[i]
  }

  /** A node over its cap only loses, down to the cap; a node under it only gains, up to the cap, front first. */
  ghost predicate RepairedTo(s: seq<int>, f: seq<int>, caps: seq<int>) {
    && |s| == |f| == |caps|
    && (forall i | 0 <= i < |s| && f[i] >= caps[i] :: caps[i] <= s[i] <= f[i])
    && (forall i | 0 <= i < |s| && f[i] < caps[i] :: f[i] <= s[i] <= caps[i])
    && (forall i, j | 0 <= i < j < |s| && s[i] < caps[i] :: s[j] <= f[j])
  }

  /** The first node other than i with room, or the length. */
  method FindRoom(out: array<int>, caps: array<int>, i: nat) returns (j: nat)
    requires out.Length == caps.Length && i < out.Length && out[i] > caps[i]
    ensures j <= out.Length && forall k | 0 <= k < j :: out[k] >= caps[k]
    ensures j < out.Length ==> j != i && out[j] < caps[j]
  {
    j := 0;
    while j < out.Length && !(j != i && out[j] < caps[j])
      invariant j <= out.Length && forall k | 0 <= k < j :: out[k] >= caps[k]
    {
      j := j + 1;
    }
  }

  method MoveOne(out: array<int>, j: nat, i: nat)
    requires i < out.Length && j < out.Length && i != j
    modifies out
    ensures out[..] == old(out[..])[j := old(out[j]) + 1][i := old(out[i]) - 1]
    ensures Sum(out[..]) == old(Sum(out[..]))
  {
    SumMove(out[..], j, i, 1);
    ghost var s := out[..];
    out[j] := out[j] + 1;
    out[i] := out[i] - 1;
    assert out[..] == s[j := s[j] + 1][i := s[i] - 1];
  }

  lemma MoveKeepsRepaired(s: seq<int>, f: seq<int>, caps: seq<int>, i: nat, j: nat)
    requires RepairedTo(s, f, caps) && i < |s| && j < |s| && s[i] > caps[i] && s[j] < caps[j]
    requires forall k | 0 <= k < j :: s[k] >= caps[k]
    ensures RepairedTo(s[j := s[j] + 1][i := s[i] - 1], f, caps)
  {
  }

  /** The inner loop: unload node i until it fits or nobody has room. */
  method Unload(out: array<int>, caps: array<int>, i: nat, ghost f: seq<int>)
    requires i < out.Length == caps.Length && out != caps && RepairedTo(out[..], f, caps[..])
    modifies out
    ensures Sum(out[..]) == old(Sum(out[..])) && RepairedTo(out[..], f, caps[..])
    ensures out[i] <= caps[i] || Beyond(out[..], caps[..])
    ensures forall k | 0 <= k < out.Length && old(out[k]) <= caps[k] :: out[k] <= caps[k]
    ensures old(Beyond(out[..], caps[..])) ==> out[..] == old(out[..])
    ensures forall k | 0 <= k < out.Length && old(out[k]) >= caps[k] && k != i :: out[k] == old(out[k])
  {
    hide RepairedTo;
    hide Sum;
    ghost var start := out[..];
    while out[i] > caps[i]
      invariant Sum(out[..]) == Sum(start) && RepairedTo(out[..], f, caps[..])
      invariant forall k | 0 <= k < out.Length && start[k] <= caps[k] :: out[k] <= caps[k]
      invariant Beyond(start, caps[..]) ==> out[..] == start
      invariant forall k | 0 <= k < out.Length && start[k] >= caps[k] && k != i :: out[k] == start[k]
      decreases out[i] - caps[i]
    {
      var j := FindRoom(out, caps, i);
      if j == out.Length {
        break;
      }
      MoveKeepsRepaired(out[..], f, caps[..], i, j);
      MoveOne(out, j, i);
    }
  }

  method Repair(out: array<int>, caps: array<int>)
    requires out.Length == caps.Length && out != caps
    modifies out
    ensures Sum(out[..]) == old(Sum(out[..])) && RepairedTo(out[..], old(out[..]), caps[..])
    ensures Within(out[..], caps[..]) || Beyond(out[..], caps[..])
  {
    ghost var f := out[..];
    ghost var stuck := false;
    for i := 0 to out.Length
      invariant Sum(out[..]) == Sum(f) && RepairedTo(out[..], f, caps[..])
      invariant !stuck ==> forall k | 0 <= k < i :: out[k] <= caps[k]
      invariant stuck ==> Beyond(out[..], caps[..])
    {
      hide RepairedTo;
      Unload(out, caps, i, f);
      if out[i] > caps[i] { stuck := true; }
    }
  }

  /** The caps are kept exactly when together they can hold the layers; otherwise every node is filled. */
  lemma RepairFitsIff(s: seq<int>, caps: seq<int>)
    requires Within(s, caps) || Beyond(s, caps)
    ensures Within(s, caps) <==> Sum(s) <= Sum(caps)
  {
    if Within(s, caps) {
      SumBounds(s, caps);
    } else {
      SumBounds(caps, s);
    }
  }

  // ----- Third pass: nudge the stage boundaries onto multiples of k -----

  function Prefix(s: seq<int>, i: nat): int
    requires i <= |s|
  {
    Sum(s[..i])
  }

  /** How far boundary i moves, given the count to its left as it is now: up, down, or not at all. */
  function Shift(s: seq<int>, caps: seq<int>, k: int, i: nat): int
    requires i + 1 < |s| == |caps| && k > 1
  {
    var rem := Prefix(s, i + 1) % k;
    var up, dn := k - rem, rem;
    if rem == 0 then 0
    else if up <= dn && s[i] + up <= caps[i] && s[i + 1] - up >= 1 then up
    else if s[i] - dn >= 1 && s[i + 1] + dn <= caps[i + 1] then -dn
    else 0
  }

  function NudgeOne(s: seq<int>, caps: seq<int>, k: int, i: nat): (r: seq<int>)
    requires i + 1 < |s| == |caps| && k > 1
    ensures |r| == |s|
  {
    var d := Shift(s, caps, k, i);
    s[i := s[i] + d][i + 1 := s[i + 1] - d]
  }

  /** Boundaries 0 to i - 1 have been visited, left to right. */
  function Nudged(s: seq<int>, caps: seq<int>, k: int, i: nat): (r: seq<int>)
    requires i < |s| == |caps| && k > 1
    ensures |r| == |s|
  {
    if i == 0 then s else NudgeOne(Nudged(s, caps, k, i - 1), caps, k, i - 1)
  }

  lemma PrefixNext(s: seq<int>, i: nat)
    requires i < |s|
    ensures Prefix(s, i + 1) == Prefix(s, i) + s[i]
  {
    assert s[..i + 1][..i] == s[..i];
  }

  /** The body of the loop at one boundary. */
  method NudgeAt(out: array<int>, caps: array<int>, k: int, i: nat, cum: int) returns (cum': int)
    requires i + 1 < out.Length == caps.Length && out != caps && k > 1 && cum == Prefix(out[..], i + 1)
    modifies out
    ensures out[..] == NudgeOne(old(out[..]), caps[..], k, i) && cum' == Prefix(out[..], i + 1)
  {
    hide Sum;
    cum' := cum;
    var rem := cum % k;
    ghost var s := out[..];
    PrefixNext(s, i);
    if rem == 0 {
      assert s[i := s[i] + 0][i + 1 := s[i + 1] - 0] == s;
      return;
    }
    var up, dn := k - rem, rem;
    ghost var d := Shift(s, caps[..], k, i);
    if up <= dn && out[i] + up <= caps[i] && out[i + 1] - up >= 1 {
      out[i] := out[i] + up;
      out[i + 1] := out[i + 1] - up;
      cum' := cum + up;
    } else if out[i] - dn >= 1 && out[i + 1] + dn <= caps[i + 1] {
      out[i] := out[i] - dn;
      out[i + 1] := out[i + 1] + dn;
      cum' := cum - dn;
    }
    assert out[..] == s[i := s[i] + d][i + 1 := s[i + 1] - d];
    PrefixNext(out[..], i);
    assert out[..][..i] == s[..i];
  }

  method NudgeBoundaries(out: array<int>, caps: array<int>, k: int)
    requires 0 < out.Length == caps.Length && out != caps && k > 1
    modifies out
    ensures out[..] == Nudged(old(out[..]), caps[..], k, out.Length - 1)
  {
    hide NudgeOne;
    hide Sum;
    ghost var s := out[..];
    var cum := 0;
    PrefixNone(s);
    for i := 0 to out.Length - 1
      invariant out[..] == Nudged(s, caps[..], k, i)
      invariant cum == Prefix(out[..], i)
    {
      PrefixNext(out[..], i);
      cum := NudgeAt(out, caps, k, i, cum + out[i]);
    }
  }

  lemma PrefixNone(s: seq<int>)
    ensures Prefix(s, 0) == 0
  {
  }

  // ----- What nudging keeps -----

  ghost predicate AtLeastOne(s: seq<int>) {
    forall i | 0 <= i < |s| :: s[i] >= 1
  }

  /** A shift is legal on both sides: the stage that grows stays within its cap, the other keeps a layer. */
  lemma ShiftLegal(s: seq<int>, caps: seq<int>, k: int, i: nat)
    requires i + 1 < |s| == |caps| && k > 1
    ensures var d := Shift(s, caps, k, i);
      || d == 0
      || (d > 0 && s[i] + d <= caps[i] && s[i + 1] - d >= 1)
      || (d < 0 && s[i] + d >= 1 && s[i + 1] - d <= caps[i + 1])
  {
    hide Prefix;
    var rem := Prefix(s, i + 1) % k;
    assert 0 <= rem < k;
  }

  lemma NudgeOneKeeps(s: seq<int>, caps: seq<int>, k: int, i: nat)
    requires i + 1 < |s| == |caps| && k > 1
    ensures var r := NudgeOne(s, caps, k, i);
      && Sum(r) == Sum(s)
      && (AtLeastOne(s) ==> AtLeastOne(r))
      && (Within(s, caps) ==> Within(r, caps))
      && (Beyond(s, caps) ==> r == s)
  {
    hide *;
    ShiftLegal(s, caps, k, i);
    LegalMoveKeeps(s, caps, i, Shift(s, caps, k, i));
    NudgeOneIs(s, caps, k, i);
  }

  lemma NudgeOneIs(s: seq<int>, caps: seq<int>, k: int, i: nat)
    requires i + 1 < |s| == |caps| && k > 1
    ensures var d := Shift(s, caps, k, i); NudgeOne(s, caps, k, i) == s[i := s[i] + d][i + 1 := s[i + 1] - d]
  {
  }

  lemma LegalMoveKeeps(s: seq<int>, caps: seq<int>, i: nat, d: int)
    requires i + 1 < |s| == |caps|
    requires d == 0 || (d > 0 && s[i] + d <= caps[i] && s[i + 1] - d >= 1)
      || (d < 0 && s[i] + d >= 1 && s[i + 1] - d <= caps[i + 1])
    ensures var r := s[i := s[i] + d][i + 1 := s[i + 1] - d];
      && Sum(r) == Sum(s)
      && (AtLeastOne(s) ==> AtLeastOne(r))
      && (Within(s, caps) ==> Within(r, caps))
      && (Beyond(s, caps) ==> r == s)
  {
    hide Sum;
    SumMove(s, i, i + 1, d);
    var r := s[i := s[i] + d][i + 1 := s[i + 1] - d];
    assert forall j | 0 <= j < |s| && j != i && j != i + 1 :: r[j] == s[j];
    if d == 0 { assert r == s; }
  }

  lemma NudgeOneMoves(s: seq<int>, caps: seq<int>, k: int, i: nat)
    requires i + 1 < |s| == |caps| && k > 1
    ensures Prefix(NudgeOne(s, caps, k, i), i + 1) == Prefix(s, i + 1) + Shift(s, caps, k, i)
  {
    hide Sum;
    hide Shift;
    var r := NudgeOne(s, caps, k, i);
    PrefixNext(s, i);
    PrefixNext(r, i);
    assert r[..i] == s[..i];
  }

  lemma {:induction false} PrefixPlusRest(s: seq<int>, j: nat)
    requires j <= |s|
    ensures Sum(s) == Prefix(s, j) + Sum(s[j..])
    decreases |s| - j
  {
    if j == |s| {
      assert s[..j] == s;
    } else {
      PrefixPlusRest(s, j + 1);
      PrefixNext(s, j);
      SumFront(s[j..]);
      assert s[j..][1..] == s[j + 1..];
    }
  }

  lemma {:induction false} SumFront(s: seq<int>)
    requires s != []
    ensures Sum(s) == s[0] + Sum(s[1..])
  {
    if |s| > 1 {
      SumFront(s[..|s| - 1]);
      assert s[..|s| - 1][1..] == s[1..][..|s| - 2];
    }
  }

  /** A boundary moves only when it is visited. */
  lemma OtherBoundariesStay(s: seq<int>, caps: seq<int>, k: int, i: nat, j: nat)
    requires i + 1 < |s| == |caps| && k > 1 && j <= |s| && j != i + 1
    ensures Prefix(NudgeOne(s, caps, k, i), j) == Prefix(s, j)
  {
    hide Sum;
    var r := NudgeOne(s, caps, k, i);
    NudgeOneKeeps(s, caps, k, i);
    hide Shift;
    if j <= i {
      assert r[..j] == s[..j];
    } else {
      PrefixPlusRest(s, j);
      PrefixPlusRest(r, j);
      assert r[j..] == s[j..];
    }
  }

  lemma ShiftAligns(s: seq<int>, caps: seq<int>, k: int, i: nat)
    requires i + 1 < |s| == |caps| && k > 1 && Prefix(s, i + 1) >= 0
    ensures var d := Shift(s, caps, k, i);
      && -(k - 1) <= d <= k / 2
      && (d != 0 ==> (Prefix(s, i + 1) + d) % k == 0)
      && (Prefix(s, i + 1) % k == 0 ==> d == 0)
  {
    hide Sum;
    Rounding(Prefix(s, i + 1), k);
  }

  lemma Rounding(c: nat, k: nat)
    requires k > 1
    ensures (c - c % k) % k == 0 && (c + (k - c % k)) % k == 0
  {
    var q := c / k;
    assert c - c % k == q * k;
    assert c + (k - c % k) == (q + 1) * k;
    MultipleOf(q, k);
    MultipleOf(q + 1, k);
  }

  lemma {:induction false} NudgedKeeps(s: seq<int>, caps: seq<int>, k: int, i: nat)
    requires i < |s| == |caps| && k > 1
    ensures var r := Nudged(s, caps, k, i);
      && Sum(r) == Sum(s)
      && (AtLeastOne(s) ==> AtLeastOne(r))
      && (Within(s, caps) ==> Within(r, caps))
      && (Beyond(s, caps) ==> r == s)
  {
    hide Within;
    hide Beyond;
    hide AtLeastOne;
    hide Sum;
    hide NudgeOne;
    hide Shift;
    if i > 0 {
      NudgedKeeps(s, caps, k, i - 1);
      NudgeOneKeeps(Nudged(s, caps, k, i - 1), caps, k, i - 1);
      NudgedStep(s, caps, k, i);
    }
  }

  lemma NudgedStep(s: seq<int>, caps: seq<int>, k: int, i: nat)
    requires 0 < i < |s| == |caps| && k > 1
    ensures Nudged(s, caps, k, i) == NudgeOne(Nudged(s, caps, k, i - 1), caps, k, i - 1)
  {
  }

  lemma {:induction false} PrefixNonNegative(s: seq<int>, i: nat)
    requires i <= |s| && AtLeastOne(s)
    ensures Prefix(s, i) >= 0
  {
    if i > 0 {
      PrefixNonNegative(s, i - 1);
      PrefixNext(s, i - 1);
    }
  }

  /** Before its visit a boundary is where it was; after it, it is where the visit put it. */
  lemma {:induction false} BoundaryAfter(s: seq<int>, caps: seq<int>, k: int, i: nat, j: nat)
    requires i < |s| == |caps| && k > 1 && 0 < j < |s|
    ensures Prefix(Nudged(s, caps, k, i), j)
      == if i < j then Prefix(s, j) else Prefix(s, j) + Shift(Nudged(s, caps, k, j - 1), caps, k, j - 1)
    decreases i
  {
    hide *;
    NudgedStart(s, caps, k);
    if i > 0 {
      var t := Nudged(s, caps, k, i - 1);
      BoundaryAfter(s, caps, k, i - 1, j);
      NudgedStep(s, caps, k, i);
      if i == j {
        NudgeOneMoves(t, caps, k, i - 1);
      } else {
        OtherBoundariesStay(t, caps, k, i - 1, j);
      }
    }
  }

  lemma NudgedStart(s: seq<int>, caps: seq<int>, k: int)
    requires 0 < |s| == |caps| && k > 1
    ensures Nudged(s, caps, k, 0) == s
  {
  }

  /** Every boundary ends on a multiple of k or where it was; an aligned one never moves. */
  lemma BoundariesSnap(s: seq<int>, caps: seq<int>, k: int, j: nat)
    requires 0 < j < |s| == |caps| && k > 1 && AtLeastOne(s)
    ensures var b, b' := Prefix(s, j), Prefix(Nudged(s, caps, k, |s| - 1), j);
      && (b' == b || b' % k == 0)
      && (b % k == 0 ==> b' == b)
      && -(k - 1) <= b' - b <= k / 2
  {
    hide Nudged;
    hide Prefix;
    hide Shift;
    hide NudgeOne;
    hide Sum;
    var t := Nudged(s, caps, k, j - 1);
    NudgedKeeps(s, caps, k, j - 1);
    PrefixNonNegative(t, j);
    BoundaryAfter(s, caps, k, |s| - 1, j);
    BoundaryAfter(s, caps, k, j - 1, j);
    ShiftAligns(t, caps, k, j - 1);
  }

  /** How far nudging can take one stage from its count: k - 1 on one side plus k / 2 on the other. */
  lemma StageMovesAtMost(s: seq<int>, caps: seq<int>, k: int, i: nat)
    requires i < |s| == |caps| && k > 1 && AtLeastOne(s)
    ensures var r := Nudged(s, caps, k, |s| - 1);
      -(k - 1) - k / 2 <= r[i] - s[i] <= k - 1 + k / 2
  {
    var r := Nudged(s, caps, k, |s| - 1);
    NudgedKeeps(s, caps, k, |s| - 1);
    if i > 0 { BoundariesSnap(s, caps, k, i); }
    if i + 1 < |s| { BoundariesSnap(s, caps, k, i + 1); }
    hide *;
    PrefixNext(s, i);
    PrefixNext(r, i);
    PrefixNone(s);
    PrefixNone(r);
    PrefixAll(s);
    PrefixAll(r);
  }

  lemma PrefixAll(s: seq<int>)
    ensures Prefix(s, |s|) == Sum(s)
  {
    assert s[..|s|] == s;
  }

  // ----- The whole split -----

  /** What the source promises about the counts it returns. */
  ghost predicate Split(m: Model, vram: seq<nat>, s: seq<int>)
    requires |vram| <= MAX_REPAIRED ==> AllDivide(m, vram)
  {
    && |s| == |vram| && AtLeastOne(s) && Sum(s) == m.nLayers
    && (|vram| <= MAX_REPAIRED ==>
          if m.nLayers <= Sum(Caps(m, vram)) then Within(s, Caps(m, vram)) else Beyond(s, Caps(m, vram)))
  }

  /** Every node with more than one layer holds its layers, the shared part and the overhead in its memory. */
  ghost predicate FitsMemory(m: Model, vram: seq<nat>, s: seq<int>)
    requires m.nLayers > 0
  {
    |s| == |vram| && forall i | 0 <= i < |s| && s[i] > 1 ::
      s[i] * (m.layerBytes / m.nLayers) + m.sharedBytes + m.overhead <= vram[i]
  }

  lemma CapsFitMemory(m: Model, vram: seq<nat>, s: seq<int>)
    requires AllDivide(m, vram)
    ensures Within(s, Caps(m, vram)) ==> FitsMemory(m, vram, s)
  {
    hide Cap;
    if Within(s, Caps(m, vram)) {
      forall i | 0 <= i < |s| && s[i] > 1
        ensures s[i] * (m.layerBytes / m.nLayers) + m.sharedBytes + m.overhead <= vram[i]
      {
        assert Divides(m, vram[i]) && s[i] <= Cap(m, vram[i]);
        CapIff(m, vram[i], s[i]);
        AtLeastOneByte(m.layerBytes, m.nLayers);
        NonNegative(s[i] - 2, m.layerBytes / m.nLayers);
        assert s[i] * (m.layerBytes / m.nLayers)
            == (s[i] - 2) * (m.layerBytes / m.nLayers) + 2 * (m.layerBytes / m.nLayers);
      }
    }
  }

  /** The result, pass by pass: proportional, repaired, nudged. */
  ghost predicate Passes(m: Model, vram: seq<nat>, s: seq<int>)
    requires (|vram| <= MAX_REPAIRED ==> AllDivide(m, vram)) && TotalWeight(vram) > 0
  {
    exists p, r :: PassesBy(m, vram, s, p, r)
  }

  ghost predicate PassesBy(m: Model, vram: seq<nat>, s: seq<int>, p: seq<int>, r: seq<int>)
    requires (|vram| <= MAX_REPAIRED ==> AllDivide(m, vram)) && TotalWeight(vram) > 0
  {
    && Proportional(p, m.nLayers, vram) && |p| == |vram| > 0
    && if |vram| > MAX_REPAIRED then s == p
       else
         && RepairedTo(r, p, Caps(m, vram))
         && s == if m.multiple > 1 then Nudged(r, Caps(m, vram), m.multiple, |vram| - 1) else r
  }

  lemma RepairedPositive(s: seq<int>, f: seq<int>, m: Model, vram: seq<nat>)
    requires AllDivide(m, vram)
    requires AtLeastOne(f) && RepairedTo(s, f, Caps(m, vram))
    ensures AtLeastOne(s)
  {
  }

  method FillCaps(m: Model, vram: seq<nat>) returns (caps: array<int>)
    requires AllDivide(m, vram)
    ensures fresh(caps) && caps[..] == Caps(m, vram)
  {
    caps := new int[|vram|];
    for i := 0 to |vram|
      invariant forall j | 0 <= j < i :: caps[j] == Cap(m, vram[j])
    {
      caps[i] := Cap(m, vram[i]);
    }
  }

  method PlanLayers(m: Model, vram: seq<nat>, out: array<int>) returns (rc: int)
    requires out.Length == |vram| && (0 < |vram| <= m.nLayers && |vram| <= MAX_REPAIRED ==> AllDivide(m, vram))
    modifies out
    ensures rc == (if |vram| == 0 || |vram| > m.nLayers then -1 else 0)
    ensures rc == -1 ==> out[..] == old(out[..])
    ensures rc == 0 ==> TotalWeight(vram) > 0 && Split(m, vram, out[..]) && Passes(m, vram, out[..])
    ensures rc == 0 && |vram| <= 64 && m.nLayers <= Sum(Caps(m, vram)) ==> FitsMemory(m, vram, out[..])
    ensures rc == 0 && |vram| > 64 ==> Proportional(out[..], m.nLayers, vram)
  {
    hide Proportional;
    hide Sum;
    hide TotalWeight;
    hide Within;
    hide Beyond;
    hide RepairedTo;
    hide Nudged;
    hide Caps;
    if |vram| == 0 || |vram| > m.nLayers { return -1; }
    SplitProportionally(m.nLayers, vram, out);
    ghost var p := out[..];
    SumIsProportional(p, m.nLayers, vram);
    ProportionalPositive(p, m.nLayers, vram);
    if |vram| > MAX_REPAIRED {
      assert PassesBy(m, vram, out[..], p, p);
      return 0;
    }
    var caps := FillCaps(m, vram);
    Repair(out, caps);
    ghost var r := out[..];
    RepairFitsIff(r, caps[..]);
    RepairedPositive(r, p, m, vram);
    if m.multiple > 1 {
      NudgeBoundaries(out, caps, m.multiple);
      NudgedKeeps(r, caps[..], m.multiple, |vram| - 1);
    }
    assert PassesBy(m, vram, out[..], p, r);
    CapsFitMemory(m, vram, out[..]);
    return 0;
  }

  lemma SumIsProportional(s: seq<int>, nLayers: nat, vram: seq<nat>)
    requires TotalWeight(vram) > 0 && Proportional(s, nLayers, vram)
    ensures Sum(s) == nLayers
  {
  }
}
