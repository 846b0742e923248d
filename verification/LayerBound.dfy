/** Exactly when boundary nudging moves a stage by more than the k - 1 layers a comment in src/common/plan.c allows. */
module LayerBound {

  import opened LayerSplit

  // ----- Where a boundary goes, read off the split before the pass -----

  /** What boundary j is over a multiple of k. */
  function Rem(s: seq<int>, k: int, j: nat): (r: int)
    requires j <= |s| && k > 1
    ensures 0 <= r < k
  {
    Prefix(s, j) % k
  }

  /** The stage left of boundary j when the pass comes to it: only boundary j - 1 has changed it. */
  function Left(s: seq<int>, caps: seq<int>, k: int, j: nat): int
    requires 0 < j <= |s| == |caps| && k > 1
    decreases j, 0
  {
    s[j - 1] - Move(s, caps, k, j - 1)
  }

  /** The guard of the first branch at boundary j. */
  predicate GoesUp(s: seq<int>, caps: seq<int>, k: int, j: nat)
    requires j <= |s| == |caps| && k > 1
    decreases j, 1
  {
    && 0 < j < |s| && Rem(s, k, j) != 0
    && var up := k - Rem(s, k, j);
       up <= Rem(s, k, j) && Left(s, caps, k, j) + up <= caps[j - 1] && s[j] - up >= 1
  }

  /** The guard of the second. */
  predicate GoesDown(s: seq<int>, caps: seq<int>, k: int, j: nat)
    requires j <= |s| == |caps| && k > 1
    decreases j, 2
  {
    && 0 < j < |s| && Rem(s, k, j) != 0 && !GoesUp(s, caps, k, j)
    && Left(s, caps, k, j) - Rem(s, k, j) >= 1 && s[j] + Rem(s, k, j) <= caps[j]
  }

  /** How far boundary j moves; the two outer ones do not. */
  function Move(s: seq<int>, caps: seq<int>, k: int, j: nat): int
    requires j <= |s| == |caps| && k > 1
    decreases j, 3
  {
    if GoesUp(s, caps, k, j) then k - Rem(s, k, j)
    else if GoesDown(s, caps, k, j) then -Rem(s, k, j)
    else 0
  }

  // ----- The pass does that -----

  /** Every stage after the first i boundaries have been visited. */
  ghost predicate StagesAre(s: seq<int>, caps: seq<int>, k: int, i: nat, t: seq<int>)
    requires i < |s| == |caps| && k > 1
  {
    && |t| == |s|
    && (forall j | 0 <= j < i :: t[j] == s[j] + Move(s, caps, k, j + 1) - Move(s, caps, k, j))
    && t[i] == s[i] - Move(s, caps, k, i)
    && (forall j | i < j < |s| :: t[j] == s[j])
  }

  lemma ShiftIsMove(s: seq<int>, caps: seq<int>, k: int, j: nat, t: seq<int>)
    requires 0 < j < |s| == |caps| == |t| && k > 1
    requires t[j - 1] == Left(s, caps, k, j) && t[j] == s[j] && Prefix(t, j) == Prefix(s, j)
    ensures Shift(t, caps, k, j - 1) == Move(s, caps, k, j)
  {
    hide Prefix;
    hide Left;
  }

  lemma NudgeIsMove(s: seq<int>, caps: seq<int>, k: int, i: nat, t: seq<int>)
    requires i + 1 < |s| == |caps| && k > 1 && StagesAre(s, caps, k, i, t)
    requires Shift(t, caps, k, i) == Move(s, caps, k, i + 1)
    ensures StagesAre(s, caps, k, i + 1, NudgeOne(t, caps, k, i))
  {
    hide Shift;
    hide Move;
  }

  lemma {:induction false} NudgedStages(s: seq<int>, caps: seq<int>, k: int, i: nat)
    requires i < |s| == |caps| && k > 1
    ensures StagesAre(s, caps, k, i, Nudged(s, caps, k, i))
  {
    hide Prefix;
    hide Shift;
    hide NudgeOne;
    if i == 0 {
      NudgedStart(s, caps, k);
    } else {
      NudgedStages(s, caps, k, i - 1);
      NudgedStep(s, caps, k, i);
      var t := Nudged(s, caps, k, i - 1);
      BoundaryAfter(s, caps, k, i - 1, i);
      hide Move;
      hide Nudged;
      ShiftIsMove(s, caps, k, i, t);
      NudgeIsMove(s, caps, k, i - 1, t);
    }
  }

  /** A stage gains what its right boundary moved and loses what its left one did. */
  lemma StageChange(s: seq<int>, caps: seq<int>, k: int, i: nat)
    requires i < |s| == |caps| && k > 1
    ensures Nudged(s, caps, k, |s| - 1)[i] - s[i] == Move(s, caps, k, i + 1) - Move(s, caps, k, i)
  {
    hide Nudged;
    NudgedStages(s, caps, k, |s| - 1);
    hide GoesUp;
    hide GoesDown;
    OuterStays(s, caps, k);
  }

  lemma OuterStays(s: seq<int>, caps: seq<int>, k: int)
    requires |s| == |caps| && k > 1
    ensures Move(s, caps, k, |s|) == 0
  {
  }

  // ----- The exact condition -----

  /** Its left boundary goes down and its right one up, by k or more together. */
  predicate GrowsTooFar(s: seq<int>, caps: seq<int>, k: int, i: nat)
    requires i < |s| == |caps| && k > 1
  {
    GoesDown(s, caps, k, i) && GoesUp(s, caps, k, i + 1) && Rem(s, k, i) >= Rem(s, k, i + 1)
  }

  /** Its left boundary goes up and its right one down, by k or more together. */
  predicate ShrinksTooFar(s: seq<int>, caps: seq<int>, k: int, i: nat)
    requires i < |s| == |caps| && k > 1
  {
    GoesUp(s, caps, k, i) && GoesDown(s, caps, k, i + 1) && Rem(s, k, i) <= Rem(s, k, i + 1)
  }

  /**
   * Nudging changes a stage by more than k - 1 layers exactly when its two boundaries move apart, or together, with
   * the remainders so ordered that the two moves make k or more.
   */
  lemma StageBeyondBoundIff(s: seq<int>, caps: seq<int>, k: int, i: nat)
    requires i < |s| == |caps| && k > 1
    ensures var d := Nudged(s, caps, k, |s| - 1)[i] - s[i];
      && (d > k - 1 <==> GrowsTooFar(s, caps, k, i))
      && (d < -(k - 1) <==> ShrinksTooFar(s, caps, k, i))
  {
    hide Nudged;
    hide Prefix;
    hide GoesUp;
    hide Left;
    StageChange(s, caps, k, i);
    UpIsHalf(s, caps, k, i);
    UpIsHalf(s, caps, k, i + 1);
  }

  lemma UpIsHalf(s: seq<int>, caps: seq<int>, k: int, j: nat)
    requires j <= |s| == |caps| && k > 1
    ensures GoesUp(s, caps, k, j) ==> 0 < k - Rem(s, k, j) <= k / 2
    ensures GoesDown(s, caps, k, j) ==> Rem(s, k, j) > 0
  {
    hide Left;
    hide Rem;
  }

  /** What the planner returns, against the split it repaired: the bound holds exactly where no stage does that. */
  lemma PlannedBoundIff(m: Model, vram: seq<nat>, s: seq<int>, p: seq<int>, r: seq<int>)
    requires 0 < |vram| <= MAX_REPAIRED && AllDivide(m, vram) && TotalWeight(vram) > 0 && m.multiple > 1
    requires PassesBy(m, vram, s, p, r)
    ensures var caps, k := Caps(m, vram), m.multiple;
      && |s| == |r| == |vram| == |caps|
      && ((forall i | 0 <= i < |s| :: -(k - 1) <= s[i] - r[i] <= k - 1)
          <==> forall i | 0 <= i < |s| :: !GrowsTooFar(r, caps, k, i) && !ShrinksTooFar(r, caps, k, i))
  {
    hide Proportional;
    hide Nudged;
    hide Caps;
    hide GrowsTooFar;
    hide ShrinksTooFar;
    forall i | 0 <= i < |r|
      ensures -(m.multiple - 1) <= s[i] - r[i] <= m.multiple - 1
        <==> !GrowsTooFar(r, Caps(m, vram), m.multiple, i) && !ShrinksTooFar(r, Caps(m, vram), m.multiple, i)
    {
      StageBeyondBoundIff(r, Caps(m, vram), m.multiple, i);
    }
  }

  // ----- A planner's input that does it -----

  const MODEL: Model := Model(24, 24, 0, 0, 6)

  const VRAM: seq<nat> := [38, 59, 11]

  /** Three numbers at a time. */
  lemma SumOfThree(a: int, b: int, c: int)
    ensures Sum([a, b, c]) == a + b + c && Prefix([a, b, c], 1) == a && Prefix([a, b, c], 2) == a + b
  {
    assert [a, b, c][..2] == [a, b] && [a, b][..1] == [a] && [a][..0] == [] && [a, b, c][..1] == [a];
    assert Sum([a]) == a;
  }

  lemma ExampleCap(v: nat)
    requires v > 1
    ensures Divides(MODEL, v) && Cap(MODEL, v) == v
  {
    assert MODEL.layerBytes / MODEL.nLayers == 1;
    assert v / 1 == v;
  }

  lemma ExampleCaps()
    ensures AllDivide(MODEL, VRAM) && Caps(MODEL, VRAM) == [38, 59, 11]
  {
    hide Cap;
    hide Divides;
    ExampleCap(38);
    ExampleCap(59);
    ExampleCap(11);
    assert forall i | 0 <= i < 3 :: VRAM[i] == [38, 59, 11][i];
  }

  lemma ExampleWeights()
    ensures TotalWeight(VRAM) == 108
  {
    assert VRAM[..2] == [38, 59] && [38, 59][..1] == [38] && [38][..0] == [];
    assert TotalWeight([38]) == 38;
    assert TotalWeight([38, 59]) == 97;
  }

  lemma ExampleShares()
    ensures TotalWeight(VRAM) == 108 && Shares(24, VRAM) == [8, 13, 2]
  {
    ExampleWeights();
    hide TotalWeight;
    assert Share(24, VRAM, 0) == 8;
    assert Share(24, VRAM, 1) == 13;
    assert Share(24, VRAM, 2) == 2;
  }

  /** The proportional split of the example, and the repair, leave no choice. */
  lemma ExampleSplit(p: seq<int>, r: seq<int>)
    requires TotalWeight(VRAM) == 108 && Shares(24, VRAM) == [8, 13, 2]
    ensures Proportional([9, 13, 2], 24, VRAM) && RepairedTo([9, 13, 2], [9, 13, 2], [38, 59, 11])
    ensures Proportional(p, 24, VRAM) && |p| == 3 ==> p == [9, 13, 2]
    ensures RepairedTo(r, [9, 13, 2], [38, 59, 11]) && Sum(r) == 24 ==> r == [9, 13, 2]
  {
    hide Sum;
    hide Shares;
    hide TotalWeight;
    SumOfThree(9, 13, 2);
    assert HandedOut([9, 13, 2], Shares(24, VRAM), 0, 1);
    if |p| == 3 {
      assert p == [p[0], p[1], p[2]];
      SumOfThree(p[0], p[1], p[2]);
    }
    if |r| == 3 {
      assert r == [r[0], r[1], r[2]];
      SumOfThree(r[0], r[1], r[2]);
    }
  }

  lemma ExampleNudged()
    ensures Nudged([9, 13, 2], [38, 59, 11], 6, 2) == [12, 6, 6]
  {
    hide Prefix;
    var s, caps := [9, 13, 2], [38, 59, 11];
    SumOfThree(9, 13, 2);
    assert Shift(s, caps, 6, 0) == 3;
    assert NudgeOne(s, caps, 6, 0) == [12, 10, 2];
    SumOfThree(12, 10, 2);
    assert Shift([12, 10, 2], caps, 6, 1) == -4;
    assert NudgeOne([12, 10, 2], caps, 6, 1) == [12, 6, 6];
    NudgedStart(s, caps, 6);
    NudgedStep(s, caps, 6, 1);
    NudgedStep(s, caps, 6, 2);
  }

  /**
   * For 24 layers of a byte, boundaries on multiples of 6 and nodes of 38, 59 and 11 bytes, the planner repairs to
   * [9, 13, 2] and returns [12, 6, 6], and nothing else: the second stage loses 7 layers, where k - 1 is 5.
   */
  lemma PlannedStageBeyondBound(s: seq<int>, p: seq<int>, r: seq<int>)
    ensures AllDivide(MODEL, VRAM) && TotalWeight(VRAM) > 0
    ensures PassesBy(MODEL, VRAM, [12, 6, 6], [9, 13, 2], [9, 13, 2])
    ensures PassesBy(MODEL, VRAM, s, p, r) && Sum(s) == 24 ==> s == [12, 6, 6] && r == [9, 13, 2]
    ensures [12, 6, 6][1] - [9, 13, 2][1] < -(MODEL.multiple - 1)
  {
    hide Sum;
    hide Nudged;
    hide Proportional;
    hide RepairedTo;
    hide Shares;
    hide Caps;
    ExampleCaps();
    ExampleShares();
    ExampleSplit(p, r);
    ExampleNudged();
    if PassesBy(MODEL, VRAM, s, p, r) && Sum(s) == 24 {
      SameLength(r, p, Caps(MODEL, VRAM));
      NudgedKeeps(r, Caps(MODEL, VRAM), 6, 2);
    }
  }

  lemma SameLength(s: seq<int>, f: seq<int>, caps: seq<int>)
    requires RepairedTo(s, f, caps)
    ensures |s| == |f| == |caps|
  {
  }
}
