/** Why the byte accounting can be trusted: its intervals tile the data section. */
module GgufMeasureLaws {

  import opened GgufMeasure
  import opened GgufSpec
  import opened Options
  import opened TensorNames

  // ----- The loop computes sums over the intervals -----

  /** A finite map of byte counts, summed over the keys below n. */
  function SumBelow(m: map<nat, int>, n: nat): int {
    if n == 0 then 0 else SumBelow(m, n - 1) + (if n - 1 in m then m[n - 1] else 0)
  }

  lemma {:induction false} SumBelowUpdate(m: map<nat, int>, k: nat, v: int, n: nat)
    ensures SumBelow(m[k := v], n)
      == SumBelow(m, n) + (if k < n then v - (if k in m then m[k] else 0) else 0)
  {
    if n > 0 {
      SumBelowUpdate(m, k, v, n - 1);
    }
  }

  predicate IsExpert(name: Name) {
    ExpertLayerOf(name).Some?
  }

  lemma ExpertNeedsBlock(name: Name)
    ensures ExpertLayerOf(name).Some? ==> IsBlock(name)
  {
  }

  lemma {:induction false} AccountSplits(s: seq<Tensor>, dataLen: int, n: nat)
    requires n <= |s|
    ensures Account(s, dataLen, n).layer == SumWhere(s, dataLen, n, IsBlock)
    ensures Account(s, dataLen, n).shared == SumWhere(s, dataLen, n, name => !IsBlock(name))
  {
    hide ExpertLayerOf;
    if n > 0 {
      AccountSplits(s, dataLen, n - 1);
    }
  }

  lemma {:induction false} AccountExperts(s: seq<Tensor>, dataLen: int, n: nat, il: nat)
    requires n <= |s|
    ensures var experts := Account(s, dataLen, n).experts;
      && (il in experts <==> exists j | 0 <= j < n :: ExpertLayerOf(s[j].name) == Some(il))
      && (if il in experts then experts[il] else 0) == SumWhere(s, dataLen, n, name => ExpertLayerOf(name) == Some(il))
  {
    hide ExpertLayerOf;
    if n > 0 {
      AccountExperts(s, dataLen, n - 1, il);
      ExpertNeedsBlock(s[n - 1].name);
    }
  }

  lemma {:induction false} AccountLargest(s: seq<Tensor>, dataLen: int, n: nat)
    requires n <= |s|
    ensures var m := Account(s, dataLen, n).maxExpert;
      && m >= 0
      && (forall j | 0 <= j < n && IsExpert(s[j].name) :: Size(s, j, dataLen) <= m)
      && (m > 0 ==> exists j | 0 <= j < n :: IsExpert(s[j].name) && Size(s, j, dataLen) == m)
  {
    hide ExpertLayerOf;
    if n > 0 {
      AccountLargest(s, dataLen, n - 1);
      ExpertNeedsBlock(s[n - 1].name);
    }
  }

  lemma {:induction false} ExpertTotal(s: seq<Tensor>, dataLen: int, n: nat, bound: nat)
    requires n <= |s| && forall il | il in Account(s, dataLen, n).experts :: il < bound
    ensures SumBelow(Account(s, dataLen, n).experts, bound) == SumWhere(s, dataLen, n, IsExpert)
  {
    hide ExpertLayerOf;
    if n > 0 {
      ExpertNeedsBlock(s[n - 1].name);
      var t, t' := Account(s, dataLen, n - 1), Account(s, dataLen, n);
      assert t' == Charge(t, s[n - 1].name, Size(s, n - 1, dataLen));
      assert forall il | il in t.experts :: il in t'.experts;
      ExpertTotal(s, dataLen, n - 1, bound);
      var il := ExpertLayerOf(s[n - 1].name);
      if il.Some? {
        assert il.value in t'.experts;
        SumBelowUpdate(t.experts, il.value, t'.experts[il.value], bound);
      }
    } else {
      NothingBelow(bound);
    }
  }

  lemma {:induction false} NothingBelow(n: nat)
    ensures SumBelow(map[], n) == 0
  {
    if n > 0 {
      NothingBelow(n - 1);
    }
  }

  // ----- Sums over intervals -----

  lemma {:induction false} SumWhereMonotone(s: seq<Tensor>, dataLen: int, n: nat, p: Name -> bool, q: Name -> bool)
    requires n <= |s|
    requires forall j | 0 <= j < n :: Size(s, j, dataLen) >= 0 && (p(s[j].name) ==> q(s[j].name))
    ensures 0 <= SumWhere(s, dataLen, n, p) <= SumWhere(s, dataLen, n, q)
  {
    if n > 0 {
      SumWhereMonotone(s, dataLen, n - 1, p, q);
    }
  }

  /** Consecutive intervals telescope. */
  lemma {:induction false} SumsTelescope(s: seq<Tensor>, dataLen: int, n: nat)
    requires 0 < n <= |s|
    ensures SumWhere(s, dataLen, n, IsBlock) + SumWhere(s, dataLen, n, name => !IsBlock(name))
      == End(s, n - 1, dataLen) - s[0].offset
  {
    if n > 1 {
      SumsTelescope(s, dataLen, n - 1);
    }
  }

  // ----- When measure succeeds, and what it then guarantees -----

  ghost predicate StartsAtZero(ts: seq<Tensor>) {
    exists t :: t in ts && t.offset == 0
  }

  ghost predicate EndsInside(ts: seq<Tensor>, dataLen: int) {
    forall t | t in ts :: t.offset <= dataLen
  }

  lemma SortedEnds(ts: seq<Tensor>, dataLen: int)
    requires ts != []
    ensures var s := SortByOffset(ts);
      && s != []
      && (StartsAtZero(ts) <==> s[0].offset == 0)
      && (EndsInside(ts, dataLen) <==> s[|s| - 1].offset <= dataLen)
  {
    var s := SortByOffset(ts);
    SortIsStable(ts);
    assert forall t :: t in ts <==> t in multiset(ts);
    assert forall t :: t in s <==> t in multiset(s);
    assert |s| == |multiset(s)| == |multiset(ts)| == |ts|;
    assert s[0] in ts && s[|s| - 1] in ts;
    assert forall i | 0 <= i < |s| :: s[0].offset <= s[i].offset <= s[|s| - 1].offset;
  }

  lemma NegativeOnlyAtEnd(s: seq<Tensor>, dataLen: int)
    requires Sorted(s) && s != []
    ensures (exists i | 0 <= i < |s| :: Size(s, i, dataLen) < 0) <==> s[|s| - 1].offset > dataLen
  {
    assert s[|s| - 1].offset > dataLen ==> Size(s, |s| - 1, dataLen) < 0;
  }

  lemma MeasureSucceedsIff(ts: seq<Tensor>, dataStart: nat, fileSize: int)
    ensures Measurement(ts, dataStart, fileSize).Measured?
      <==> ts == [] || (StartsAtZero(ts) && EndsInside(ts, fileSize - dataStart))
    ensures Measurement(ts, dataStart, fileSize) == NegativeSize
      <==> ts != [] && !EndsInside(ts, fileSize - dataStart)
  {
    hide Account;
    var s, dataLen := SortByOffset(ts), fileSize - dataStart;
    SortIsStable(ts);
    if ts != [] {
      SortedEnds(ts, dataLen);
      NegativeOnlyAtEnd(s, dataLen);
      AccountSplits(s, dataLen, |s|);
      SumsTelescope(s, dataLen, |s|);
    }
  }

  /** No byte of the file is lost or counted twice; expert bytes are layer bytes. */
  lemma Conservation(ts: seq<Tensor>, dataStart: nat, fileSize: int, bound: nat)
    requires Measurement(ts, dataStart, fileSize).Measured?
    requires forall il | il in Measurement(ts, dataStart, fileSize).totals.experts :: il < bound
    ensures var t := Measurement(ts, dataStart, fileSize).totals;
      && (ts != [] ==> t.layer + t.shared + dataStart == fileSize)
      && (ts == [] ==> t == Totals(0, 0, map[], 0))
      && 0 <= SumBelow(t.experts, bound) <= t.layer && 0 <= t.shared
  {
    hide ExpertLayerOf;
    var s, dataLen := SortByOffset(ts), fileSize - dataStart;
    SortIsStable(ts);
    AccountSplits(s, dataLen, |s|);
    ExpertTotal(s, dataLen, |s|, bound);
    forall j | 0 <= j < |s| ensures IsExpert(s[j].name) ==> IsBlock(s[j].name) {
      ExpertNeedsBlock(s[j].name);
    }
    SumWhereMonotone(s, dataLen, |s|, IsExpert, IsBlock);
    SumWhereMonotone(s, dataLen, |s|, name => !IsBlock(name), name => !IsBlock(name));
    if ts == [] { assert s == []; }
  }

  predicate Covers(s: seq<Tensor>, dataLen: int, i: nat, x: int)
    requires i < |s|
  {
    s[i].offset <= x < End(s, i, dataLen)
  }

  /** An interval of a sorted directory that covers x puts x in the data section, and no other interval covers it. */
  lemma CoveredOnce(s: seq<Tensor>, dataLen: int, i: nat, j: nat, x: int)
    requires Sorted(s) && i < |s| && j < |s| && Covers(s, dataLen, i, x) && Covers(s, dataLen, j, x)
    requires s[|s| - 1].offset <= dataLen
    ensures i == j && s[0].offset <= x < dataLen
  {
  }

  /** The half-open intervals tile the data section: every byte lies in exactly one of them. */
  lemma IntervalsTile(ts: seq<Tensor>, dataStart: nat, fileSize: int, x: int)
    requires ts != [] && Measurement(ts, dataStart, fileSize).Measured?
    ensures var s, dataLen := SortByOffset(ts), fileSize - dataStart;
      && (0 <= x < dataLen <==> exists i :: 0 <= i < |s| && Covers(s, dataLen, i, x))
      && (forall i, j | 0 <= i < |s| && 0 <= j < |s| && Covers(s, dataLen, i, x) && Covers(s, dataLen, j, x) :: i == j)
  {
    hide Measurement;
    hide SortByOffset;
    hide Covers;
    var s, dataLen := SortByOffset(ts), fileSize - dataStart;
    SortIsStable(ts);
    MeasureSucceedsIff(ts, dataStart, fileSize);
    SortedEnds(ts, dataLen);
    forall i, j | 0 <= i < |s| && 0 <= j < |s| && Covers(s, dataLen, i, x) && Covers(s, dataLen, j, x)
      ensures i == j && 0 <= x < dataLen
    {
      CoveredOnce(s, dataLen, i, j, x);
    }
    if 0 <= x < dataLen {
      var i := Locate(s, dataLen, x, |s|);
      assert Covers(s, dataLen, i, x);
    }
  }

  lemma {:induction false} Locate(s: seq<Tensor>, dataLen: int, x: int, n: nat) returns (i: nat)
    requires 0 < n <= |s| && s[0].offset <= x < End(s, n - 1, dataLen)
    ensures i < n && Covers(s, dataLen, i, x)
  {
    if s[n - 1].offset <= x {
      i := n - 1;
    } else {
      i := Locate(s, dataLen, x, n - 1);
    }
  }

  /** With distinct offsets the order of the directory does not matter. */
  lemma OrderIrrelevant(ts: seq<Tensor>, us: seq<Tensor>, dataStart: nat, fileSize: int)
    requires multiset(ts) == multiset(us) && DistinctOffsets(ts)
    ensures Measurement(ts, dataStart, fileSize) == Measurement(us, dataStart, fileSize)
  {
    hide Account;
    SortIsStable(ts);
    SortIsStable(us);
    SortKeepsDistinct(ts);
    SortedIsUnique(SortByOffset(ts), SortByOffset(us));
  }

  lemma SortKeepsDistinct(ts: seq<Tensor>)
    requires DistinctOffsets(ts)
    ensures DistinctOffsets(SortByOffset(ts))
  {
    var s := SortByOffset(ts);
    SortIsStable(ts);
    forall i, j | 0 <= i < j < |s| ensures s[i].offset != s[j].offset {
      if s[i].offset == s[j].offset {
        TwoAt(s, i, j);
        OneAt(ts, s[i].offset);
      }
    }
  }

  lemma {:induction false} TwoAt(s: seq<Tensor>, i: nat, j: nat)
    requires i < j < |s| && s[i].offset == s[j].offset
    ensures |At(s, s[i].offset)| >= 2
  {
    if i > 0 {
      TwoAt(s[1..], i - 1, j - 1);
    } else {
      SomeAt(s[1..], j - 1);
    }
  }

  lemma {:induction false} SomeAt(s: seq<Tensor>, i: nat)
    requires i < |s|
    ensures |At(s, s[i].offset)| >= 1
  {
    if i > 0 {
      SomeAt(s[1..], i - 1);
    }
  }

  lemma {:induction false} OneAt(s: seq<Tensor>, offset: nat)
    requires DistinctOffsets(s)
    ensures |At(s, offset)| <= 1
  {
    if s != [] {
      OneAt(s[1..], offset);
      if s[0].offset == offset && At(s[1..], offset) != [] {
        var x := At(s[1..], offset)[0];
        AtOnlyThere(s[1..], offset);
      }
    }
  }

  lemma {:induction false} AtOnlyThere(s: seq<Tensor>, offset: nat)
    ensures At(s, offset) != [] ==> exists k | 0 <= k < |s| :: s[k].offset == offset
  {
    if s != [] && s[0].offset != offset {
      AtOnlyThere(s[1..], offset);
    }
  }
}
