/** Exactly when the order of a GGUF directory matters to the byte accounting of scripts/measure_gguf.py. */
module GgufOrder {

  import opened GgufMeasure
  import opened GgufMeasureLaws
  import opened GgufSpec
  import opened Options
  import opened TensorNames

  /** The same counters get the bytes of both. */
  predicate SameCounters(x: Name, y: Name) {
    IsBlock(x) == IsBlock(y) && ExpertLayerOf(x) == ExpertLayerOf(y)
  }

  /** Tensors that share an offset before the end of the data are counted alike. */
  ghost predicate AlikeWhereBytes(ts: seq<Tensor>, dataLen: int) {
    forall x, y | x in ts && y in ts && x.offset == y.offset < dataLen :: SameCounters(x.name, y.name)
  }

  ghost predicate OrderIsIrrelevant(ts: seq<Tensor>, dataStart: nat, fileSize: int) {
    forall us: seq<Tensor> | multiset(us) == multiset(ts) ::
      Measurement(us, dataStart, fileSize) == Measurement(ts, dataStart, fileSize)
  }

  // ----- Sorted arrangements of one directory have the same offsets -----

  lemma {:induction false} SameOffsets(s: seq<Tensor>, t: seq<Tensor>, i: nat)
    requires Sorted(s) && Sorted(t) && multiset(s) == multiset(t) && i < |s|
    ensures |s| == |t| && s[i].offset == t[i].offset
    decreases |s|
  {
    assert |s| == |multiset(s)| == |multiset(t)| == |t|;
    var j := FirstIn(s, t);
    if i > 0 {
      WithoutOne(s, t, j);
      SameOffsets(s[1..], Without(t, j), i - 1);
    }
  }

  /** Where t has the first entry of s; all entries up to there share its offset. */
  lemma FirstIn(s: seq<Tensor>, t: seq<Tensor>) returns (j: nat)
    requires Sorted(s) && Sorted(t) && multiset(s) == multiset(t) && |s| == |t| > 0
    ensures j < |t| && t[j] == s[0] && t[0].offset == s[0].offset
  {
    assert s[0] in multiset(t) && t[0] in multiset(s);
    j :| 0 <= j < |t| && t[j] == s[0];
    var i :| 0 <= i < |s| && s[i] == t[0];
  }

  function Without(t: seq<Tensor>, j: nat): seq<Tensor>
    requires j < |t|
  {
    t[..j] + t[j + 1..]
  }

  lemma OneFewer(t: seq<Tensor>, j: nat)
    requires j < |t|
    ensures multiset(Without(t, j)) + multiset{t[j]} == multiset(t)
  {
    assert t == t[..j] + [t[j]] + t[j + 1..];
  }

  lemma WithoutOne(s: seq<Tensor>, t: seq<Tensor>, j: nat)
    requires Sorted(s) && Sorted(t) && multiset(s) == multiset(t) && |s| == |t| > 0 && j < |t| && t[j] == s[0]
    ensures Sorted(s[1..]) && Sorted(Without(t, j)) && multiset(s[1..]) == multiset(Without(t, j))
    ensures t[0].offset == s[0].offset ==> forall i | 0 < i < |t| :: t[i].offset == Without(t, j)[i - 1].offset
  {
    assert Without(s, 0) == s[1..];
    hide Sorted;
    hide Without;
    OneFewer(t, j);
    OneFewer(s, 0);
    StillSorted(s, 0);
    Cancel(multiset(s[1..]), multiset(Without(t, j)), s[0]);
    StillSorted(t, j);
  }

  lemma Cancel(a: multiset<Tensor>, b: multiset<Tensor>, x: Tensor)
    requires a + multiset{x} == b + multiset{x}
    ensures a == b
  {
    assert a == a + multiset{x} - multiset{x} && b == b + multiset{x} - multiset{x};
  }

  lemma StillSorted(t: seq<Tensor>, j: nat)
    requires Sorted(t) && j < |t|
    ensures Sorted(Without(t, j)) && |Without(t, j)| == |t| - 1
    ensures t[0].offset == t[j].offset ==> forall i | 0 < i < |t| :: t[i].offset == Without(t, j)[i - 1].offset
  {
    var rest := Without(t, j);
    forall i | 0 <= i < |rest| ensures rest[i] == t[if i < j then i else i + 1] {
    }
  }

  // ----- Alike is enough -----

  function Get(m: map<nat, int>, il: nat): int {
    if il in m then m[il] else 0
  }

  /** All but which blocks have an entry of zero. */
  ghost predicate Even(t: Totals, u: Totals) {
    && t.layer == u.layer && t.shared == u.shared && t.maxExpert == u.maxExpert >= 0
    && forall il :: Get(t.experts, il) == Get(u.experts, il)
  }

  lemma ChargeIs(t: Totals, x: Name, size: int)
    ensures var u, expert := Charge(t, x, size), IsBlock(x) && ExpertLayerOf(x).Some?;
      && u.layer == t.layer + (if IsBlock(x) then size else 0)
      && u.shared == t.shared + (if IsBlock(x) then 0 else size)
      && u.maxExpert == (if expert && size > t.maxExpert then size else t.maxExpert)
      && forall il :: Get(u.experts, il) ==
           Get(t.experts, il) + (if expert && ExpertLayerOf(x).value == il then size else 0)
  {
    hide ExpertLayerOf;
    hide IsBlock;
  }

  lemma EvenCharge(t: Totals, u: Totals, x: Name, y: Name, size: int)
    requires Even(t, u) && size >= 0 && (size > 0 ==> SameCounters(x, y))
    ensures Even(Charge(t, x, size), Charge(u, y, size))
  {
    hide ExpertLayerOf;
    hide IsBlock;
    hide Charge;
    hide Get;
    ChargeIs(t, x, size);
    ChargeIs(u, y, size);
  }

  ghost predicate AlikeInOrder(s: seq<Tensor>, t: seq<Tensor>, dataLen: int) {
    && |s| == |t|
    && (forall i | 0 <= i < |s| :: s[i].offset == t[i].offset)
    && forall i | 0 <= i < |s| :: 0 <= Size(s, i, dataLen) && (Size(s, i, dataLen) > 0 ==>
         SameCounters(s[i].name, t[i].name))
  }

  lemma {:induction false} EvenAccounts(s: seq<Tensor>, t: seq<Tensor>, dataLen: int, n: nat)
    requires AlikeInOrder(s, t, dataLen) && n <= |s|
    ensures Even(Account(s, dataLen, n), Account(t, dataLen, n))
  {
    hide Charge;
    hide SameCounters;
    if n > 0 {
      EvenAccounts(s, t, dataLen, n - 1);
      assert Size(s, n - 1, dataLen) == Size(t, n - 1, dataLen);
      EvenCharge(Account(s, dataLen, n - 1), Account(t, dataLen, n - 1), s[n - 1].name, t[n - 1].name,
                 Size(s, n - 1, dataLen));
    }
  }

  lemma EvenAccountsEqual(s: seq<Tensor>, t: seq<Tensor>, dataLen: int)
    requires multiset(s) == multiset(t) && |s| == |t| && Even(Account(s, dataLen, |s|), Account(t, dataLen, |t|))
    ensures Account(s, dataLen, |s|) == Account(t, dataLen, |t|)
  {
    hide Account;
    hide ExpertLayerOf;
    var a, b := Account(s, dataLen, |s|), Account(t, dataLen, |t|);
    forall il: nat ensures il in a.experts <==> il in b.experts {
      AccountExperts(s, dataLen, |s|, il);
      AccountExperts(t, dataLen, |t|, il);
      SomeHas(s, t, il);
      SomeHas(t, s, il);
    }
    forall il | il in a.experts ensures il in b.experts && a.experts[il] == b.experts[il] {
      assert Get(a.experts, il) == Get(b.experts, il);
    }
    assert a.experts.Keys == b.experts.Keys;
    assert a.experts == b.experts;
  }

  lemma SomeHas(s: seq<Tensor>, t: seq<Tensor>, il: nat)
    requires multiset(s) == multiset(t)
    ensures (exists j :: 0 <= j < |s| && ExpertLayerOf(s[j].name) == Some(il)) ==>
            exists j :: 0 <= j < |t| && ExpertLayerOf(t[j].name) == Some(il)
  {
    hide ExpertLayerOf;
    if j :| 0 <= j < |s| && ExpertLayerOf(s[j].name) == Some(il) {
      assert s[j] in multiset(t);
    }
  }

  lemma AlikeIsEnough(ts: seq<Tensor>, us: seq<Tensor>, dataStart: nat, fileSize: int)
    requires multiset(us) == multiset(ts) && AlikeWhereBytes(ts, fileSize - dataStart)
    requires Measurement(ts, dataStart, fileSize).Measured?
    ensures Measurement(us, dataStart, fileSize) == Measurement(ts, dataStart, fileSize)
  {
    hide Account;
    hide SameCounters;
    hide SortByOffset;
    hide AlikeWhereBytes;
    hide AlikeInOrder;
    var s, t, dataLen := SortByOffset(ts), SortByOffset(us), fileSize - dataStart;
    SortIsStable(ts);
    SortIsStable(us);
    SameVerdict(ts, us, dataStart, fileSize);
    assert |s| == |multiset(s)| == |multiset(t)| == |t|;
    SortedAlike(ts, s, t, dataStart, fileSize);
    EvenAccounts(s, t, dataLen, |s|);
    EvenAccountsEqual(s, t, dataLen);
  }

  lemma SortedAlike(ts: seq<Tensor>, s: seq<Tensor>, t: seq<Tensor>, dataStart: nat, fileSize: int)
    requires s == SortByOffset(ts) && Sorted(t) && multiset(s) == multiset(t) == multiset(ts) && |s| == |t|
    requires AlikeWhereBytes(ts, fileSize - dataStart) && Measurement(ts, dataStart, fileSize).Measured?
    ensures AlikeInOrder(s, t, fileSize - dataStart)
  {
    hide Account;
    hide SameCounters;
    hide SortByOffset;
    SortIsStable(ts);
    forall i | 0 <= i < |s|
      ensures s[i].offset == t[i].offset
      ensures Size(s, i, fileSize - dataStart) > 0 ==> SameCounters(s[i].name, t[i].name)
    {
      SameOffsets(s, t, i);
      if Size(s, i, fileSize - dataStart) > 0 {
        BytesBeforeEnd(ts, dataStart, fileSize, i);
        assert s[i] in multiset(ts) && t[i] in multiset(ts);
      }
    }
  }

  lemma BytesBeforeEnd(ts: seq<Tensor>, dataStart: nat, fileSize: int, i: nat)
    requires Measurement(ts, dataStart, fileSize).Measured? && i < |SortByOffset(ts)|
    requires Size(SortByOffset(ts), i, fileSize - dataStart) > 0
    ensures SortByOffset(ts)[i].offset < fileSize - dataStart
  {
    hide Account;
    hide SortByOffset;
    SortIsStable(ts);
    MeasureSucceedsIff(ts, dataStart, fileSize);
    if ts != [] {
      SortedEnds(ts, fileSize - dataStart);
    }
  }

  /** Whether measuring succeeds does not depend on the order. */
  lemma SameVerdict(ts: seq<Tensor>, us: seq<Tensor>, dataStart: nat, fileSize: int)
    requires multiset(us) == multiset(ts)
    ensures Measurement(us, dataStart, fileSize).Measured? <==> Measurement(ts, dataStart, fileSize).Measured?
    ensures !Measurement(ts, dataStart, fileSize).Measured? ==>
      Measurement(us, dataStart, fileSize) == Measurement(ts, dataStart, fileSize)
  {
    hide Measurement;
    MeasureSucceedsIff(ts, dataStart, fileSize);
    MeasureSucceedsIff(us, dataStart, fileSize);
    assert forall x :: x in ts <==> x in multiset(ts);
    assert forall x :: x in us <==> x in multiset(us);
    assert |ts| == |multiset(ts)| == |multiset(us)| == |us|;
  }

  // ----- And it is needed -----

  /** s and t are one arrangement but for y before x at p in s, and x before y in t; nothing after shares the offset. */
  ghost predicate Swapped(s: seq<Tensor>, t: seq<Tensor>, p: nat, x: Tensor, y: Tensor) {
    && |s| == |t| && p + 1 < |s| && x.offset == y.offset
    && s[p] == y && s[p + 1] == x && t[p] == x && t[p + 1] == y
    && s[..p] == t[..p] && s[p + 2..] == t[p + 2..]
    && (p + 2 < |s| ==> s[p + 2].offset > x.offset)
  }

  lemma {:induction false} InsertSwapped(z: Tensor, s: seq<Tensor>, t: seq<Tensor>, p: nat, x: Tensor, y: Tensor)
    returns (q: nat)
    requires Swapped(s, t, p, x, y)
    ensures Swapped(Insert(z, s), Insert(z, t), q, x, y)
    decreases p
  {
    FirstOffset(s, t, p, x, y);
    if z.offset <= s[0].offset {
      Prepended(z, s, t, p, x, y);
      q := p + 1;
    } else if p > 0 {
      TailSwapped(s, t, p, x, y);
      q := InsertSwapped(z, s[1..], t[1..], p - 1, x, y);
      Prepended(s[0], Insert(z, s[1..]), Insert(z, t[1..]), q, x, y);
      q := q + 1;
    } else {
      InsertBehind(z, s, y, x);
      InsertBehind(z, t, x, y);
      q := 0;
    }
  }

  lemma FirstOffset(s: seq<Tensor>, t: seq<Tensor>, p: nat, x: Tensor, y: Tensor)
    requires Swapped(s, t, p, x, y)
    ensures s[0].offset == t[0].offset
  {
    if p > 0 {
      TailSwapped(s, t, p, x, y);
    }
  }

  /** A later offset goes behind both. */
  lemma InsertBehind(z: Tensor, s: seq<Tensor>, a: Tensor, b: Tensor)
    requires |s| >= 2 && s[0] == a && s[1] == b && a.offset == b.offset < z.offset
    requires |s| > 2 ==> s[2].offset > a.offset
    ensures var t := Insert(z, s);
      |t| == |s| + 1 && t[0] == a && t[1] == b && t[2..] == Insert(z, s[2..]) && t[2].offset > a.offset
  {
    var rest := s[2..];
    assert s[1..][0] == b && s[1..][1..] == rest;
    assert Insert(z, s) == [a] + ([b] + Insert(z, rest));
    InsertKeepsEntries(z, rest);
    assert |Insert(z, rest)| == |multiset(Insert(z, rest))| == |rest| + 1;
    assert Insert(z, s)[2..] == Insert(z, rest);
    assert Insert(z, rest)[0] == z || (rest != [] && Insert(z, rest)[0] == rest[0]);
    assert Insert(z, s)[2] == Insert(z, rest)[0];
  }

  lemma TailSwapped(s: seq<Tensor>, t: seq<Tensor>, p: nat, x: Tensor, y: Tensor)
    requires Swapped(s, t, p, x, y) && p > 0
    ensures s[0] == t[0] && Swapped(s[1..], t[1..], p - 1, x, y)
  {
    assert s[0] == s[..p][0] == t[..p][0] == t[0];
    assert s[1..][..p - 1] == s[..p][1..] && t[1..][..p - 1] == t[..p][1..];
    assert s[1..][p + 1..] == s[p + 2..] && t[1..][p + 1..] == t[p + 2..];
  }

  lemma Prepended(z: Tensor, s: seq<Tensor>, t: seq<Tensor>, p: nat, x: Tensor, y: Tensor)
    requires Swapped(s, t, p, x, y)
    ensures Swapped([z] + s, [z] + t, p + 1, x, y)
  {
    assert ([z] + s)[..p + 1] == [z] + s[..p] && ([z] + t)[..p + 1] == [z] + t[..p];
    assert ([z] + s)[p + 3..] == s[p + 2..] && ([z] + t)[p + 3..] == t[p + 2..];
  }

  /** Put last in the directory, in one order or the other, two entries come out in that order. */
  lemma {:induction false} SortSwapped(rest: seq<Tensor>, x: Tensor, y: Tensor) returns (p: nat)
    requires x.offset == y.offset
    ensures Swapped(SortByOffset(rest + [y, x]), SortByOffset(rest + [x, y]), p, x, y)
    decreases |rest|
  {
    if rest == [] {
      assert rest + [y, x] == [y, x] && rest + [x, y] == [x, y];
      assert [y, x][1..] == [x] && [x, y][1..] == [y] && [x][1..] == [] && [y][1..] == [];
      assert SortByOffset([x]) == [x] && SortByOffset([y]) == [y];
      assert SortByOffset([y, x]) == [y, x] && SortByOffset([x, y]) == [x, y];
      p := 0;
    } else {
      assert (rest + [y, x])[1..] == rest[1..] + [y, x] && (rest + [x, y])[1..] == rest[1..] + [x, y];
      p := SortSwapped(rest[1..], x, y);
      p := InsertSwapped(rest[0], SortByOffset(rest[1..] + [y, x]), SortByOffset(rest[1..] + [x, y]), p, x, y);
    }
  }

  /** A counter that one of them goes to and the other does not shows the difference, up to the end. */
  lemma {:induction false} SumsDiffer(
      s: seq<Tensor>, t: seq<Tensor>, p: nat, x: Tensor, y: Tensor, dataLen: int, n: nat, q: Name -> bool)
    requires Swapped(s, t, p, x, y) && n <= |s|
    ensures SumWhere(s, dataLen, n, q) - SumWhere(t, dataLen, n, q) ==
      if n < p + 2 then 0
      else (if q(x.name) then Size(s, p + 1, dataLen) else 0) - (if q(y.name) then Size(s, p + 1, dataLen) else 0)
  {
    if n > 0 {
      SumsDiffer(s, t, p, x, y, dataLen, n - 1, q);
      if n - 1 < p {
        assert s[n - 1] == s[..p][n - 1] == t[..p][n - 1] == t[n - 1];
      } else if n - 1 >= p + 2 {
        assert s[n - 1] == s[p + 2..][n - 3 - p] == t[p + 2..][n - 3 - p] == t[n - 1];
      }
      SizesAgree(s, t, p, x, y, dataLen, n - 1);
    }
  }

  lemma SizesAgree(s: seq<Tensor>, t: seq<Tensor>, p: nat, x: Tensor, y: Tensor, dataLen: int, i: nat)
    requires Swapped(s, t, p, x, y) && i < |s|
    ensures Size(s, i, dataLen) == Size(t, i, dataLen) && Size(s, p, dataLen) == 0
  {
    forall j | 0 <= j < |s| ensures s[j].offset == t[j].offset {
      if j < p {
        assert s[j] == s[..p][j] == t[..p][j] == t[j];
      } else if j >= p + 2 {
        assert s[j] == s[p + 2..][j - p - 2] == t[p + 2..][j - p - 2] == t[j];
      }
    }
  }

  lemma SwappedAccountsDiffer(s: seq<Tensor>, t: seq<Tensor>, p: nat, x: Tensor, y: Tensor, dataLen: int)
    requires Swapped(s, t, p, x, y) && Size(s, p + 1, dataLen) > 0 && !SameCounters(x.name, y.name)
    ensures Account(s, dataLen, |s|) != Account(t, dataLen, |t|)
  {
    hide ExpertLayerOf;
    hide Account;
    hide Swapped;
    hide SumWhere;
    assert |s| == |t| by { SwappedSize(s, t, p, x, y); }
    AccountSplits(s, dataLen, |s|);
    AccountSplits(t, dataLen, |t|);
    SumsDiffer(s, t, p, x, y, dataLen, |s|, IsBlock);
    SwappedSize(s, t, p, x, y);
    if IsBlock(x.name) == IsBlock(y.name) {
      var il := if ExpertLayerOf(x.name).Some? then ExpertLayerOf(x.name).value else ExpertLayerOf(y.name).value;
      AccountExperts(s, dataLen, |s|, il);
      AccountExperts(t, dataLen, |t|, il);
      SumsDiffer(s, t, p, x, y, dataLen, |s|, name => ExpertLayerOf(name) == Some(il));
    }
  }

  lemma SwappedSize(s: seq<Tensor>, t: seq<Tensor>, p: nat, x: Tensor, y: Tensor)
    requires Swapped(s, t, p, x, y)
    ensures |s| == |t| && p + 2 <= |s|
  {
  }

  lemma TakeOut(ts: seq<Tensor>, x: Tensor, y: Tensor) returns (rest: seq<Tensor>)
    requires x in ts && y in ts && x != y
    ensures multiset(rest + [x, y]) == multiset(ts) == multiset(rest + [y, x])
  {
    var i :| 0 <= i < |ts| && ts[i] == x;
    var less := Without(ts, i);
    OneFewer(ts, i);
    assert y in multiset(less);
    var j :| 0 <= j < |less| && less[j] == y;
    rest := Without(less, j);
    OneFewer(less, j);
    BothOrders(rest, x, y);
  }

  lemma BothOrders(rest: seq<Tensor>, x: Tensor, y: Tensor)
    ensures multiset(rest + [x, y]) == multiset(rest) + multiset{y} + multiset{x} == multiset(rest + [y, x])
  {
    assert multiset([x, y]) == multiset{y} + multiset{x} == multiset([y, x]);
  }

  /** The last entry of a group that lies before the end of the data has bytes. */
  lemma LastHasBytes(s: seq<Tensor>, t: seq<Tensor>, p: nat, x: Tensor, y: Tensor, dataLen: int)
    requires Swapped(s, t, p, x, y) && x.offset < dataLen
    ensures Size(s, p + 1, dataLen) > 0
  {
  }

  lemma AlikeItself(x: Name)
    ensures SameCounters(x, x)
  {
  }

  lemma UnlikeMatters(ts: seq<Tensor>, x: Tensor, y: Tensor, dataStart: nat, fileSize: int)
    requires Measurement(ts, dataStart, fileSize).Measured? && x in ts && y in ts
    requires x.offset == y.offset < fileSize - dataStart && !SameCounters(x.name, y.name)
    ensures !OrderIsIrrelevant(ts, dataStart, fileSize)
  {
    hide SameCounters;
    hide Account;
    hide Swapped;
    hide SortByOffset;
    AlikeItself(x.name);
    var rest := TakeOut(ts, x, y);
    var p := SortSwapped(rest, x, y);
    var s, t := SortByOffset(rest + [y, x]), SortByOffset(rest + [x, y]);
    SwappedSize(s, t, p, x, y);
    LastHasBytes(s, t, p, x, y, fileSize - dataStart);
    SwappedAccountsDiffer(s, t, p, x, y, fileSize - dataStart);
    SameVerdict(ts, rest + [x, y], dataStart, fileSize);
    SameVerdict(ts, rest + [y, x], dataStart, fileSize);
  }

  /**
   * For any directory: every order of it measures alike exactly when measuring fails, or all tensors that share an
   * offset with bytes after it are counted alike. The last of them in the directory gets the bytes.
   */
  lemma OrderIrrelevantIff(ts: seq<Tensor>, dataStart: nat, fileSize: int)
    ensures OrderIsIrrelevant(ts, dataStart, fileSize) <==>
      || !Measurement(ts, dataStart, fileSize).Measured?
      || AlikeWhereBytes(ts, fileSize - dataStart)
  {
    hide Measurement;
    hide SameCounters;
    if !Measurement(ts, dataStart, fileSize).Measured? {
      forall us: seq<Tensor> | multiset(us) == multiset(ts)
        ensures Measurement(us, dataStart, fileSize) == Measurement(ts, dataStart, fileSize)
      {
        SameVerdict(ts, us, dataStart, fileSize);
      }
    } else if AlikeWhereBytes(ts, fileSize - dataStart) {
      forall us: seq<Tensor> | multiset(us) == multiset(ts)
        ensures Measurement(us, dataStart, fileSize) == Measurement(ts, dataStart, fileSize)
      {
        AlikeIsEnough(ts, us, dataStart, fileSize);
      }
    } else {
      var x, y :| x in ts && y in ts && x.offset == y.offset < fileSize - dataStart && !SameCounters(x.name, y.name);
      UnlikeMatters(ts, x, y, dataStart, fileSize);
    }
  }
}
