/** The byte accounting of scripts/measure_gguf.py over the tensor directory of one file. */
module GgufMeasure {

  import opened Bytes
  import opened GgufFetch
  import opened GgufSpec
  import opened TensorNames

  // ----- tensors.sort(key=offset) -----

  function Insert(x: Tensor, s: seq<Tensor>): seq<Tensor> {
    if s == [] || x.offset <= s[0].offset then [x] + s else [s[0]] + Insert(x, s[1..])
  }

  function SortByOffset(ts: seq<Tensor>): seq<Tensor> {
    if ts == [] then [] else Insert(ts[0], SortByOffset(ts[1..]))
  }

  predicate Sorted(s: seq<Tensor>) {
    forall i, j | 0 <= i < j < |s| :: s[i].offset <= s[j].offset
  }

  /** The entries at one offset, in order. */
  function At(s: seq<Tensor>, offset: nat): seq<Tensor> {
    if s == [] then [] else (if s[0].offset == offset then [s[0]] else []) + At(s[1..], offset)
  }

  lemma {:induction false} InsertKeepsEntries(x: Tensor, s: seq<Tensor>)
    ensures multiset(Insert(x, s)) == multiset{x} + multiset(s)
  {
    if s != [] && x.offset > s[0].offset {
      InsertKeepsEntries(x, s[1..]);
      assert s == [s[0]] + s[1..];
    }
  }

  lemma {:induction false} InsertKeepsBound(x: Tensor, s: seq<Tensor>, bound: nat)
    requires bound <= x.offset && forall i | 0 <= i < |s| :: bound <= s[i].offset
    ensures forall i | 0 <= i < |Insert(x, s)| :: bound <= Insert(x, s)[i].offset
  {
    if s != [] && x.offset > s[0].offset {
      InsertKeepsBound(x, s[1..], bound);
    }
  }

  lemma {:induction false} InsertSorts(x: Tensor, s: seq<Tensor>)
    requires Sorted(s)
    ensures Sorted(Insert(x, s))
  {
    if s != [] && x.offset > s[0].offset {
      InsertSorts(x, s[1..]);
      InsertKeepsBound(x, s[1..], s[0].offset);
    }
  }

  lemma {:induction false} InsertIsStable(x: Tensor, s: seq<Tensor>, offset: nat)
    requires Sorted(s)
    ensures At(Insert(x, s), offset) == At([x] + s, offset)
  {
    if s != [] && x.offset > s[0].offset {
      InsertIsStable(x, s[1..], offset);
      var t := Insert(x, s[1..]);
      assert ([s[0]] + t)[1..] == t && ([x] + s)[1..] == s && ([x] + s[1..])[1..] == s[1..];
    }
  }

  /** A stable sort: a sorted rearrangement that keeps the order of entries with equal offsets. */
  lemma {:induction false} SortIsStable(ts: seq<Tensor>)
    ensures Sorted(SortByOffset(ts)) && multiset(SortByOffset(ts)) == multiset(ts)
    ensures forall offset: nat :: At(SortByOffset(ts), offset) == At(ts, offset)
  {
    if ts != [] {
      var rest := SortByOffset(ts[1..]);
      SortIsStable(ts[1..]);
      InsertSorts(ts[0], rest);
      InsertKeepsEntries(ts[0], rest);
      assert ts == [ts[0]] + ts[1..];
      forall offset: nat ensures At(SortByOffset(ts), offset) == At(ts, offset) {
        InsertIsStable(ts[0], rest, offset);
        assert ([ts[0]] + rest)[1..] == rest;
      }
    }
  }

  predicate DistinctOffsets(s: seq<Tensor>) {
    forall i, j | 0 <= i < j < |s| :: s[i].offset != s[j].offset
  }

  lemma {:induction false} SortedIsUnique(s: seq<Tensor>, t: seq<Tensor>)
    requires Sorted(s) && Sorted(t) && DistinctOffsets(s) && multiset(s) == multiset(t)
    ensures s == t
    decreases |s|
  {
    assert |s| == |multiset(s)| == |multiset(t)| == |t|;
    if s != [] {
      SameFirst(s, t);
      SameRest(s, t);
      SortedIsUnique(s[1..], t[1..]);
    }
  }

  lemma SameFirst(s: seq<Tensor>, t: seq<Tensor>)
    requires Sorted(s) && Sorted(t) && DistinctOffsets(s) && multiset(s) == multiset(t) && |s| == |t| > 0
    ensures s[0] == t[0]
  {
    assert s[0] in multiset(t) && t[0] in multiset(s);
    var i :| 0 <= i < |s| && s[i] == t[0];
    var j :| 0 <= j < |t| && t[j] == s[0];
    assert s[0].offset <= s[i].offset && t[0].offset <= t[j].offset;
  }

  lemma SameRest(s: seq<Tensor>, t: seq<Tensor>)
    requires multiset(s) == multiset(t) && |s| == |t| > 0 && s[0] == t[0]
    ensures multiset(s[1..]) == multiset(t[1..])
  {
    assert s == [s[0]] + s[1..] && t == [t[0]] + t[1..];
    assert multiset(s[1..]) == multiset(s) - multiset{s[0]};
    assert multiset(t[1..]) == multiset(t) - multiset{t[0]};
  }

  // ----- The intervals between consecutive offsets -----

  function End(s: seq<Tensor>, i: nat, dataLen: int): int
    requires i < |s|
  {
    if i + 1 < |s| then s[i + 1].offset else dataLen
  }

  function Size(s: seq<Tensor>, i: nat, dataLen: int): int
    requires i < |s|
  {
    End(s, i, dataLen) - s[i].offset
  }

  /** The bytes of the first n entries whose name satisfies p. */
  function SumWhere(s: seq<Tensor>, dataLen: int, n: nat, p: Name -> bool): int
    requires n <= |s|
  {
    if n == 0 then 0
    else SumWhere(s, dataLen, n - 1, p) + (if p(s[n - 1].name) then Size(s, n - 1, dataLen) else 0)
  }

  datatype Totals = Totals(layer: int, shared: int, experts: map<nat, int>, maxExpert: int)

  /** One turn of the accounting loop. */
  function Charge(t: Totals, name: Name, size: int): Totals {
    if IsBlock(name) then
      var il := ExpertLayerOf(name);
      if il.Some? then
        var old' := if il.value in t.experts then t.experts[il.value] else 0;
        Totals(t.layer + size, t.shared, t.experts[il.value := old' + size],
               if size > t.maxExpert then size else t.maxExpert)
      else t.(layer := t.layer + size)
    else t.(shared := t.shared + size)
  }

  function Account(s: seq<Tensor>, dataLen: int, n: nat): Totals
    requires n <= |s|
  {
    if n == 0 then Totals(0, 0, map[], 0)
    else Charge(Account(s, dataLen, n - 1), s[n - 1].name, Size(s, n - 1, dataLen))
  }

  datatype Measured = Measured(totals: Totals) | NegativeSize | SelfCheckFailed

  /** What measure reports for a directory, given the data start and the size of the file. */
  function Measurement(ts: seq<Tensor>, dataStart: nat, fileSize: int): Measured {
    var s, dataLen := SortByOffset(ts), fileSize - dataStart;
    SortIsStable(ts);
    if exists i | 0 <= i < |s| :: Size(s, i, dataLen) < 0 then NegativeSize else
    var t := Account(s, dataLen, |s|);
    if s != [] && t.layer + t.shared + dataStart != fileSize then SelfCheckFailed
    else Measured(t)
  }

  method MeasureTensors(ts: seq<Tensor>, dataStart: nat, fileSize: int) returns (r: Measured)
    ensures r == Measurement(ts, dataStart, fileSize)
  {
    hide Charge;
    var tensors := SortByOffset(ts);
    ghost var dataLen := fileSize - dataStart;
    var t := Totals(0, 0, map[], 0);
    for i := 0 to |tensors|
      invariant forall j | 0 <= j < i :: Size(tensors, j, dataLen) >= 0
      invariant t == Account(tensors, dataLen, i)
    {
      var off := tensors[i].offset;
      var end := if i + 1 < |tensors| then tensors[i + 1].offset else fileSize - dataStart;
      var size := end - off;
      if size < 0 {
        assert Size(tensors, i, dataLen) < 0;
        return NegativeSize;
      }
      t := Charge(t, tensors[i].name, size);
    }
    if tensors == [] {
      return Measured(t);
    }
    if t.layer + t.shared + dataStart != fileSize {
      return SelfCheckFailed;
    }
    return Measured(t);
  }

  datatype FileMeasure = Done(r: Measured, dataStart: nat) | HeaderRefused(error: Error) | HeaderTooLarge

  /** measure: fetch the header, then account for its tensors. */
  method MeasureFile(file: seq<Byte>, fileSize: int, first: nat) returns (r: FileMeasure)
    requires first > 0
    ensures match Verdict(file, false, LastProbe(first))
      case Parsed(h) => r == Done(Measurement(h.tensors, h.dataStart, fileSize), h.dataStart)
      case Refused(e) => r == HeaderRefused(e)
      case TooLarge => r == HeaderTooLarge
  {
    hide Verdict;
    var f := FetchHeader(file, false, first);
    match f
    case Parsed(h) =>
      var m := MeasureTensors(h.tensors, h.dataStart, fileSize);
      return Done(m, h.dataStart);
    case Refused(e) => return HeaderRefused(e);
    case TooLarge => return HeaderTooLarge;
  }
}
