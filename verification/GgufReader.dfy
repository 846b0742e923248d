/** The cursor of scripts/measure_gguf.py and the two loops that fetch a header with it. */
module GgufReader {

  import opened Bytes
  import opened GgufSpec

  /**
   * Reader. `takes` counts the calls of take; a step that succeeds makes no more of them than the
   * bytes it consumes, and a step that fails makes at most one more.
   */
  class Reader {
    const b: seq<Byte>
    var i: nat
    ghost var takes: nat

    ghost predicate Valid()
      reads this
    {
      i <= |b|
    }

    constructor (buf: seq<Byte>)
      ensures Valid() && b == buf && i == 0 && takes == 0
    {
      b, i, takes := buf, 0, 0;
    }

    /** The step produced r, and its takes are paid for by the bytes it consumed. */
    twostate predicate Stepped<T>(r: Outcome<T>)
      reads this
    {
      && Valid()
      && old(i) <= i
      && (r.Got? ==> i == r.next)
      && old(takes) <= takes
      && takes - old(takes) <= i - old(i) + (if r.Fail? then 1 else 0)
    }

    method Take(n: nat) returns (r: Outcome<seq<Byte>>)
      requires Valid()
      modifies this
      ensures r == TakeAt(b, old(i), n)
      ensures Valid() && i == (if r.Got? then r.next else old(i)) && takes == old(takes) + 1
    {
      takes := takes + 1;
      if i + n > |b| {
        return Fail(Short);
      }
      var out := b[i..i + n];
      i := i + n;
      return Got(out, i);
    }

    method U32() returns (r: Outcome<nat>)
      requires Valid()
      modifies this
      ensures r == U32At(b, old(i)) && Stepped(r)
      ensures takes == old(takes) + 1 && (r.Got? ==> i == old(i) + 4)
    {
      var raw := Take(4);
      match raw
      case Fail(e) => return Fail(e);
      case Got(s, j) => return Got(FromLittleEndian(s), j);
    }

    method U64() returns (r: Outcome<nat>)
      requires Valid()
      modifies this
      ensures r == U64At(b, old(i)) && Stepped(r)
      ensures takes == old(takes) + 1 && (r.Got? ==> i == old(i) + 8)
    {
      var raw := Take(8);
      match raw
      case Fail(e) => return Fail(e);
      case Got(s, j) => return Got(FromLittleEndian(s), j);
    }

    method Text() returns (r: Outcome<seq<Byte>>)
      requires Valid()
      modifies this
      ensures r == TextAt(b, old(i)) && Stepped(r)
      ensures takes <= old(takes) + 2 && (r.Got? ==> i >= old(i) + 8)
    {
      var n := U64();
      match n
      case Fail(e) => return Fail(e);
      case Got(k, _) => r := Take(k);
    }

    method SkipValue(t: nat) returns (r: Outcome<()>)
      requires Valid()
      modifies this
      ensures r == SkipAt(b, old(i), t) && Stepped(r)
      decreases |b| - i, 0
    {
      if IsFixed(t) {
        var raw := Take(FixedSize(t));
        return if raw.Got? then Got((), i) else Fail(raw.error);
      } else if t == STRING {
        var s := Text();
        return if s.Got? then Got((), i) else Fail(s.error);
      } else if t == ARRAY {
        var et := U32();
        if et.Fail? { return Fail(et.error); }
        var n := U64();
        if n.Fail? { return Fail(n.error); }
        if IsFixed(et.value) {
          var raw := Take(FixedSize(et.value) * n.value);
          return if raw.Got? then Got((), i) else Fail(raw.error);
        }
        r := SkipElements(et.value, n.value);
        return;
      }
      return Fail(UnknownType);
    }

    /** The element loop of skip_value. */
    method SkipElements(t: nat, n: nat) returns (r: Outcome<()>)
      requires Valid()
      modifies this
      ensures r == SkipManyAt(b, old(i), t, n) && Stepped(r)
      decreases |b| - i, 1
    {
      hide SkipAt;
      for k := 0 to n
        invariant Valid() && old(i) <= i
        invariant old(takes) <= takes && takes - old(takes) <= i - old(i)
        invariant SkipManyAt(b, old(i), t, n) == SkipManyAt(b, i, t, n - k)
      {
        var v := SkipValue(t);
        if v.Fail? { return v; }
      }
      return Got((), i);
    }

    method ReadValue(t: nat, cap: int) returns (r: Outcome<Value>)
      requires Valid()
      modifies this
      ensures r == ReadAt(b, old(i), t, cap) && Stepped(r)
      decreases |b| - i, 0
    {
      hide ReadManyAt;
      if IsFixed(t) {
        var raw := Take(FixedSize(t));
        return if raw.Got? then Got(Scalar(t, raw.value), i) else Fail(raw.error);
      } else if t == STRING {
        var s := Text();
        return if s.Got? then Got(Value.Text(s.value), i) else Fail(s.error);
      } else if t == ARRAY {
        var et := U32();
        if et.Fail? { return Fail(et.error); }
        var n := U64();
        if n.Fail? { return Fail(n.error); }
        if IsFixed(et.value) && n.value > cap {
          var raw := Take(FixedSize(et.value) * n.value);
          return if raw.Got? then Got(Summary(n.value, et.value), i) else Fail(raw.error);
        }
        var head := ReadElements(et.value, n.value, cap);
        if head.Fail? { return Fail(head.error); }
        return Got(if n.value <= cap then List(head.value) else Truncated(head.value, n.value), i);
      }
      return Fail(UnknownType);
    }

    /** The element loop of read_value: every element is walked, the first cap are kept. */
    method ReadElements(t: nat, n: nat, cap: int) returns (r: Outcome<seq<Value>>)
      requires Valid()
      modifies this
      ensures r == ReadManyAt(b, old(i), t, n, cap, cap) && Stepped(r)
      decreases |b| - i, 1
    {
      hide ReadAt;
      hide ReadManyAt;
      var head := [];
      PrependNothing(ReadManyAt(b, i, t, n, cap, cap));
      for k := 0 to n
        invariant Valid() && old(i) <= i
        invariant old(takes) <= takes && takes - old(takes) <= i - old(i)
        invariant ReadManyAt(b, old(i), t, n, cap, cap) == Prepend(head, ReadManyAt(b, i, t, n - k, cap, cap - k))
      {
        PrependStep(head, b, i, t, n - k, cap, cap - k);
        var v := ReadValue(t, cap);
        if v.Fail? { return Fail(v.error); }
        if k < cap { head := head + [v.value]; }
      }
      PrependStep(head, b, i, t, 0, cap, cap - n);
      return Got(head, i);
    }
  }

  /** The values kept before a walk, in front of those the walk keeps. */
  function Prepend(head: seq<Value>, r: Outcome<seq<Value>>): Outcome<seq<Value>> {
    match r
    case Fail(e) => Fail(e)
    case Got(rest, j) => Got(head + rest, j)
  }

  lemma PrependNothing(r: Outcome<seq<Value>>)
    ensures Prepend([], r) == r
  {
    if r.Got? {
      assert [] + r.value == r.value;
    }
  }

  lemma PrependStep(head: seq<Value>, b: seq<Byte>, i: nat, t: nat, n: nat, cap: int, room: int)
    requires i <= |b|
    ensures n == 0 ==> Prepend(head, ReadManyAt(b, i, t, n, cap, room)) == Got(head, i)
    ensures n > 0 && ReadAt(b, i, t, cap).Fail? ==>
      Prepend(head, ReadManyAt(b, i, t, n, cap, room)) == Fail(ReadAt(b, i, t, cap).error)
    ensures n > 0 && ReadAt(b, i, t, cap).Got? ==>
      var Got(v, j) := ReadAt(b, i, t, cap);
      Prepend(head, ReadManyAt(b, i, t, n, cap, room))
        == Prepend(if room > 0 then head + [v] else head, ReadManyAt(b, j, t, n - 1, cap, room - 1))
  {
    hide ReadAt;
    if n == 0 {
      assert head + [] == head;
    } else if ReadAt(b, i, t, cap).Got? {
      var Got(v, j) := ReadAt(b, i, t, cap);
      var rest := ReadManyAt(b, j, t, n - 1, cap, room - 1);
      if rest.Got? {
        assert head + ([v] + rest.value) == head + [v] + rest.value;
      }
    }
  }

  /** One turn of the metadata loop of parse_header. */
  method ParseKey(r: Reader, keep: bool, s: Keys) returns (k: Outcome<Keys>)
    requires r.Valid()
    modifies r
    ensures k == KeyAt(r.b, old(r.i), keep, s) && r.Stepped(k)
  {
    hide SkipAt;
    hide ReadAt;
    var key := r.Text();
    if key.Fail? { return Fail(key.error); }
    var t := r.U32();
    if t.Fail? { return Fail(t.error); }
    if key.value == ALIGNMENT_KEY {
      if t.value != 4 { return Fail(AlignmentType); }
      var start := r.i;
      var a := r.U32();
      if a.Fail? { return Fail(a.error); }
      return Got(Keys(a.value, s.kv[key.value := Scalar(4, r.b[start..r.i])]), r.i);
    } else if keep {
      var v := r.ReadValue(t.value, 128);
      if v.Fail? { return Fail(v.error); }
      return Got(s.(kv := s.kv[key.value := v.value]), r.i);
    } else {
      var v := r.SkipValue(t.value);
      if v.Fail? { return Fail(v.error); }
      return Got(s, r.i);
    }
  }

  /** One turn of the tensor loop of parse_header. */
  method ParseTensor(r: Reader) returns (x: Outcome<Tensor>)
    requires r.Valid()
    modifies r
    ensures x == TensorAt(r.b, old(r.i)) && r.Stepped(x)
  {
    hide Numbers;
    var name := r.Text();
    if name.Fail? { return Fail(name.error); }
    var nDims := r.U32();
    if nDims.Fail? { return Fail(nDims.error); }
    var raw := r.Take(8 * nDims.value);
    if raw.Fail? { return Fail(raw.error); }
    var ggmlType := r.U32();
    if ggmlType.Fail? { return Fail(ggmlType.error); }
    var offset := r.U64();
    if offset.Fail? { return Fail(offset.error); }
    return Got(Tensor(name.value, Numbers(raw.value, nDims.value), offset.value), r.i);
  }

  method ParseCounts(r: Reader) returns (c: Outcome<(nat, nat)>)
    requires r.Valid() && r.i == 0 && r.takes == 0
    modifies r
    ensures c == CountsAt(r.b) && r.Stepped(c)
  {
    var magic := r.Take(4);
    if magic.Fail? { return Fail(magic.error); }
    if magic.value != MAGIC { return Fail(BadMagic); }
    var version := r.U32();
    if version.Fail? { return Fail(version.error); }
    var nTensors := r.U64();
    if nTensors.Fail? { return Fail(nTensors.error); }
    var nKv := r.U64();
    if nKv.Fail? { return Fail(nKv.error); }
    return Got((nTensors.value, nKv.value), r.i);
  }

  /**
   * parse_header. It ends on every buffer, whatever counts the buffer claims, after at most one
   * more take than the buffer has bytes.
   */
  method ParseHeader(b: seq<Byte>, keep: bool) returns (h: Outcome<Header>, ghost takes: nat)
    ensures h == Parse(b, keep)
    ensures takes <= |b| + 1
  {
    hide KeyAt;
    hide TensorAt;
    hide CountsAt;
    var r := new Reader(b);
    var c := ParseCounts(r);
    if c.Fail? { return Fail(c.error), r.takes; }
    var (nTensors, nKv) := c.value;
    var s := Keys(32, map[]);
    ghost var i := r.i;
    for n := 0 to nKv
      invariant r.Valid() && r.takes <= r.i
      invariant KeysAt(b, i, nKv, keep, Keys(32, map[])) == KeysAt(b, r.i, nKv - n, keep, s)
    {
      var k := ParseKey(r, keep, s);
      if k.Fail? { return Fail(k.error), r.takes; }
      s := k.value;
    }
    var tensors := [];
    ghost var j := r.i;
    for n := 0 to nTensors
      invariant r.Valid() && r.takes <= r.i
      invariant TensorsAt(b, j, nTensors, []) == TensorsAt(b, r.i, nTensors - n, tensors)
    {
      var x := ParseTensor(r);
      if x.Fail? { return Fail(x.error), r.takes; }
      tensors := tensors + [x.value];
    }
    if s.alignment == 0 { return Fail(ZeroDivision), r.takes; }
    return Got(Header(tensors, AlignUp(r.i, s.alignment), s.kv), r.i), r.takes;
  }
}
