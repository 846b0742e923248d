/**
 * The file format the header reader is for, written down the other way round: what a well-formed header is, as bytes.
 * The reader gives back exactly what was written, in either mode.
 */
module GgufFormat {

  import opened Bytes
  import opened GgufLaws
  import opened GgufSpec

  /** A metadata value. */
  datatype Item = Plain(t: nat, raw: seq<Byte>) | Str(bytes: seq<Byte>) | Arr(et: nat, items: seq<Item>)

  datatype Entry = Entry(key: seq<Byte>, item: Item)

  datatype Directory = Directory(name: seq<Byte>, dims: seq<nat>, kind: nat, offset: nat)

  datatype Document = Document(version: nat, entries: seq<Entry>, tensors: seq<Directory>)

  // ----- Well-formed documents -----

  function TypeOf(v: Item): nat {
    match v
    case Plain(t, _) => t
    case Str(_) => STRING
    case Arr(_, _) => ARRAY
  }

  predicate Sound(v: Item)
    decreases v
  {
    match v
    case Plain(t, raw) => IsFixed(t) && |raw| == FixedSize(t)
    case Str(bytes) => |bytes| < TWO_64
    case Arr(et, items) =>
      et < TWO_32 && |items| < TWO_64 && forall i | 0 <= i < |items| :: Sound(items[i]) && TypeOf(items[i]) == et
  }

  /** An alignment is a UINT32, as the format has it. */
  predicate SoundEntry(e: Entry) {
    |e.key| < TWO_64 && Sound(e.item) && (e.key == ALIGNMENT_KEY ==> TypeOf(e.item) == 4)
  }

  predicate SoundTensor(x: Directory) {
    && |x.name| < TWO_64 && |x.dims| < TWO_32 && x.kind < TWO_32 && x.offset < TWO_64
    && forall i | 0 <= i < |x.dims| :: x.dims[i] < TWO_64
  }

  predicate SoundDocument(d: Document) {
    && d.version < TWO_32 && |d.entries| < TWO_64 && |d.tensors| < TWO_64
    && (forall i | 0 <= i < |d.entries| :: SoundEntry(d.entries[i]))
    && (forall i | 0 <= i < |d.tensors| :: SoundTensor(d.tensors[i]))
  }

  // ----- As bytes -----

  function LittleEndian(v: nat, w: nat): (s: seq<Byte>)
    ensures |s| == w
  {
    if w == 0 then [] else [(v % 256) as Byte] + LittleEndian(v / 256, w - 1)
  }

  function TextBytes(s: seq<Byte>): seq<Byte> {
    LittleEndian(|s|, 8) + s
  }

  function ItemBytes(v: Item): seq<Byte>
    decreases v, 0
  {
    match v
    case Plain(_, raw) => raw
    case Str(bytes) => TextBytes(bytes)
    case Arr(et, items) => LittleEndian(et, 4) + (LittleEndian(|items|, 8) + ItemsBytes(items))
  }

  function ItemsBytes(items: seq<Item>): seq<Byte>
    decreases items, 1
  {
    if items == [] then [] else ItemBytes(items[0]) + ItemsBytes(items[1..])
  }

  function EntryBytes(e: Entry): seq<Byte> {
    TextBytes(e.key) + (LittleEndian(TypeOf(e.item), 4) + ItemBytes(e.item))
  }

  function EntriesBytes(es: seq<Entry>): seq<Byte> {
    if es == [] then [] else EntryBytes(es[0]) + EntriesBytes(es[1..])
  }

  function DimsBytes(dims: seq<nat>): (s: seq<Byte>)
    ensures |s| == 8 * |dims|
  {
    if dims == [] then [] else LittleEndian(dims[0], 8) + DimsBytes(dims[1..])
  }

  function TensorBytes(x: Directory): seq<Byte> {
    TextBytes(x.name)
    + (LittleEndian(|x.dims|, 4) + (DimsBytes(x.dims) + (LittleEndian(x.kind, 4) + LittleEndian(x.offset, 8))))
  }

  function TensorsBytes(xs: seq<Directory>): seq<Byte> {
    if xs == [] then [] else TensorBytes(xs[0]) + TensorsBytes(xs[1..])
  }

  function CountsBytes(d: Document): seq<Byte> {
    MAGIC + (LittleEndian(d.version, 4) + (LittleEndian(|d.tensors|, 8) + LittleEndian(|d.entries|, 8)))
  }

  function HeaderBytes(d: Document): seq<Byte> {
    CountsBytes(d) + (EntriesBytes(d.entries) + TensorsBytes(d.tensors))
  }

  // ----- What the reader is to give back -----

  function ValueOf(v: Item, cap: int): Value
    decreases v, 0
  {
    match v
    case Plain(t, raw) => Scalar(t, raw)
    case Str(bytes) => Text(bytes)
    case Arr(et, items) =>
      if IsFixed(et) && |items| > cap then Summary(|items|, et)
      else if |items| <= cap then List(ValuesOf(items, cap, cap))
      else Truncated(ValuesOf(items, cap, cap), |items|)
  }

  function ValuesOf(items: seq<Item>, cap: int, room: int): seq<Value>
    decreases items, 1
  {
    if items == [] then [] else
    (if room > 0 then [ValueOf(items[0], cap)] else []) + ValuesOf(items[1..], cap, room - 1)
  }

  function KeyOf(e: Entry, keep: bool, s: Keys): Keys
    requires SoundEntry(e)
  {
    if e.key == ALIGNMENT_KEY then
      Keys(FromLittleEndian(ItemBytes(e.item)), s.kv[e.key := Scalar(4, ItemBytes(e.item))])
    else if keep then s.(kv := s.kv[e.key := ValueOf(e.item, 128)])
    else s
  }

  function KeysOf(es: seq<Entry>, keep: bool, s: Keys): Keys
    requires forall i | 0 <= i < |es| :: SoundEntry(es[i])
  {
    if es == [] then s else KeysOf(es[1..], keep, KeyOf(es[0], keep, s))
  }

  function TensorOf(x: Directory): Tensor {
    Tensor(x.name, x.dims, x.offset)
  }

  function TensorsOf(xs: seq<Directory>): seq<Tensor> {
    seq(|xs|, k requires 0 <= k < |xs| => TensorOf(xs[k]))
  }

  // ----- Bytes that stand at a cursor -----

  ghost predicate Has(b: seq<Byte>, i: nat, x: seq<Byte>) {
    i + |x| <= |b| && b[i..i + |x|] == x
  }

  lemma HasBoth(b: seq<Byte>, i: nat, x: seq<Byte>, y: seq<Byte>)
    requires Has(b, i, x + y)
    ensures Has(b, i, x) && Has(b, i + |x|, y)
  {
    var w := b[i..i + |x + y|];
    assert b[i..i + |x|] == w[..|x|] && b[i + |x|..i + |x| + |y|] == w[|x|..];
  }

  lemma {:induction false} LittleEndianRoundTrip(v: nat, w: nat)
    requires v < Power256(w)
    ensures FromLittleEndian(LittleEndian(v, w)) == v
  {
    if w > 0 {
      Octet.ByteValue(v % 256);
      LittleEndianRoundTrip(v / 256, w - 1);
    }
  }

  lemma Powers()
    ensures Power256(4) == TWO_32 && Power256(8) == TWO_64
  {
  }

  lemma ReadsU32(b: seq<Byte>, i: nat, v: nat)
    requires v < TWO_32 && Has(b, i, LittleEndian(v, 4))
    ensures U32At(b, i) == Got(v, i + 4)
  {
    hide LittleEndian;
    hide FromLittleEndian;
    Powers();
    LittleEndianRoundTrip(v, 4);
  }

  lemma ReadsU64(b: seq<Byte>, i: nat, v: nat)
    requires v < TWO_64 && Has(b, i, LittleEndian(v, 8))
    ensures U64At(b, i) == Got(v, i + 8)
  {
    hide LittleEndian;
    hide FromLittleEndian;
    Powers();
    LittleEndianRoundTrip(v, 8);
  }

  lemma ReadsText(b: seq<Byte>, i: nat, s: seq<Byte>)
    requires |s| < TWO_64 && Has(b, i, TextBytes(s))
    ensures TextAt(b, i) == Got(s, i + |TextBytes(s)|)
  {
    hide LittleEndian;
    hide U64At;
    HasBoth(b, i, LittleEndian(|s|, 8), s);
    ReadsU64(b, i, |s|);
  }

  // ----- Values -----

  lemma {:induction false} ReadsItem(b: seq<Byte>, i: nat, v: Item, cap: int)
    requires Sound(v) && Has(b, i, ItemBytes(v))
    ensures ReadAt(b, i, TypeOf(v), cap) == Got(ValueOf(v, cap), i + |ItemBytes(v)|)
    decreases v, 0
  {
    hide LittleEndian;
    hide U32At;
    hide U64At;
    hide TextAt;
    hide TextBytes;
    match v
    case Plain(t, raw) =>
    case Str(bytes) => ReadsText(b, i, bytes);
    case Arr(et, items) =>
      HasBoth(b, i, LittleEndian(et, 4), LittleEndian(|items|, 8) + ItemsBytes(items));
      HasBoth(b, i + 4, LittleEndian(|items|, 8), ItemsBytes(items));
      ReadsU32(b, i, et);
      ReadsU64(b, i + 4, |items|);
      if IsFixed(et) && |items| > cap {
        FixedItems(items, et);
      } else {
        ReadsItems(b, i + 12, items, et, cap, cap);
      }
  }

  lemma {:induction false} ReadsItems(b: seq<Byte>, i: nat, items: seq<Item>, et: nat, cap: int, room: int)
    requires forall k | 0 <= k < |items| :: Sound(items[k]) && TypeOf(items[k]) == et
    requires Has(b, i, ItemsBytes(items))
    ensures ReadManyAt(b, i, et, |items|, cap, room) == Got(ValuesOf(items, cap, room), i + |ItemsBytes(items)|)
    decreases items, 1
  {
    hide ReadAt;
    hide ItemBytes;
    hide ValueOf;
    if items != [] {
      HasBoth(b, i, ItemBytes(items[0]), ItemsBytes(items[1..]));
      ReadsItem(b, i, items[0], cap);
      ReadsItems(b, i + |ItemBytes(items[0])|, items[1..], et, cap, room - 1);
      var rest := ValuesOf(items[1..], cap, room - 1);
      assert [] + rest == rest;
    }
  }

  lemma {:induction false} FixedItems(items: seq<Item>, et: nat)
    requires IsFixed(et) && forall k | 0 <= k < |items| :: Sound(items[k]) && TypeOf(items[k]) == et
    ensures |ItemsBytes(items)| == FixedSize(et) * |items|
  {
    if items != [] {
      FixedItems(items[1..], et);
      assert items[0].Plain?;
    }
  }

  // ----- The header -----

  lemma ReadsEntry(b: seq<Byte>, i: nat, e: Entry, keep: bool, s: Keys)
    requires SoundEntry(e) && Has(b, i, EntryBytes(e))
    ensures KeyAt(b, i, keep, s) == Got(KeyOf(e, keep, s), i + |EntryBytes(e)|)
  {
    hide LittleEndian;
    hide U32At;
    hide TextAt;
    hide TextBytes;
    hide ReadAt;
    hide SkipAt;
    hide ItemBytes;
    hide ValueOf;
    hide ALIGNMENT_KEY;
    var t := TypeOf(e.item);
    var j := i + |TextBytes(e.key)|;
    var k := j + 4;
    HasBoth(b, i, TextBytes(e.key), LittleEndian(t, 4) + ItemBytes(e.item));
    HasBoth(b, j, LittleEndian(t, 4), ItemBytes(e.item));
    ReadsText(b, i, e.key);
    TypeIsSmall(e.item);
    ReadsU32(b, j, t);
    ReadsItem(b, k, e.item, 128);
    SkipAgreesWithRead(b, k, t, 128);
    if e.key == ALIGNMENT_KEY {
      ReadsAlignment(b, k, e.item);
    }
  }

  lemma TypeIsSmall(v: Item)
    requires Sound(v)
    ensures TypeOf(v) < TWO_32
  {
  }

  lemma ReadsAlignment(b: seq<Byte>, k: nat, v: Item)
    requires Sound(v) && TypeOf(v) == 4 && Has(b, k, ItemBytes(v))
    ensures U32At(b, k) == Got(FromLittleEndian(ItemBytes(v)), k + 4) && |ItemBytes(v)| == 4
    ensures k + 4 <= |b| && b[k..k + 4] == ItemBytes(v)
  {
  }

  lemma {:induction false} ReadsEntries(b: seq<Byte>, i: nat, es: seq<Entry>, keep: bool, s: Keys)
    requires (forall k | 0 <= k < |es| :: SoundEntry(es[k])) && Has(b, i, EntriesBytes(es))
    ensures KeysAt(b, i, |es|, keep, s) == Got(KeysOf(es, keep, s), i + |EntriesBytes(es)|)
    decreases es
  {
    hide KeyAt;
    hide KeyOf;
    hide EntryBytes;
    hide SoundEntry;
    if es != [] {
      HasBoth(b, i, EntryBytes(es[0]), EntriesBytes(es[1..]));
      ReadsEntry(b, i, es[0], keep, s);
      ReadsEntries(b, i + |EntryBytes(es[0])|, es[1..], keep, KeyOf(es[0], keep, s));
    }
  }

  lemma {:induction false} NumbersOf(dims: seq<nat>)
    requires forall k | 0 <= k < |dims| :: dims[k] < TWO_64
    ensures Numbers(DimsBytes(dims), |dims|) == dims
  {
    hide LittleEndian;
    hide FromLittleEndian;
    if dims != [] {
      Powers();
      LittleEndianRoundTrip(dims[0], 8);
      var raw, rest := DimsBytes(dims), DimsBytes(dims[1..]);
      assert raw[..8] == LittleEndian(dims[0], 8) && raw[8..] == rest;
      NumbersOf(dims[1..]);
    }
  }

  lemma ReadsTensor(b: seq<Byte>, i: nat, x: Directory)
    requires SoundTensor(x) && Has(b, i, TensorBytes(x))
    ensures TensorAt(b, i) == Got(TensorOf(x), i + |TensorBytes(x)|)
  {
    hide LittleEndian;
    hide U32At;
    hide U64At;
    hide TextAt;
    hide TextBytes;
    hide Numbers;
    hide DimsBytes;
    var j := i + |TextBytes(x.name)|;
    var l := j + 4 + 8 * |x.dims|;
    var t2 := LittleEndian(x.kind, 4) + LittleEndian(x.offset, 8);
    var t1 := DimsBytes(x.dims) + t2;
    HasBoth(b, i, TextBytes(x.name), LittleEndian(|x.dims|, 4) + t1);
    HasBoth(b, j, LittleEndian(|x.dims|, 4), t1);
    HasBoth(b, j + 4, DimsBytes(x.dims), t2);
    HasBoth(b, l, LittleEndian(x.kind, 4), LittleEndian(x.offset, 8));
    ReadsText(b, i, x.name);
    ReadsU32(b, j, |x.dims|);
    ReadsU32(b, l, x.kind);
    ReadsU64(b, l + 4, x.offset);
    NumbersOf(x.dims);
  }

  lemma {:induction false} ReadsTensors(b: seq<Byte>, i: nat, xs: seq<Directory>, acc: seq<Tensor>)
    requires (forall k | 0 <= k < |xs| :: SoundTensor(xs[k])) && Has(b, i, TensorsBytes(xs))
    ensures TensorsAt(b, i, |xs|, acc) == Got(acc + TensorsOf(xs), i + |TensorsBytes(xs)|)
    decreases xs
  {
    hide TensorAt;
    hide TensorBytes;
    hide SoundTensor;
    hide TensorOf;
    if xs == [] {
      assert acc + TensorsOf(xs) == acc;
    } else {
      HasBoth(b, i, TensorBytes(xs[0]), TensorsBytes(xs[1..]));
      ReadsTensor(b, i, xs[0]);
      ReadsTensors(b, i + |TensorBytes(xs[0])|, xs[1..], acc + [TensorOf(xs[0])]);
      assert acc + [TensorOf(xs[0])] + TensorsOf(xs[1..]) == acc + TensorsOf(xs);
    }
  }

  lemma ReadsCounts(b: seq<Byte>, d: Document)
    requires SoundDocument(d) && Has(b, 0, CountsBytes(d))
    ensures CountsAt(b) == Got((|d.tensors|, |d.entries|), |CountsBytes(d)|) && |CountsBytes(d)| == 24
  {
    hide LittleEndian;
    hide U32At;
    hide U64At;
    var t2 := LittleEndian(|d.tensors|, 8) + LittleEndian(|d.entries|, 8);
    var t1 := LittleEndian(d.version, 4) + t2;
    HasBoth(b, 0, MAGIC, t1);
    HasBoth(b, 4, LittleEndian(d.version, 4), t2);
    HasBoth(b, 8, LittleEndian(|d.tensors|, 8), LittleEndian(|d.entries|, 8));
    ReadsU32(b, 4, d.version);
    ReadsU64(b, 8, |d.tensors|);
    ReadsU64(b, 16, |d.entries|);
  }

  /**
   * Round trip: from any file that begins with a written header the parser gives back its tensors in order with their
   * names, shapes and offsets, and the metadata it was asked for. The data start is the least multiple of the alignment
   * at or after the end of the header; only an alignment of 0 is refused.
   */
  lemma WrittenReadsBack(d: Document, b: seq<Byte>, keep: bool)
    requires SoundDocument(d) && HeaderBytes(d) <= b
    ensures var s, r := KeysOf(d.entries, keep, Keys(32, map[])), Parse(b, keep);
      if s.alignment == 0 then r == Fail(ZeroDivision)
      else
        && r.Got? && r.next == |HeaderBytes(d)| && r.value.tensors == TensorsOf(d.tensors) && r.value.kv == s.kv
        && r.value.dataStart % s.alignment == 0
        && |HeaderBytes(d)| <= r.value.dataStart < |HeaderBytes(d)| + s.alignment
  {
    hide CountsAt;
    hide KeysAt;
    hide TensorsAt;
    hide CountsBytes;
    hide EntriesBytes;
    hide TensorsBytes;
    hide KeysOf;
    hide AlignUp;
    hide TensorsOf;
    var i := |CountsBytes(d)|;
    assert Has(b, 0, HeaderBytes(d));
    HasBoth(b, 0, CountsBytes(d), EntriesBytes(d.entries) + TensorsBytes(d.tensors));
    HasBoth(b, i, EntriesBytes(d.entries), TensorsBytes(d.tensors));
    ReadsCounts(b, d);
    ReadsEntries(b, i, d.entries, keep, Keys(32, map[]));
    ReadsTensors(b, i + |EntriesBytes(d.entries)|, d.tensors, []);
    var out := TensorsOf(d.tensors);
    assert [] + out == out;
  }
}
