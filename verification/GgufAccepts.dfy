/**
 * What the header reader of scripts/measure_gguf.py accepts: exactly the written headers of GgufFormat. With the round
 * trip there, reading and writing are inverse on everything that parses; and what it refuses, it refuses by name.
 */
module GgufAccepts {

  import opened Bytes
  import opened GgufFormat
  import opened GgufLaws
  import opened GgufSpec

  lemma Spellings()
    ensures IsAscii(MAGIC, "GGUF") && IsAscii(ALIGNMENT_KEY, "general" + ".alignment")
  {
    KeySpelling();
  }

  lemma KeySpelling()
    ensures IsAscii(ALIGNMENT_KEY[..7], "general") && IsAscii(ALIGNMENT_KEY[7..], ".alignment")
    ensures |ALIGNMENT_KEY| == 17
  {
  }

  // ----- Numbers and text -----

  lemma {:induction false} NumberBack(raw: seq<Byte>)
    ensures FromLittleEndian(raw) < Power256(|raw|) && LittleEndian(FromLittleEndian(raw), |raw|) == raw
  {
    hide LittleEndian;
    hide FromLittleEndian;
    hide Power256;
    if raw == [] {
      NoNumber();
    } else {
      NumberBack(raw[1..]);
      FirstByte(raw[0], FromLittleEndian(raw[1..]), |raw|, raw);
      assert raw == [raw[0]] + raw[1..];
    }
  }

  lemma NoNumber()
    ensures FromLittleEndian([]) == 0 < Power256(0) && LittleEndian(0, 0) == []
  {
  }

  lemma FirstByte(b: Byte, v: nat, w: nat, raw: seq<Byte>)
    requires w > 0 && raw != [] && raw[0] == b && v == FromLittleEndian(raw[1..]) && v < Power256(w - 1)
    ensures FromLittleEndian(raw) < Power256(w)
    ensures LittleEndian(FromLittleEndian(raw), w) == [b] + LittleEndian(v, w - 1)
  {
    hide LittleEndian;
    hide FromLittleEndian;
    hide Power256;
    var x := FromLittleEndian(raw);
    NumberStep(raw);
    ByteSmall(b);
    LowByte(b as nat, v);
    BytesStep(x, w);
    Octet.ValueByte(b);
    PowerStep(w);
  }

  lemma NumberStep(raw: seq<Byte>)
    requires raw != []
    ensures FromLittleEndian(raw) == raw[0] as nat + 256 * FromLittleEndian(raw[1..])
  {
  }

  lemma BytesStep(v: nat, w: nat)
    requires w > 0
    ensures LittleEndian(v, w) == [(v % 256) as Byte] + LittleEndian(v / 256, w - 1)
  {
  }

  lemma PowerStep(w: nat)
    requires w > 0
    ensures Power256(w) == 256 * Power256(w - 1)
  {
  }

  lemma ByteSmall(b: Byte)
    ensures b as nat < 256
  {
  }

  lemma LowByte(b: nat, v: nat)
    requires b < 256
    ensures (b + 256 * v) % 256 == b && (b + 256 * v) / 256 == v
  {
  }

  lemma U32Back(b: seq<Byte>, i: nat)
    requires i <= |b| && U32At(b, i).Got?
    ensures var r := U32At(b, i); r.value < TWO_32 && r.next == i + 4 && Has(b, i, LittleEndian(r.value, 4))
  {
    hide LittleEndian;
    hide FromLittleEndian;
    Powers();
    NumberBack(b[i..i + 4]);
  }

  lemma U64Back(b: seq<Byte>, i: nat)
    requires i <= |b| && U64At(b, i).Got?
    ensures var r := U64At(b, i); r.value < TWO_64 && r.next == i + 8 && Has(b, i, LittleEndian(r.value, 8))
  {
    hide LittleEndian;
    hide FromLittleEndian;
    Powers();
    NumberBack(b[i..i + 8]);
  }

  lemma HasJoined(b: seq<Byte>, i: nat, x: seq<Byte>, y: seq<Byte>)
    requires Has(b, i, x) && Has(b, i + |x|, y)
    ensures Has(b, i, x + y)
  {
    assert b[i..i + |x + y|] == b[i..i + |x|] + b[i + |x|..i + |x| + |y|];
  }

  lemma TextBack(b: seq<Byte>, i: nat)
    requires i <= |b| && TextAt(b, i).Got?
    ensures var r := TextAt(b, i);
      |r.value| < TWO_64 && Has(b, i, TextBytes(r.value)) && r.next == i + |TextBytes(r.value)|
  {
    hide LittleEndian;
    hide U64At;
    U64Back(b, i);
    var s := TextAt(b, i).value;
    HasJoined(b, i, LittleEndian(|s|, 8), s);
  }

  // ----- Values -----

  /** The bytes from i on are those of a sound value of type t, up to `next`. */
  ghost predicate IsItem(b: seq<Byte>, i: nat, t: nat, v: Item, next: nat) {
    Sound(v) && TypeOf(v) == t && Has(b, i, ItemBytes(v)) && next == i + |ItemBytes(v)|
  }

  ghost predicate AreItems(b: seq<Byte>, i: nat, t: nat, n: nat, items: seq<Item>, next: nat) {
    && |items| == n && (forall k | 0 <= k < n :: Sound(items[k]) && TypeOf(items[k]) == t)
    && Has(b, i, ItemsBytes(items)) && next == i + |ItemsBytes(items)|
  }

  lemma MoreItems(b: seq<Byte>, i: nat, t: nat, v: Item, j: nat, n: nat, items: seq<Item>, next: nat)
    requires IsItem(b, i, t, v, j) && AreItems(b, j, t, n, items, next)
    ensures AreItems(b, i, t, n + 1, [v] + items, next)
  {
    hide ItemBytes;
    hide Sound;
    assert ([v] + items)[1..] == items;
    HasJoined(b, i, ItemBytes(v), ItemsBytes(items));
  }

  lemma {:induction false} FixedBack(b: seq<Byte>, i: nat, t: nat, n: nat) returns (items: seq<Item>)
    requires IsFixed(t) && i + FixedSize(t) * n <= |b|
    ensures AreItems(b, i, t, n, items, i + FixedSize(t) * n)
    decreases n
  {
    if n == 0 {
      return [];
    }
    var size := FixedSize(t);
    assert size * n == size + size * (n - 1);
    var v := Plain(t, b[i..i + size]);
    var rest := FixedBack(b, i + size, t, n - 1);
    assert IsItem(b, i, t, v, i + size);
    MoreItems(b, i, t, v, i + size, n - 1, rest, i + size * n);
    items := [v] + rest;
  }

  lemma ArrayBack(b: seq<Byte>, i: nat, items: seq<Item>, next: nat)
    requires i <= |b| && ArrayHeadAt(b, i).Got?
    requires var r := ArrayHeadAt(b, i); AreItems(b, r.next, r.value.0, r.value.1, items, next)
    ensures IsItem(b, i, ARRAY, Arr(ArrayHeadAt(b, i).value.0, items), next)
  {
    hide LittleEndian;
    hide U32At;
    hide U64At;
    U32Back(b, i);
    U64Back(b, i + 4);
    var et := ArrayHeadAt(b, i).value.0;
    HasJoined(b, i + 4, LittleEndian(|items|, 8), ItemsBytes(items));
    HasJoined(b, i, LittleEndian(et, 4), LittleEndian(|items|, 8) + ItemsBytes(items));
  }

  lemma {:induction false} SkippedIsItem(b: seq<Byte>, i: nat, t: nat) returns (v: Item)
    requires i <= |b| && SkipAt(b, i, t).Got?
    ensures IsItem(b, i, t, v, SkipAt(b, i, t).next)
    decreases |b| - i, 0, 0
  {
    hide U32At;
    hide U64At;
    hide TextAt;
    hide TextBytes;
    if IsFixed(t) {
      v := Plain(t, b[i..i + FixedSize(t)]);
    } else if t == STRING {
      TextBack(b, i);
      v := Str(TextAt(b, i).value);
    } else {
      var head := ArrayHeadAt(b, i);
      var et, n := head.value.0, head.value.1;
      HeadInside(b, i);
      var items;
      if IsFixed(et) {
        items := FixedBack(b, head.next, et, n);
      } else {
        items := SkippedAreItems(b, head.next, et, n);
      }
      hide SkipManyAt;
      ArrayBack(b, i, items, SkipAt(b, i, t).next);
      v := Arr(et, items);
    }
  }

  lemma HeadInside(b: seq<Byte>, i: nat)
    requires i <= |b| && ArrayHeadAt(b, i).Got?
    ensures i < ArrayHeadAt(b, i).next <= |b|
  {
  }

  lemma {:induction false} SkippedAreItems(b: seq<Byte>, i: nat, t: nat, n: nat) returns (items: seq<Item>)
    requires i <= |b| && SkipManyAt(b, i, t, n).Got?
    ensures AreItems(b, i, t, n, items, SkipManyAt(b, i, t, n).next)
    decreases |b| - i, 1, n
  {
    if n == 0 {
      return [];
    }
    var j := SkipAt(b, i, t).next;
    var v := SkippedIsItem(b, i, t);
    var rest := SkippedAreItems(b, j, t, n - 1);
    hide SkipAt;
    MoreItems(b, i, t, v, j, n - 1, rest, SkipManyAt(b, i, t, n).next);
    items := [v] + rest;
  }

  // ----- Keys and tensors -----

  ghost predicate IsEntry(b: seq<Byte>, i: nat, e: Entry, next: nat) {
    SoundEntry(e) && Has(b, i, EntryBytes(e)) && next == i + |EntryBytes(e)|
  }

  lemma KeyIsEntry(b: seq<Byte>, i: nat, s: Keys) returns (e: Entry)
    requires i <= |b| && KeyAt(b, i, false, s).Got?
    ensures IsEntry(b, i, e, KeyAt(b, i, false, s).next)
  {
    hide U32At;
    hide U64At;
    hide TextAt;
    hide TextBytes;
    hide SkipAt;
    hide ItemBytes;
    hide Sound;
    hide LittleEndian;
    hide ALIGNMENT_KEY;
    TextBack(b, i);
    var key := TextAt(b, i).value;
    var j := TextAt(b, i).next;
    U32Back(b, j);
    var t := U32At(b, j).value;
    var v: Item;
    if key == ALIGNMENT_KEY {
      U32Back(b, j + 4);
      v := Plain(4, b[j + 4..j + 8]);
      AlignmentItem(b, j + 4);
    } else {
      v := SkippedIsItem(b, j + 4, t);
    }
    e := Entry(key, v);
    HasJoined(b, j, LittleEndian(t, 4), ItemBytes(v));
    HasJoined(b, i, TextBytes(key), LittleEndian(t, 4) + ItemBytes(v));
  }

  lemma AlignmentItem(b: seq<Byte>, k: nat)
    requires k + 4 <= |b|
    ensures IsItem(b, k, 4, Plain(4, b[k..k + 4]), k + 4)
  {
  }

  lemma {:induction false} KeysAreEntries(b: seq<Byte>, i: nat, n: nat, s: Keys) returns (es: seq<Entry>)
    requires i <= |b| && KeysAt(b, i, n, false, s).Got?
    ensures |es| == n && forall k | 0 <= k < n :: SoundEntry(es[k])
    ensures Has(b, i, EntriesBytes(es)) && KeysAt(b, i, n, false, s).next == i + |EntriesBytes(es)|
    decreases n
  {
    hide KeyAt;
    hide SoundEntry;
    hide EntryBytes;
    if n == 0 {
      return [];
    }
    var r := KeyAt(b, i, false, s);
    var e := KeyIsEntry(b, i, s);
    var rest := KeysAreEntries(b, r.next, n - 1, r.value);
    es := [e] + rest;
    assert es[1..] == rest;
    HasJoined(b, i, EntryBytes(e), EntriesBytes(rest));
  }

  lemma {:induction false} NumbersBack(raw: seq<Byte>, n: nat)
    requires |raw| == 8 * n
    ensures DimsBytes(Numbers(raw, n)) == raw && |Numbers(raw, n)| == n
    ensures forall k | 0 <= k < n :: Numbers(raw, n)[k] < TWO_64
  {
    hide LittleEndian;
    hide FromLittleEndian;
    if n > 0 {
      Powers();
      NumberBack(raw[..8]);
      NumbersBack(raw[8..], n - 1);
      assert raw == raw[..8] + raw[8..];
    }
  }

  ghost predicate IsTensor(b: seq<Byte>, i: nat, x: Directory, next: nat) {
    SoundTensor(x) && Has(b, i, TensorBytes(x)) && next == i + |TensorBytes(x)|
  }

  lemma TensorBack(b: seq<Byte>, i: nat) returns (x: Directory)
    requires i <= |b| && TensorAt(b, i).Got?
    ensures IsTensor(b, i, x, TensorAt(b, i).next)
  {
    hide LittleEndian;
    hide U32At;
    hide U64At;
    hide TextAt;
    hide TextBytes;
    hide Numbers;
    hide DimsBytes;
    TextBack(b, i);
    var name := TextAt(b, i).value;
    var j := TextAt(b, i).next;
    U32Back(b, j);
    var n := U32At(b, j).value;
    var raw := b[j + 4..j + 4 + 8 * n];
    NumbersBack(raw, n);
    var l := j + 4 + 8 * n;
    U32Back(b, l);
    U64Back(b, l + 4);
    x := Directory(name, Numbers(raw, n), U32At(b, l).value, U64At(b, l + 4).value);
    var t2 := LittleEndian(x.kind, 4) + LittleEndian(x.offset, 8);
    HasJoined(b, l, LittleEndian(x.kind, 4), LittleEndian(x.offset, 8));
    HasJoined(b, j + 4, DimsBytes(x.dims), t2);
    HasJoined(b, j, LittleEndian(n, 4), DimsBytes(x.dims) + t2);
    HasJoined(b, i, TextBytes(name), LittleEndian(n, 4) + (DimsBytes(x.dims) + t2));
  }

  lemma {:induction false} TensorsBack(b: seq<Byte>, i: nat, n: nat, acc: seq<Tensor>) returns (xs: seq<Directory>)
    requires i <= |b| && TensorsAt(b, i, n, acc).Got?
    ensures |xs| == n && forall k | 0 <= k < n :: SoundTensor(xs[k])
    ensures Has(b, i, TensorsBytes(xs)) && TensorsAt(b, i, n, acc).next == i + |TensorsBytes(xs)|
    decreases n
  {
    hide TensorAt;
    hide SoundTensor;
    hide TensorBytes;
    if n == 0 {
      return [];
    }
    var r := TensorAt(b, i);
    var x := TensorBack(b, i);
    var rest := TensorsBack(b, r.next, n - 1, acc + [r.value]);
    xs := [x] + rest;
    assert xs[1..] == rest;
    HasJoined(b, i, TensorBytes(x), TensorsBytes(rest));
  }

  // ----- The header -----

  /** A file whose keys and tensors can all be walked begins with a written header. */
  lemma WalkedIsWritten(b: seq<Byte>) returns (d: Document)
    requires CountsAt(b).Got? && CountsAt(b).next <= |b|
    requires var (nTensors, nKv) := CountsAt(b).value;
      var keys := KeysAt(b, CountsAt(b).next, nKv, false, Keys(32, map[]));
      keys.Got? && TensorsAt(b, keys.next, nTensors, []).Got?
    ensures SoundDocument(d) && HeaderBytes(d) <= b
  {
    hide KeysAt;
    hide TensorsAt;
    hide SoundEntry;
    hide SoundTensor;
    hide LittleEndian;
    hide U32At;
    hide U64At;
    hide EntriesBytes;
    hide TensorsBytes;
    var (nTensors, nKv) := CountsAt(b).value;
    U32Back(b, 4);
    U64Back(b, 8);
    U64Back(b, 16);
    var keys := KeysAt(b, 24, nKv, false, Keys(32, map[]));
    var es := KeysAreEntries(b, 24, nKv, Keys(32, map[]));
    var xs := TensorsBack(b, keys.next, nTensors, []);
    d := Document(U32At(b, 4).value, es, xs);
    var counts := LittleEndian(nTensors, 8) + LittleEndian(nKv, 8);
    HasJoined(b, 8, LittleEndian(nTensors, 8), LittleEndian(nKv, 8));
    HasJoined(b, 4, LittleEndian(d.version, 4), counts);
    HasJoined(b, 0, MAGIC, LittleEndian(d.version, 4) + counts);
    HasJoined(b, 24, EntriesBytes(es), TensorsBytes(xs));
    HasJoined(b, 0, CountsBytes(d), EntriesBytes(es) + TensorsBytes(xs));
    assert b[0..|HeaderBytes(d)|] == b[..|HeaderBytes(d)|];
  }

  /** The walks know neither magic nor alignment. */
  lemma {:induction false} SkipErrors(b: seq<Byte>, i: nat, t: nat)
    requires i <= |b|
    ensures SkipAt(b, i, t).Fail? ==> SkipAt(b, i, t).error in {Short, UnknownType}
    decreases |b| - i, 0, 0
  {
    hide U32At;
    hide U64At;
    NumberErrors(b, i);
    if t == ARRAY && ArrayHeadAt(b, i).Got? {
      var head := ArrayHeadAt(b, i);
      HeadInside(b, i);
      if !IsFixed(head.value.0) {
        SkipManyErrors(b, head.next, head.value.0, head.value.1);
      }
    } else if t == ARRAY {
      HeadErrors(b, i);
    }
  }

  lemma HeadErrors(b: seq<Byte>, i: nat)
    requires i <= |b|
    ensures ArrayHeadAt(b, i).Fail? ==> ArrayHeadAt(b, i).error == Short
  {
  }

  lemma NumberErrors(b: seq<Byte>, i: nat)
    requires i <= |b|
    ensures U32At(b, i).Fail? ==> U32At(b, i).error == Short
    ensures U64At(b, i).Fail? ==> U64At(b, i).error == Short
    ensures U32At(b, i).Got? ==> U32At(b, i).next == i + 4 <= |b|
    ensures U64At(b, i).Got? ==> U64At(b, i).next == i + 8 <= |b|
    ensures TextAt(b, i).Fail? ==> TextAt(b, i).error == Short
    ensures TextAt(b, i).Got? ==> i < TextAt(b, i).next <= |b|
  {
  }

  lemma {:induction false} SkipManyErrors(b: seq<Byte>, i: nat, t: nat, n: nat)
    requires i <= |b|
    ensures SkipManyAt(b, i, t, n).Fail? ==> SkipManyAt(b, i, t, n).error in {Short, UnknownType}
    decreases |b| - i, 1, n
  {
    if n > 0 {
      SkipErrors(b, i, t);
      if SkipAt(b, i, t).Got? {
        SkipManyErrors(b, SkipAt(b, i, t).next, t, n - 1);
      }
    }
  }

  lemma {:induction false} KeysErrors(b: seq<Byte>, i: nat, n: nat, s: Keys)
    requires i <= |b|
    ensures var r := KeysAt(b, i, n, false, s); r.Fail? ==> r.error in {Short, UnknownType, AlignmentType}
    decreases n
  {
    hide KeyAt;
    if n > 0 {
      KeyErrors(b, i, s);
      if KeyAt(b, i, false, s).Got? {
        KeysErrors(b, KeyAt(b, i, false, s).next, n - 1, KeyAt(b, i, false, s).value);
      }
    }
  }

  lemma KeyErrors(b: seq<Byte>, i: nat, s: Keys)
    requires i <= |b|
    ensures var r := KeyAt(b, i, false, s); r.Fail? ==> r.error in {Short, UnknownType, AlignmentType}
  {
    hide U32At;
    hide U64At;
    hide TextAt;
    hide SkipAt;
    hide ALIGNMENT_KEY;
    NumberErrors(b, i);
    if TextAt(b, i).Got? {
      var j := TextAt(b, i).next;
      NumberErrors(b, j);
      if U32At(b, j).Got? {
        NumberErrors(b, j + 4);
        SkipErrors(b, j + 4, U32At(b, j).value);
      }
    }
  }

  lemma {:induction false} TensorsErrors(b: seq<Byte>, i: nat, n: nat, acc: seq<Tensor>)
    requires i <= |b|
    ensures TensorsAt(b, i, n, acc).Fail? ==> TensorsAt(b, i, n, acc).error == Short
    decreases n
  {
    hide TensorAt;
    if n > 0 {
      TensorErrors(b, i);
      if TensorAt(b, i).Got? {
        TensorsErrors(b, TensorAt(b, i).next, n - 1, acc + [TensorAt(b, i).value]);
      }
    }
  }

  lemma TensorErrors(b: seq<Byte>, i: nat)
    requires i <= |b|
    ensures TensorAt(b, i).Fail? ==> TensorAt(b, i).error == Short
  {
    hide Numbers;
    hide FromLittleEndian;
  }

  lemma CountsErrors(b: seq<Byte>)
    ensures CountsAt(b).Fail? ==> CountsAt(b).error in {Short, BadMagic}
    ensures CountsAt(b) == Fail(BadMagic) <==> |b| >= 4 && b[..4] != MAGIC
    ensures CountsAt(b).Got? ==> CountsAt(b).next == 24 <= |b|
  {
    hide FromLittleEndian;
  }

  lemma Walked(b: seq<Byte>, keep: bool)
    requires Parse(b, keep).Got? || Parse(b, keep) == Fail(ZeroDivision)
    ensures CountsAt(b).Got? && CountsAt(b).next <= |b|
    ensures var (nTensors, nKv) := CountsAt(b).value;
      var keys := KeysAt(b, CountsAt(b).next, nKv, false, Keys(32, map[]));
      keys.Got? && TensorsAt(b, keys.next, nTensors, []).Got?
  {
    hide CountsAt;
    hide KeysAt;
    hide TensorsAt;
    CountsErrors(b);
    KeepKvIrrelevant(b);
    assert Parse(b, false).Got? || Parse(b, false) == Fail(ZeroDivision);
    var (nTensors, nKv) := CountsAt(b).value;
    KeysErrors(b, CountsAt(b).next, nKv, Keys(32, map[]));
    var keys := KeysAt(b, CountsAt(b).next, nKv, false, Keys(32, map[]));
    if keys.Got? {
      TensorsErrors(b, keys.next, nTensors, []);
    }
  }

  /** The magic is the first thing refused, and nothing else is refused by that name. */
  lemma BadMagicIff(b: seq<Byte>, keep: bool)
    ensures Parse(b, keep) == Fail(BadMagic) <==> |b| >= 4 && b[..4] != MAGIC
  {
    hide CountsAt;
    hide KeysAt;
    hide TensorsAt;
    CountsErrors(b);
    KeepKvIrrelevant(b);
    if CountsAt(b).Got? {
      var (nTensors, nKv) := CountsAt(b).value;
      KeysErrors(b, CountsAt(b).next, nKv, Keys(32, map[]));
      var keys := KeysAt(b, CountsAt(b).next, nKv, false, Keys(32, map[]));
      if keys.Got? {
        TensorsErrors(b, keys.next, nTensors, []);
      }
    }
  }

  ghost predicate Writes(d: Document, b: seq<Byte>, keep: bool, zero: bool) {
    SoundDocument(d) && HeaderBytes(d) <= b && (KeysOf(d.entries, keep, Keys(32, map[])).alignment == 0 <==> zero)
  }

  /** The parser accepts exactly the files that begin with a written header of non-zero alignment. */
  lemma AcceptsIff(b: seq<Byte>, keep: bool)
    ensures Parse(b, keep).Got? <==> exists d :: Writes(d, b, keep, false)
    ensures Parse(b, keep) == Fail(ZeroDivision) <==> exists d :: Writes(d, b, keep, true)
  {
    forall d, zero | Writes(d, b, keep, zero)
      ensures if zero then Parse(b, keep) == Fail(ZeroDivision) else Parse(b, keep).Got?
    {
      WrittenReadsBack(d, b, keep);
    }
    if Parse(b, keep).Got? || Parse(b, keep) == Fail(ZeroDivision) {
      Walked(b, keep);
      var d := WalkedIsWritten(b);
      WrittenReadsBack(d, b, keep);
      var zero := KeysOf(d.entries, keep, Keys(32, map[])).alignment == 0;
      assert Writes(d, b, keep, zero);
    }
  }

  // ----- Entries that are refused -----

  /** The header of some sound entries is followed by the key and the type of one more. */
  ghost predicate ReachesEntry(b: seq<Byte>, d: Document, es: seq<Entry>, key: seq<Byte>, t: nat) {
    && SoundDocument(d) && es < d.entries && |key| < TWO_64 && t < TWO_32
    && CountsBytes(d) + EntriesBytes(es) + TextBytes(key) + LittleEndian(t, 4) <= b
  }

  /** The parser gets to that key. */
  lemma ReachedEntry(b: seq<Byte>, d: Document, es: seq<Entry>, key: seq<Byte>, t: nat, keep: bool)
    requires ReachesEntry(b, d, es, key, t)
    ensures forall k | 0 <= k < |es| :: SoundEntry(es[k])
    ensures var i, j := 24, 24 + |EntriesBytes(es)|;
      && CountsAt(b) == Got((|d.tensors|, |d.entries|), i) && j <= |b|
      && KeysAt(b, i, |es|, keep, Keys(32, map[])) == Got(KeysOf(es, keep, Keys(32, map[])), j)
      && Has(b, j, TextBytes(key)) && Has(b, j + |TextBytes(key)|, LittleEndian(t, 4))
  {
    hide CountsAt;
    hide KeysAt;
    hide CountsBytes;
    hide EntriesBytes;
    hide TextBytes;
    hide LittleEndian;
    hide KeysOf;
    hide SoundEntry;
    hide SoundTensor;
    var c := CountsBytes(d);
    assert Has(b, 0, c + EntriesBytes(es) + TextBytes(key) + LittleEndian(t, 4));
    HasBoth(b, 0, c + EntriesBytes(es) + TextBytes(key), LittleEndian(t, 4));
    HasBoth(b, 0, c + EntriesBytes(es), TextBytes(key));
    HasBoth(b, 0, c, EntriesBytes(es));
    ReadsCounts(b, d);
    ReadsEntries(b, 24, es, keep, Keys(32, map[]));
  }

  /** An alignment of any type but UINT32 is refused as such, an unknown type of any other key as unknown. */
  lemma RefusedEntry(b: seq<Byte>, d: Document, es: seq<Entry>, key: seq<Byte>, t: nat, keep: bool)
    requires ReachesEntry(b, d, es, key, t)
    ensures key == ALIGNMENT_KEY && t != 4 ==> Parse(b, keep) == Fail(AlignmentType)
    ensures key != ALIGNMENT_KEY && t > 12 ==> Parse(b, keep) == Fail(UnknownType)
  {
    hide CountsAt;
    hide KeyAt;
    hide KeysAt;
    hide TensorsAt;
    hide EntriesBytes;
    hide TextBytes;
    hide LittleEndian;
    hide KeysOf;
    hide ALIGNMENT_KEY;
    hide SoundDocument;
    hide Has;
    ReachedEntry(b, d, es, key, t, keep);
    var j, s := 24 + |EntriesBytes(es)|, KeysOf(es, keep, Keys(32, map[]));
    KeysInParts(b, 24, |es|, |d.entries|, keep, Keys(32, map[]));
    RefusedKey(b, j, key, t, keep, s);
    FirstKeyFails(b, j, |d.entries| - |es|, keep, s);
  }

  lemma {:induction false} KeysInParts(b: seq<Byte>, i: nat, k: nat, n: nat, keep: bool, s: Keys)
    requires i <= |b| && k <= n && KeysAt(b, i, k, keep, s).Got?
    ensures var r := KeysAt(b, i, k, keep, s); KeysAt(b, i, n, keep, s) == KeysAt(b, r.next, n - k, keep, r.value)
    decreases k
  {
    hide KeyAt;
    if k > 0 {
      KeysInParts(b, KeyAt(b, i, keep, s).next, k - 1, n - 1, keep, KeyAt(b, i, keep, s).value);
    }
  }

  lemma FirstKeyFails(b: seq<Byte>, i: nat, n: nat, keep: bool, s: Keys)
    requires i <= |b| && n > 0
    ensures KeyAt(b, i, keep, s).Fail? ==> KeysAt(b, i, n, keep, s) == Fail(KeyAt(b, i, keep, s).error)
  {
    hide KeyAt;
  }

  lemma RefusedKey(b: seq<Byte>, i: nat, key: seq<Byte>, t: nat, keep: bool, s: Keys)
    requires |key| < TWO_64 && t < TWO_32 && Has(b, i, TextBytes(key))
    requires Has(b, i + |TextBytes(key)|, LittleEndian(t, 4))
    ensures key == ALIGNMENT_KEY && t != 4 ==> KeyAt(b, i, keep, s) == Fail(AlignmentType)
    ensures key != ALIGNMENT_KEY && t > 12 ==> KeyAt(b, i, keep, s) == Fail(UnknownType)
  {
    hide LittleEndian;
    hide TextBytes;
    hide U32At;
    hide TextAt;
    hide ALIGNMENT_KEY;
    ReadsText(b, i, key);
    ReadsU32(b, i + |TextBytes(key)|, t);
  }
}
