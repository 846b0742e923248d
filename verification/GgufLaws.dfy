/** Laws of the header grammar: the two walkers agree, and a prefix answers as the whole does or asks for more. */
module GgufLaws {

  import opened Bytes
  import opened GgufSpec

  // ----- skip_value and read_value take the same walk -----

  /** Both succeed at the same cursor or both raise the same exception. */
  predicate SameWalk<S, T>(x: Outcome<S>, y: Outcome<T>) {
    match x
    case Got(_, j) => y.Got? && y.next == j
    case Fail(e) => y == Fail(e)
  }

  /** Reading n fixed-width values one by one ends where the bulk take ends. */
  lemma {:induction false} ElementsEqualBulk(b: seq<Byte>, i: nat, t: nat, n: nat, cap: int, room: int)
    requires i <= |b| && IsFixed(t)
    ensures SameWalk(TakeAt(b, i, FixedSize(t) * n), ReadManyAt(b, i, t, n, cap, room))
    decreases n
  {
    if n > 0 && i + FixedSize(t) <= |b| {
      ElementsEqualBulk(b, i + FixedSize(t), t, n - 1, cap, room - 1);
      assert FixedSize(t) * n == FixedSize(t) + FixedSize(t) * (n - 1);
    } else if n > 0 {
      assert FixedSize(t) * n >= FixedSize(t);
    }
  }

  lemma {:induction false} SkipAgreesWithRead(b: seq<Byte>, i: nat, t: nat, cap: int)
    requires i <= |b|
    ensures SameWalk(SkipAt(b, i, t), ReadAt(b, i, t, cap))
    decreases |b| - i, 0, 0
  {
    if t == ARRAY {
      match ArrayHeadAt(b, i) {
        case Fail(_) =>
        case Got((et, n), j) =>
          if IsFixed(et) {
            ElementsEqualBulk(b, j, et, n, cap, cap);
          } else {
            SkipManyAgreesWithRead(b, j, et, n, cap, cap);
          }
      }
    }
  }

  lemma {:induction false} SkipManyAgreesWithRead(b: seq<Byte>, i: nat, t: nat, n: nat, cap: int, room: int)
    requires i <= |b|
    ensures SameWalk(SkipManyAt(b, i, t, n), ReadManyAt(b, i, t, n, cap, room))
    decreases |b| - i, 1, n
  {
    if n > 0 {
      SkipAgreesWithRead(b, i, t, cap);
      match SkipAt(b, i, t) {
        case Fail(_) =>
        case Got(_, j) => SkipManyAgreesWithRead(b, j, t, n - 1, cap, room - 1);
      }
    }
  }

  /** How many values an array of n keeps, and that it keeps the first ones. */
  lemma {:induction false} ReadManyKeeps(b: seq<Byte>, i: nat, t: nat, n: nat, cap: int, room: int)
    requires i <= |b| && ReadManyAt(b, i, t, n, cap, room).Got?
    ensures |ReadManyAt(b, i, t, n, cap, room).value| == if room <= 0 then 0 else if room < n then room else n
    ensures ReadManyAt(b, i, t, n, cap, n).Got?
    ensures ReadManyAt(b, i, t, n, cap, room).value <= ReadManyAt(b, i, t, n, cap, n).value
    decreases n
  {
    if n > 0 {
      var j := ReadAt(b, i, t, cap).next;
      ReadManyKeeps(b, j, t, n - 1, cap, room - 1);
    }
  }

  // ----- keep_kv changes nothing but kv -----

  lemma {:induction false} KeysAgree(b: seq<Byte>, i: nat, n: nat, s: Keys, s': Keys)
    requires i <= |b| && s.alignment == s'.alignment
    ensures SameWalk(KeysAt(b, i, n, false, s), KeysAt(b, i, n, true, s'))
    ensures KeysAt(b, i, n, false, s).Got? ==>
      KeysAt(b, i, n, false, s).value.alignment == KeysAt(b, i, n, true, s').value.alignment
    decreases n
  {
    if n > 0 {
      KeyAgrees(b, i, s, s');
      match KeyAt(b, i, false, s) {
        case Fail(_) =>
        case Got(k, j) => KeysAgree(b, j, n - 1, k, KeyAt(b, i, true, s').value);
      }
    }
  }

  lemma KeyAgrees(b: seq<Byte>, i: nat, s: Keys, s': Keys)
    requires i <= |b| && s.alignment == s'.alignment
    ensures SameWalk(KeyAt(b, i, false, s), KeyAt(b, i, true, s'))
    ensures KeyAt(b, i, false, s).Got? ==>
      KeyAt(b, i, false, s).value.alignment == KeyAt(b, i, true, s').value.alignment
  {
    hide SkipAt;
    hide ReadAt;
    match TextAt(b, i) {
      case Fail(_) =>
      case Got(key, j) =>
        match U32At(b, j) {
          case Fail(_) =>
          case Got(t, k) => SkipAgreesWithRead(b, k, t, 128);
        }
    }
  }

  lemma KeepKvIrrelevant(b: seq<Byte>)
    ensures SameWalk(Parse(b, false), Parse(b, true))
    ensures Parse(b, false).Got? ==>
      var h, h' := Parse(b, false).value, Parse(b, true).value;
      h.tensors == h'.tensors && h.dataStart == h'.dataStart
  {
    match CountsAt(b) {
      case Fail(_) =>
      case Got((_, nKv), i) => KeysAgree(b, i, nKv, Keys(32, map[]), Keys(32, map[]));
    }
  }

  // ----- Prefix stability -----

  /** The prefix answers as the whole does, or asks for more; it asks only if the whole ends beyond it or fails. */
  predicate Stable<T(==)>(short: Outcome<T>, full: Outcome<T>, length: nat) {
    if short == Fail(Short) then full.Got? ==> full.next > length else short == full
  }

  lemma TakeStable(p: seq<Byte>, b: seq<Byte>, i: nat, n: nat)
    requires p <= b && i <= |p|
    ensures Stable(TakeAt(p, i, n), TakeAt(b, i, n), |p|)
  {
    if i + n <= |p| {
      assert p[i..i + n] == b[i..i + n];
    }
  }

  lemma TextStable(p: seq<Byte>, b: seq<Byte>, i: nat)
    requires p <= b && i <= |p|
    ensures Stable(TextAt(p, i), TextAt(b, i), |p|)
  {
    TakeStable(p, b, i, 8);
    match U64At(p, i) {
      case Fail(_) =>
      case Got(n, j) => TakeStable(p, b, j, n);
    }
  }

  lemma ArrayHeadStable(p: seq<Byte>, b: seq<Byte>, i: nat)
    requires p <= b && i <= |p|
    ensures Stable(ArrayHeadAt(p, i), ArrayHeadAt(b, i), |p|)
  {
    TakeStable(p, b, i, 4);
    match U32At(p, i) {
      case Fail(_) =>
      case Got(_, j) => TakeStable(p, b, j, 8);
    }
  }

  lemma {:induction false} SkipStable(p: seq<Byte>, b: seq<Byte>, i: nat, t: nat)
    requires p <= b && i <= |p|
    ensures Stable(SkipAt(p, i, t), SkipAt(b, i, t), |p|)
    decreases |p| - i, 0, 0
  {
    if IsFixed(t) {
      TakeStable(p, b, i, FixedSize(t));
    } else if t == STRING {
      TextStable(p, b, i);
    } else if t == ARRAY {
      ArrayHeadStable(p, b, i);
      match ArrayHeadAt(p, i) {
        case Fail(_) =>
        case Got((et, n), j) =>
          if IsFixed(et) {
            TakeStable(p, b, j, FixedSize(et) * n);
          } else {
            SkipManyStable(p, b, j, et, n);
          }
      }
    }
  }

  lemma {:induction false} SkipManyStable(p: seq<Byte>, b: seq<Byte>, i: nat, t: nat, n: nat)
    requires p <= b && i <= |p|
    ensures Stable(SkipManyAt(p, i, t, n), SkipManyAt(b, i, t, n), |p|)
    decreases |p| - i, 1, n
  {
    if n > 0 {
      SkipStable(p, b, i, t);
      match SkipAt(p, i, t) {
        case Fail(_) =>
        case Got(_, j) => SkipManyStable(p, b, j, t, n - 1);
      }
    }
  }

  lemma {:induction false} ReadStable(p: seq<Byte>, b: seq<Byte>, i: nat, t: nat, cap: int)
    requires p <= b && i <= |p|
    ensures Stable(ReadAt(p, i, t, cap), ReadAt(b, i, t, cap), |p|)
    decreases |p| - i, 0, 0
  {
    if IsFixed(t) {
      TakeStable(p, b, i, FixedSize(t));
    } else if t == STRING {
      TextStable(p, b, i);
    } else if t == ARRAY {
      ArrayHeadStable(p, b, i);
      match ArrayHeadAt(p, i) {
        case Fail(_) =>
        case Got((et, n), j) =>
          if IsFixed(et) && n > cap {
            TakeStable(p, b, j, FixedSize(et) * n);
          } else {
            ReadManyStable(p, b, j, et, n, cap, cap);
          }
      }
    }
  }

  lemma {:induction false} ReadManyStable(p: seq<Byte>, b: seq<Byte>, i: nat, t: nat, n: nat, cap: int, room: int)
    requires p <= b && i <= |p|
    ensures Stable(ReadManyAt(p, i, t, n, cap, room), ReadManyAt(b, i, t, n, cap, room), |p|)
    decreases |p| - i, 1, n
  {
    if n > 0 {
      ReadStable(p, b, i, t, cap);
      match ReadAt(p, i, t, cap) {
        case Fail(_) =>
        case Got(_, j) => ReadManyStable(p, b, j, t, n - 1, cap, room - 1);
      }
    }
  }

  lemma KeyStable(p: seq<Byte>, b: seq<Byte>, i: nat, keep: bool, s: Keys)
    requires p <= b && i <= |p|
    ensures Stable(KeyAt(p, i, keep, s), KeyAt(b, i, keep, s), |p|)
  {
    hide FromLittleEndian;
    hide ALIGNMENT_KEY;
    hide SkipAt;
    hide ReadAt;
    TextStable(p, b, i);
    match TextAt(p, i) {
      case Fail(_) =>
      case Got(_, j) =>
        TakeStable(p, b, j, 4);
        match U32At(p, j) {
          case Fail(_) =>
          case Got(t, k) =>
            TakeStable(p, b, k, 4);
            SkipStable(p, b, k, t);
            ReadStable(p, b, k, t, 128);
        }
    }
  }

  lemma {:induction false} KeysStable(p: seq<Byte>, b: seq<Byte>, i: nat, n: nat, keep: bool, s: Keys)
    requires p <= b && i <= |p|
    ensures Stable(KeysAt(p, i, n, keep, s), KeysAt(b, i, n, keep, s), |p|)
    decreases n
  {
    hide KeyAt;
    if n > 0 {
      KeyStable(p, b, i, keep, s);
      match KeyAt(p, i, keep, s) {
        case Fail(_) =>
        case Got(s', j) => KeysStable(p, b, j, n - 1, keep, s');
      }
    }
  }

  lemma TensorStable(p: seq<Byte>, b: seq<Byte>, i: nat)
    requires p <= b && i <= |p|
    ensures Stable(TensorAt(p, i), TensorAt(b, i), |p|)
  {
    TextStable(p, b, i);
    match TextAt(p, i) {
      case Fail(_) =>
      case Got(_, j) =>
        TakeStable(p, b, j, 4);
        match U32At(p, j) {
          case Fail(_) =>
          case Got(n, k) =>
            TakeStable(p, b, k, 8 * n);
            match TakeAt(p, k, 8 * n) {
              case Fail(_) =>
              case Got(_, l) =>
                TakeStable(p, b, l, 4);
                match U32At(p, l) {
                  case Fail(_) =>
                  case Got(_, m) => TakeStable(p, b, m, 8);
                }
            }
        }
    }
  }

  lemma {:induction false} TensorsStable(p: seq<Byte>, b: seq<Byte>, i: nat, n: nat, acc: seq<Tensor>)
    requires p <= b && i <= |p|
    ensures Stable(TensorsAt(p, i, n, acc), TensorsAt(b, i, n, acc), |p|)
    decreases n
  {
    hide TensorAt;
    if n > 0 {
      TensorStable(p, b, i);
      match TensorAt(p, i) {
        case Fail(_) =>
        case Got(x, j) => TensorsStable(p, b, j, n - 1, acc + [x]);
      }
    }
  }

  lemma CountsStable(p: seq<Byte>, b: seq<Byte>)
    requires p <= b
    ensures Stable(CountsAt(p), CountsAt(b), |p|)
  {
    TakeStable(p, b, 0, 4);
    if |p| >= 4 {
      TakeStable(p, b, 4, 4);
      if |p| >= 8 {
        TakeStable(p, b, 8, 8);
        if |p| >= 16 { TakeStable(p, b, 16, 8); }
      }
    }
  }

  lemma PrefixStability(p: seq<Byte>, b: seq<Byte>, keep: bool)
    requires p <= b
    ensures Stable(Parse(p, keep), Parse(b, keep), |p|)
  {
    CountsStable(p, b);
    match CountsAt(p) {
      case Fail(_) =>
      case Got((nTensors, nKv), i) =>
        var s0 := Keys(32, map[]);
        KeysStable(p, b, i, nKv, keep, s0);
        match KeysAt(p, i, nKv, keep, s0) {
          case Fail(_) =>
          case Got(_, j) => TensorsStable(p, b, j, nTensors, []);
        }
    }
  }

  // ----- The format letters of read_value -----

  /** FMT: the struct format read_value uses for a fixed-width type. */
  function FormatLetter(t: nat): char
    requires IsFixed(t)
  {
    if t <= 7 then "BbHhIif?"[t] else "Qqd"[t - 10]
  }

  /** The standard size of a format letter in Python's struct module. */
  function FormatSize(c: char): nat {
    if c in "bB?" then 1 else if c in "hH" then 2 else if c in "iIf" then 4 else if c in "qQd" then 8 else 0
  }

  /** The fixed-width types of the format, and no other: struct.unpack is given exactly the bytes its format needs. */
  lemma FixedSizeIsFormatSize(t: nat)
    ensures IsFixed(t) <==> t in {0, 1, 2, 3, 4, 5, 6, 7, 10, 11, 12}
    ensures IsFixed(t) ==> FixedSize(t) == FormatSize(FormatLetter(t))
    ensures IsFixed(t) ==> (FixedSize(t) == 1 <==> t in {0, 1, 7}) && (FixedSize(t) == 2 <==> t in {2, 3})
    ensures IsFixed(t) ==> (FixedSize(t) == 4 <==> t in {4, 5, 6}) && (FixedSize(t) == 8 <==> t in {10, 11, 12})
  {
    if IsFixed(t) {
      assert t == 0 || t == 1 || t == 2 || t == 3 || t == 4 || t == 5 || t == 6 || t == 7
             || t == 10 || t == 11 || t == 12;
    }
  }
}
