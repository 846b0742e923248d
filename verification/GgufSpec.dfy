/**
 * The GGUF header grammar that scripts/measure_gguf.py walks, as functions of a buffer and a
 * cursor: what each step yields, where the cursor stands after it, and which exception it raises.
 * Text is kept as its bytes.
 */
module GgufSpec {

  import opened Arithmetic
  import opened Bytes

  datatype Error =
    | Short           // the buffer ends before the header does
    | BadMagic
    | UnknownType
    | AlignmentType   // general.alignment is not a UINT32
    | ZeroDivision    // general.alignment is zero

  datatype Outcome<+T> = Got(value: T, next: nat) | Fail(error: Error)

  datatype Value =
    | Scalar(t: nat, raw: seq<Byte>)
    | Text(bytes: seq<Byte>)
    | Summary(n: nat, t: nat)
    | List(head: seq<Value>)
    | Truncated(head: seq<Value>, total: nat)

  const STRING: nat := 8
  const ARRAY: nat := 9

  predicate IsFixed(t: nat) {
    t <= 7 || 10 <= t <= 12
  }

  function FixedSize(t: nat): (n: nat)
    requires IsFixed(t)
    ensures 1 <= n <= 8
  {
    if t <= 1 || t == 7 then 1 else if t <= 3 then 2 else if t <= 6 then 4 else 8
  }

  function TakeAt(b: seq<Byte>, i: nat, n: nat): Outcome<seq<Byte>>
    requires i <= |b|
  {
    if i + n > |b| then Fail(Short) else Got(b[i..i + n], i + n)
  }

  function U32At(b: seq<Byte>, i: nat): Outcome<nat>
    requires i <= |b|
  {
    match TakeAt(b, i, 4)
    case Fail(e) => Fail(e)
    case Got(raw, j) => Got(FromLittleEndian(raw), j)
  }

  function U64At(b: seq<Byte>, i: nat): Outcome<nat>
    requires i <= |b|
  {
    match TakeAt(b, i, 8)
    case Fail(e) => Fail(e)
    case Got(raw, j) => Got(FromLittleEndian(raw), j)
  }

  function TextAt(b: seq<Byte>, i: nat): Outcome<seq<Byte>>
    requires i <= |b|
  {
    match U64At(b, i)
    case Fail(e) => Fail(e)
    case Got(n, j) => TakeAt(b, j, n)
  }

  /** The element type and the count at the front of an array. */
  function ArrayHeadAt(b: seq<Byte>, i: nat): Outcome<(nat, nat)>
    requires i <= |b|
  {
    match U32At(b, i)
    case Fail(e) => Fail(e)
    case Got(et, j) =>
      match U64At(b, j)
      case Fail(e) => Fail(e)
      case Got(n, k) => Got((et, n), k)
  }

  /** skip_value. */
  function SkipAt(b: seq<Byte>, i: nat, t: nat): (r: Outcome<()>)
    requires i <= |b|
    ensures r.Got? ==> i < r.next <= |b|
    decreases |b| - i, 0, 0
  {
    if IsFixed(t) then
      match TakeAt(b, i, FixedSize(t))
      case Fail(e) => Fail(e)
      case Got(_, j) => Got((), j)
    else if t == STRING then
      match TextAt(b, i)
      case Fail(e) => Fail(e)
      case Got(_, j) => Got((), j)
    else if t == ARRAY then
      match ArrayHeadAt(b, i)
      case Fail(e) => Fail(e)
      case Got((et, n), j) =>
        if IsFixed(et) then
          match TakeAt(b, j, FixedSize(et) * n)
          case Fail(e) => Fail(e)
          case Got(_, k) => Got((), k)
        else
          SkipManyAt(b, j, et, n)
    else
      Fail(UnknownType)
  }

  function SkipManyAt(b: seq<Byte>, i: nat, t: nat, n: nat): (r: Outcome<()>)
    requires i <= |b|
    ensures r.Got? ==> i <= r.next <= |b|
    decreases |b| - i, 1, n
  {
    if n == 0 then Got((), i) else
    match SkipAt(b, i, t)
    case Fail(e) => Fail(e)
    case Got(_, j) => SkipManyAt(b, j, t, n - 1)
  }

  /** read_value; cap is any Python integer. */
  function ReadAt(b: seq<Byte>, i: nat, t: nat, cap: int): (r: Outcome<Value>)
    requires i <= |b|
    ensures r.Got? ==> i < r.next <= |b|
    decreases |b| - i, 0, 0
  {
    if IsFixed(t) then
      match TakeAt(b, i, FixedSize(t))
      case Fail(e) => Fail(e)
      case Got(raw, j) => Got(Scalar(t, raw), j)
    else if t == STRING then
      match TextAt(b, i)
      case Fail(e) => Fail(e)
      case Got(s, j) => Got(Text(s), j)
    else if t == ARRAY then
      match ArrayHeadAt(b, i)
      case Fail(e) => Fail(e)
      case Got((et, n), j) =>
        if IsFixed(et) && n > cap then
          match TakeAt(b, j, FixedSize(et) * n)
          case Fail(e) => Fail(e)
          case Got(_, k) => Got(Summary(n, et), k)
        else
          match ReadManyAt(b, j, et, n, cap, cap)
          case Fail(e) => Fail(e)
          case Got(head, k) => Got(if n <= cap then List(head) else Truncated(head, n), k)
    else
      Fail(UnknownType)
  }

  /** The first `room` of n values; all of them are walked. */
  function ReadManyAt(b: seq<Byte>, i: nat, t: nat, n: nat, cap: int, room: int): (r: Outcome<seq<Value>>)
    requires i <= |b|
    ensures r.Got? ==> i <= r.next <= |b|
    decreases |b| - i, 1, n
  {
    if n == 0 then Got([], i) else
    match ReadAt(b, i, t, cap)
    case Fail(e) => Fail(e)
    case Got(v, j) =>
      match ReadManyAt(b, j, t, n - 1, cap, room - 1)
      case Fail(e) => Fail(e)
      case Got(rest, k) => Got(if room > 0 then [v] + rest else rest, k)
  }

  // ----- The header -----

  type Metadata = map<seq<Byte>, Value>

  datatype Tensor = Tensor(name: seq<Byte>, dims: seq<nat>, offset: nat)

  datatype Header = Header(tensors: seq<Tensor>, dataStart: nat, kv: Metadata)

  /** b"GGUF" */
  const MAGIC: seq<Byte> := [0x47, 0x47, 0x55, 0x46]

  /** b"general.alignment" */
  const ALIGNMENT_KEY: seq<Byte> :=
    [0x67, 0x65, 0x6e, 0x65, 0x72, 0x61, 0x6c, 0x2e, 0x61, 0x6c, 0x69, 0x67, 0x6e, 0x6d, 0x65, 0x6e, 0x74]

  datatype Keys = Keys(alignment: nat, kv: Metadata)

  /** One key and its value. */
  function KeyAt(b: seq<Byte>, i: nat, keep: bool, s: Keys): (r: Outcome<Keys>)
    requires i <= |b|
    ensures r.Got? ==> i < r.next <= |b|
  {
    match TextAt(b, i)
    case Fail(e) => Fail(e)
    case Got(key, j) =>
      match U32At(b, j)
      case Fail(e) => Fail(e)
      case Got(t, k) =>
        if key == ALIGNMENT_KEY then
          if t != 4 then Fail(AlignmentType) else
          match U32At(b, k)
          case Fail(e) => Fail(e)
          case Got(a, l) => Got(Keys(a, s.kv[key := Scalar(4, b[k..l])]), l)
        else if keep then
          match ReadAt(b, k, t, 128)
          case Fail(e) => Fail(e)
          case Got(v, l) => Got(s.(kv := s.kv[key := v]), l)
        else
          match SkipAt(b, k, t)
          case Fail(e) => Fail(e)
          case Got(_, l) => Got(s, l)
  }

  function KeysAt(b: seq<Byte>, i: nat, n: nat, keep: bool, s: Keys): (r: Outcome<Keys>)
    requires i <= |b|
    ensures r.Got? ==> i <= r.next <= |b|
    decreases n
  {
    if n == 0 then Got(s, i) else
    match KeyAt(b, i, keep, s)
    case Fail(e) => Fail(e)
    case Got(s', j) => KeysAt(b, j, n - 1, keep, s')
  }

  function Numbers(raw: seq<Byte>, n: nat): seq<nat>
    requires |raw| == 8 * n
  {
    if n == 0 then [] else [FromLittleEndian(raw[..8])] + Numbers(raw[8..], n - 1)
  }

  function TensorAt(b: seq<Byte>, i: nat): (r: Outcome<Tensor>)
    requires i <= |b|
    ensures r.Got? ==> i < r.next <= |b|
  {
    match TextAt(b, i)
    case Fail(e) => Fail(e)
    case Got(name, j) =>
      match U32At(b, j)
      case Fail(e) => Fail(e)
      case Got(n, k) =>
        match TakeAt(b, k, 8 * n)
        case Fail(e) => Fail(e)
        case Got(raw, l) =>
          match U32At(b, l)
          case Fail(e) => Fail(e)
          case Got(_, m) =>
            match U64At(b, m)
            case Fail(e) => Fail(e)
            case Got(offset, q) => Got(Tensor(name, Numbers(raw, n), offset), q)
  }

  function TensorsAt(b: seq<Byte>, i: nat, n: nat, acc: seq<Tensor>): (r: Outcome<seq<Tensor>>)
    requires i <= |b|
    ensures r.Got? ==> i <= r.next <= |b|
    decreases n
  {
    if n == 0 then Got(acc, i) else
    match TensorAt(b, i)
    case Fail(e) => Fail(e)
    case Got(x, j) => TensorsAt(b, j, n - 1, acc + [x])
  }

  /** The least multiple at or after i, Python's (i + a - 1) // a * a. */
  function AlignUp(i: nat, a: nat): (r: nat)
    requires a > 0
    ensures r % a == 0 && i <= r < i + a
  {
    var q := (i + a - 1) / a;
    assert i + a - 1 == q * a + (i + a - 1) % a;
    NonNegative(q, a);
    MultipleOf(q, a);
    q * a
  }

  /** Magic and version, then the two counts. */
  function CountsAt(b: seq<Byte>): Outcome<(nat, nat)> {
    match TakeAt(b, 0, 4)
    case Fail(e) => Fail(e)
    case Got(magic, i) =>
      if magic != MAGIC then Fail(BadMagic) else
      match U32At(b, i)
      case Fail(e) => Fail(e)
      case Got(_, j) =>
        match U64At(b, j)
        case Fail(e) => Fail(e)
        case Got(nTensors, k) =>
          match U64At(b, k)
          case Fail(e) => Fail(e)
          case Got(nKv, l) => Got((nTensors, nKv), l)
  }

  /** parse_header. */
  function Parse(b: seq<Byte>, keep: bool): Outcome<Header> {
    match CountsAt(b)
    case Fail(e) => Fail(e)
    case Got((nTensors, nKv), i) =>
      match KeysAt(b, i, nKv, keep, Keys(32, map[]))
      case Fail(e) => Fail(e)
      case Got(s, j) =>
        match TensorsAt(b, j, nTensors, [])
        case Fail(e) => Fail(e)
        case Got(tensors, k) =>
          if s.alignment == 0 then Fail(ZeroDivision)
          else Got(Header(tensors, AlignUp(k, s.alignment), s.kv), k)
  }
}
