/**
 * Tensor names: which block a name belongs to, and whether it is a routed-expert weight, as
 * scripts/measure_gguf.py, scripts/mtp_manifest_inventory.py and src/common/modelsize.c decide it.
 * A name is a sequence of ASCII codes.
 */
module TensorNames {

  import opened Bytes
  import opened Options

  type Name = seq<Byte>

  const DOT: Byte := 0x2e
  const PLUS: Byte := 0x2b
  const MINUS: Byte := 0x2d
  const BLK: Name := [0x62, 0x6c, 0x6b, 0x2e]                               // "blk."
  const FFN: Name := [0x66, 0x66, 0x6e, 0x5f]                               // "ffn_"
  const GATE_UP: Name := [0x67, 0x61, 0x74, 0x65, 0x5f, 0x75, 0x70]         // "gate_up"
  const DOWN: Name := [0x64, 0x6f, 0x77, 0x6e]                              // "down"
  const GATE: Name := [0x67, 0x61, 0x74, 0x65]                              // "gate"
  const UP: Name := [0x75, 0x70]                                            // "up"
  const EXPS: Name := [0x5f, 0x65, 0x78, 0x70, 0x73]                        // "_exps"
  const CHEXPS: Name := [0x5f, 0x63, 0x68, 0x65, 0x78, 0x70, 0x73]          // "_chexps"
  const ROOTS: seq<Name> := [GATE_UP, DOWN, GATE, UP]

  lemma Spellings()
    ensures IsAscii(BLK, "blk.") && IsAscii(FFN, "ffn_") && IsAscii(EXPS, "_exps") && IsAscii(CHEXPS, "_chexps")
    ensures IsAscii(GATE_UP, "gate_up") && IsAscii(DOWN, "down") && IsAscii(GATE, "gate") && IsAscii(UP, "up")
    ensures IsAscii([DOT], ".") && IsAscii([PLUS], "+") && IsAscii([MINUS], "-")
    ensures forall root :: root in ROOTS <==> root in {GATE_UP, DOWN, GATE, UP}
  {
  }

  predicate IsDigit(c: Byte) {
    0x30 <= c <= 0x39
  }

  lemma IsDigitIff(c: Byte)
    ensures IsDigit(c) <==> '0' as int <= c as int <= '9' as int
    ensures IsDigit(c) ==> Decimal([c]) == c as int - '0' as int
  {
    assert [c][..0] == [];
  }

  predicate AllDigits(s: Name) {
    forall i | 0 <= i < |s| :: IsDigit(s[i])
  }

  /** int(s) for a string of digits. */
  function Decimal(s: Name): nat
    requires AllDigits(s)
  {
    if s == [] then 0 else 10 * Decimal(s[..|s| - 1]) + (s[|s| - 1] - 0x30) as nat
  }

  /** The index of the first c, or the length. */
  function IndexOf(s: Name, c: Byte): (k: nat)
    ensures k <= |s| && c !in s[..k] && (k < |s| ==> s[k] == c)
  {
    if s == [] then 0 else if s[0] == c then 0 else 1 + IndexOf(s[1..], c)
  }

  predicate IsBlock(name: Name) {
    BLK <= name
  }

  /** tail.startswith(root) and what follows starts with one of the two suffixes. */
  predicate RootMatches(tail: Name, root: Name) {
    root <= tail && (EXPS <= tail[|root|..] || CHEXPS <= tail[|root|..])
  }

  predicate AnyRoot(tail: Name, roots: seq<Name>) {
    roots != [] && (RootMatches(tail, roots[0]) || AnyRoot(tail, roots[1..]))
  }

  /** expert_layer_of. */
  function ExpertLayerOf(name: Name): Option<nat> {
    if !IsBlock(name) then None else
    var rest := name[4..];
    var k := IndexOf(rest, DOT);
    var num, tail := rest[..k], if k < |rest| then rest[k + 1..] else [];
    if num == [] || !AllDigits(num) || !(FFN <= tail) then None
    else if AnyRoot(tail[4..], ROOTS) then Some(Decimal(num)) else None
  }

  // ----- The pattern both programs mean -----

  /** blk\.(\d+)\.ffn_(up|down|gate_up|gate)_(ch|)exps, at the front of the name. */
  ghost predicate Matches(name: Name, digits: Name, root: Name, suffix: Name, rest: Name) {
    && digits != [] && AllDigits(digits)
    && root in ROOTS && (suffix == EXPS || suffix == CHEXPS)
    && name == BLK + digits + [DOT] + FFN + root + suffix + rest
  }

  ghost predicate IsExpertOf(name: Name, layer: nat) {
    exists digits, root, suffix, rest :: Matches(name, digits, root, suffix, rest) && Decimal(digits) == layer
  }

  lemma {:induction false} AnyRootIsExists(tail: Name, roots: seq<Name>)
    ensures AnyRoot(tail, roots) <==> exists root :: root in roots && RootMatches(tail, root)
  {
    if roots != [] {
      AnyRootIsExists(tail, roots[1..]);
    }
  }

  lemma IndexOfAfterDigits(digits: Name, tail: Name)
    requires AllDigits(digits)
    ensures IndexOf(digits + [DOT] + tail, DOT) == |digits|
  {
    var s := digits + [DOT] + tail;
    assert s[|digits|] == DOT && s[..|digits|] == digits;
    assert DOT !in digits;
    assert forall k | |digits| < k <= |s| :: s[..k][|digits|] == DOT;
  }

  lemma TailHasRoot(tail: Name) returns (root: Name, suffix: Name)
    requires AnyRoot(tail, ROOTS)
    ensures root in ROOTS && (suffix == EXPS || suffix == CHEXPS)
    ensures root <= tail && suffix <= tail[|root|..]
  {
    hide AnyRoot;
    hide ROOTS;
    AnyRootIsExists(tail, ROOTS);
    root :| root in ROOTS && RootMatches(tail, root);
    suffix := if EXPS <= tail[|root|..] then EXPS else CHEXPS;
  }

  lemma ExpertFitsPattern(name: Name, layer: nat)
    requires ExpertLayerOf(name) == Some(layer)
    ensures IsExpertOf(name, layer)
  {
    hide IndexOf;
    hide Decimal;
    hide AnyRoot;
    hide ROOTS;
    hide EXPS;
    hide CHEXPS;
    var rest := name[4..];
    var k := IndexOf(rest, DOT);
    var tail := rest[k + 1..];
    var root, suffix := TailHasRoot(tail[4..]);
    Rejoin(name, BLK, k, FFN, root, suffix);
    assert Matches(name, rest[..k], root, suffix, tail[4..][|root|..][|suffix|..]);
  }

  lemma Rejoin(name: Name, blk: Name, k: nat, ffn: Name, root: Name, suffix: Name)
    requires blk <= name && k < |name[|blk|..]| && name[|blk|..][k] == DOT
    requires ffn <= name[|blk|..][k + 1..]
    requires root <= name[|blk|..][k + 1..][|ffn|..]
    requires suffix <= name[|blk|..][k + 1..][|ffn|..][|root|..]
    ensures var rest := name[|blk|..];
      name == blk + rest[..k] + [DOT] + ffn + root + suffix + rest[k + 1..][|ffn|..][|root|..][|suffix|..]
  {
    var rest := name[|blk|..];
    var tail := rest[k + 1..];
    var after := tail[|ffn|..][|root|..];
    var end := after[|suffix|..];
    assert name == blk + rest && rest == rest[..k] + ([DOT] + tail);
    assert tail == ffn + tail[|ffn|..] && tail[|ffn|..] == root + after && after == suffix + end;
    Associate(blk, rest[..k], [DOT] + tail);
    Associate(blk + rest[..k], [DOT], tail);
    Associate(blk + rest[..k] + [DOT], ffn, tail[|ffn|..]);
    Associate(blk + rest[..k] + [DOT] + ffn, root, after);
    Associate(blk + rest[..k] + [DOT] + ffn + root, suffix, end);
  }

  lemma Associate(a: Name, b: Name, c: Name)
    ensures a + (b + c) == a + b + c
  {
  }

  lemma Unjoin(name: Name, blk: Name, digits: Name, ffn: Name, root: Name, suffix: Name, rest: Name)
    requires name == blk + digits + [DOT] + ffn + root + suffix + rest
    ensures blk <= name && name[|blk|..] == digits + [DOT] + (ffn + root + suffix + rest)
    ensures (digits + [DOT] + (ffn + root + suffix + rest))[|digits| + 1..] == ffn + root + suffix + rest
    ensures ffn <= ffn + root + suffix + rest
    ensures (ffn + root + suffix + rest)[|ffn|..] == root + suffix + rest
    ensures root <= root + suffix + rest && (root + suffix + rest)[|root|..] == suffix + rest
    ensures suffix <= suffix + rest
  {
  }

  lemma PatternFitsExpert(name: Name, digits: Name, root: Name, suffix: Name, rest: Name)
    requires Matches(name, digits, root, suffix, rest)
    ensures ExpertLayerOf(name) == Some(Decimal(digits))
  {
    hide IndexOf;
    hide Decimal;
    hide AnyRoot;
    var tail := FFN + root + suffix + rest;
    Unjoin(name, BLK, digits, FFN, root, suffix, rest);
    IndexOfAfterDigits(digits, tail);
    assert RootMatches(root + suffix + rest, root);
    AnyRootIsExists(root + suffix + rest, ROOTS);
    assert name[4..][..|digits|] == digits;
  }

  lemma ExpertLayerIffPattern(name: Name, layer: nat)
    ensures ExpertLayerOf(name) == Some(layer) <==> IsExpertOf(name, layer)
  {
    if ExpertLayerOf(name) == Some(layer) {
      ExpertFitsPattern(name, layer);
    }
    if IsExpertOf(name, layer) {
      var digits, root, suffix, rest :| Matches(name, digits, root, suffix, rest) && Decimal(digits) == layer;
      PatternFitsExpert(name, digits, root, suffix, rest);
    }
  }

  // ----- tensor_is_moe_expert of src/common/modelsize.c -----

  /** The white space that a scanf conversion skips. */
  predicate IsSpace(c: Byte) {
    c == 0x20 || 0x09 <= c <= 0x0d
  }

  /** Space, tab, newline, vertical tab, form feed and carriage return. */
  lemma IsSpaceIff(c: Byte)
    ensures IsSpace(c) <==> c in {9, 10, 11, 12, 13, 32}
  {
  }

  function SkipSpace(s: Name): Name {
    if s != [] && IsSpace(s[0]) then SkipSpace(s[1..]) else s
  }

  function DigitRun(s: Name): (k: nat)
    ensures k <= |s| && AllDigits(s[..k]) && (k < |s| ==> !IsDigit(s[k]))
  {
    if s != [] && IsDigit(s[0]) then 1 + DigitRun(s[1..]) else 0
  }

  /** sscanf(name, "blk.%u.%n"): white space and a sign are allowed in front of the number. */
  function CExpertLayerOf(name: Name): Option<nat> {
    if !(BLK <= name) then None else
    var field := SkipSpace(name[4..]);
    var signed := field != [] && (field[0] == PLUS || field[0] == MINUS);
    var body := if signed then field[1..] else field;
    var k := DigitRun(body);
    if k == 0 || k == |body| || body[k] != DOT then None else
    var tail := body[k + 1..];
    if !ExpertTail(tail) then None else
    var v := Decimal(body[..k]) % TWO_32;
    Some(if signed && field[0] == MINUS then (TWO_32 - v) % TWO_32 else v)
  }

  predicate AllSpace(s: Name) {
    forall i | 0 <= i < |s| :: IsSpace(s[i])
  }

  /** What the C program scans: as the pattern above, but white space and one sign may precede the number. */
  ghost predicate Scans(name: Name, space: Name, sign: Name, digits: Name, rest: Name) {
    && AllSpace(space) && sign in [[], [PLUS], [MINUS]] && digits != [] && AllDigits(digits)
    && name == BLK + (space + (sign + (digits + ([DOT] + rest))))
    && ExpertTail(rest)
  }

  /** ffn_(up|down|gate_up|gate)_(ch|)exps, at the front of what follows the number. */
  predicate ExpertTail(rest: Name) {
    FFN <= rest && AnyRoot(rest[4..], ROOTS)
  }

  ghost predicate IsScanned(name: Name) {
    exists space, sign, digits, rest :: Scans(name, space, sign, digits, rest)
  }

  lemma {:induction false} SkipSpaceIs(space: Name, rest: Name)
    requires AllSpace(space) && (rest == [] || !IsSpace(rest[0]))
    ensures SkipSpace(space + rest) == rest
  {
    if space == [] {
      assert space + rest == rest;
    } else {
      assert (space + rest)[1..] == space[1..] + rest;
      SkipSpaceIs(space[1..], rest);
    }
  }

  lemma {:induction false} SkippedIsSpace(s: Name) returns (space: Name)
    ensures AllSpace(space) && s == space + SkipSpace(s)
  {
    if s != [] && IsSpace(s[0]) {
      space := SkippedIsSpace(s[1..]);
      assert s == [s[0]] + s[1..];
      assert [s[0]] + (space + SkipSpace(s[1..])) == ([s[0]] + space) + SkipSpace(s[1..]);
      space := [s[0]] + space;
    } else {
      space := [];
      assert s == [] + s;
    }
  }

  lemma {:induction false} DigitRunIs(digits: Name, rest: Name)
    requires AllDigits(digits) && rest != [] && !IsDigit(rest[0])
    ensures DigitRun(digits + rest) == |digits|
  {
    if digits == [] {
      assert digits + rest == rest;
    } else {
      assert (digits + rest)[1..] == digits[1..] + rest;
      DigitRunIs(digits[1..], rest);
    }
  }

  /** What a scan of such a name has at hand: the field after the space, its body after the sign, the run of digits. */
  lemma ScannedParts(name: Name, space: Name, sign: Name, digits: Name, rest: Name)
    requires Scans(name, space, sign, digits, rest)
    ensures var body := digits + ([DOT] + rest);
      && BLK <= name && SkipSpace(name[4..]) == sign + body && (sign + body)[|sign|..] == body
      && (sign + body)[0] == (if sign == [] then digits[0] else sign[0]) && IsDigit(digits[0])
      && DigitRun(body) == |digits| < |body| && body[..|digits|] == digits
      && body[|digits|] == DOT && body[|digits| + 1..] == rest
  {
    hide ExpertTail;
    hide SkipSpace;
    hide DigitRun;
    var body := digits + ([DOT] + rest);
    assert name[4..] == space + (sign + body);
    SkipSpaceIs(space, sign + body);
    DigitRunIs(digits, [DOT] + rest);
  }

  /** What the C program makes of it: the number modulo 2^32, negated there after a minus sign. */
  lemma ScannedIsFound(name: Name, space: Name, sign: Name, digits: Name, rest: Name)
    requires Scans(name, space, sign, digits, rest)
    ensures var v := Decimal(digits) % TWO_32;
      CExpertLayerOf(name) == Some(if sign == [MINUS] && v > 0 then TWO_32 - v else v)
  {
    hide ExpertTail;
    hide Decimal;
    hide SkipSpace;
    hide DigitRun;
    ScannedParts(name, space, sign, digits, rest);
    Negated(Decimal(digits) % TWO_32);
  }

  lemma Negated(v: nat)
    requires v < TWO_32
    ensures (TWO_32 - v) % TWO_32 == if v > 0 then TWO_32 - v else 0
  {
  }

  lemma JoinedName(name: Name, space: Name, sign: Name, body: Name, k: nat)
    requires BLK <= name && name[4..] == space + (sign + body) && k < |body| && body[k] == DOT
    ensures name == BLK + (space + (sign + (body[..k] + ([DOT] + body[k + 1..]))))
  {
    assert body == body[..k] + ([DOT] + body[k + 1..]);
    assert name == BLK + name[4..];
  }

  lemma FoundIsScanned(name: Name)
    requires CExpertLayerOf(name).Some?
    ensures IsScanned(name)
  {
    hide ExpertTail;
    hide Decimal;
    hide SkipSpace;
    hide DigitRun;
    hide IsScanned;
    var space := SkippedIsSpace(name[4..]);
    var field := SkipSpace(name[4..]);
    var signed := field != [] && (field[0] == PLUS || field[0] == MINUS);
    var sign, body := if signed then [field[0]] else [], if signed then field[1..] else field;
    var k := DigitRun(body);
    assert field == sign + body;
    JoinedName(name, space, sign, body, k);
    ScansWitness(name, space, sign, body[..k], body[k + 1..]);
  }

  lemma ScansWitness(name: Name, space: Name, sign: Name, digits: Name, rest: Name)
    requires Scans(name, space, sign, digits, rest)
    ensures IsScanned(name)
  {
  }

  /** The C program calls a name an expert exactly when it has the scanned form. */
  lemma CExpertIffScanned(name: Name)
    ensures CExpertLayerOf(name).Some? <==> IsScanned(name)
  {
    hide CExpertLayerOf;
    if CExpertLayerOf(name).Some? {
      FoundIsScanned(name);
    }
    if IsScanned(name) {
      var space, sign, digits, rest :| Scans(name, space, sign, digits, rest);
      ScannedIsFound(name, space, sign, digits, rest);
    }
  }

  lemma RunsMeet(s: Name)
    ensures IndexOf(s, DOT) < |s| && AllDigits(s[..IndexOf(s, DOT)])
      <==> DigitRun(s) < |s| && s[DigitRun(s)] == DOT
    ensures DigitRun(s) < |s| && s[DigitRun(s)] == DOT ==> DigitRun(s) == IndexOf(s, DOT)
  {
    var k, d := IndexOf(s, DOT), DigitRun(s);
    forall i | 0 <= i < d ensures IsDigit(s[i]) { assert s[..d][i] == s[i]; }
    forall i | 0 <= i < k ensures s[i] != DOT { assert s[..k][i] == s[i]; }
    forall i | 0 <= i < k && AllDigits(s[..k]) ensures IsDigit(s[i]) { assert s[..k][i] == s[i]; }
  }

  lemma PythonExpertIsScanned(name: Name)
    ensures ExpertLayerOf(name).Some? ==> CExpertLayerOf(name) == Some(ExpertLayerOf(name).value % TWO_32)
  {
    hide Decimal;
    hide AnyRoot;
    if ExpertLayerOf(name).Some? {
      var rest := name[4..];
      RunsMeet(rest);
      assert IsDigit(rest[0]) by { assert rest[0] == rest[..IndexOf(rest, DOT)][0]; }
      assert SkipSpace(rest) == rest;
    }
  }

  /**
   * The two programs agree on a name exactly when it has not even the scanned form, so that both refuse it, or it has
   * the plain pattern with a number below 2^32. They disagree on white space and signs, which only scanf takes, and
   * on larger numbers, which no unsigned holds.
   */
  lemma ProgramsAgreeExactly(name: Name)
    ensures CExpertLayerOf(name) == ExpertLayerOf(name)
      <==> !IsScanned(name) || exists layer: nat | layer < TWO_32 :: IsExpertOf(name, layer)
  {
    hide CExpertLayerOf;
    hide ExpertLayerOf;
    hide IsScanned;
    hide IsExpertOf;
    PythonExpertIsScanned(name);
    CExpertIffScanned(name);
    forall layer: nat ensures IsExpertOf(name, layer) <==> ExpertLayerOf(name) == Some(layer) {
      ExpertLayerIffPattern(name, layer);
    }
  }

  /** Whatever the scan makes of a block number of 2^32 or more, it is not that number. */
  lemma LargeNumberDisagrees(name: Name, layer: nat)
    requires IsExpertOf(name, layer) && layer >= TWO_32
    ensures ExpertLayerOf(name) == Some(layer) && CExpertLayerOf(name) != ExpertLayerOf(name)
  {
    hide CExpertLayerOf;
    hide ExpertLayerOf;
    ExpertLayerIffPattern(name, layer);
    PythonExpertIsScanned(name);
  }

  const POWER_32: Name := [0x34, 0x32, 0x39, 0x34, 0x39, 0x36, 0x37, 0x32, 0x39, 0x36]   // "4294967296"

  lemma Power32IsDecimal()
    ensures POWER_32 != [] && AllDigits(POWER_32) && Decimal(POWER_32) == TWO_32
  {
    var d := POWER_32;
    assert d[..0] == [] && d[..10] == d;
    forall k | 0 < k <= 10 ensures d[..k][..k - 1] == d[..k - 1] && d[..k][k - 1] == d[k - 1] {
    }
    assert Decimal(d[..1]) == 4;
    assert Decimal(d[..2]) == 42;
    assert Decimal(d[..3]) == 429;
    assert Decimal(d[..4]) == 4294;
    assert Decimal(d[..5]) == 42949;
    assert Decimal(d[..6]) == 429496;
    assert Decimal(d[..7]) == 4294967;
    assert Decimal(d[..8]) == 42949672;
    assert Decimal(d[..9]) == 429496729;
  }

  /** "blk.4294967296.ffn_up_exps" is an expert of that block to the Python program only. */
  lemma Power32Disagrees()
    ensures var name := BLK + POWER_32 + [DOT] + FFN + UP + EXPS + [];
      ExpertLayerOf(name) == Some(TWO_32) && CExpertLayerOf(name) != Some(TWO_32)
  {
    hide CExpertLayerOf;
    hide ExpertLayerOf;
    hide Decimal;
    hide POWER_32;
    var name := BLK + POWER_32 + [DOT] + FFN + UP + EXPS + [];
    Power32IsDecimal();
    assert ROOTS[3] == UP;
    assert Matches(name, POWER_32, UP, EXPS, []);
    LargeNumberDisagrees(name, TWO_32);
  }

  const SIGNED: Name := [0x2b, 0x31, 0x2e]   // "+1."

  lemma SignedSuffix()
    ensures FFN <= FFN + UP + EXPS && AnyRoot((FFN + UP + EXPS)[4..], ROOTS)
  {
    assert (FFN + UP + EXPS)[4..] == UP + EXPS && (UP + EXPS)[2..] == EXPS;
    assert RootMatches(UP + EXPS, UP);
    AnyRootIsExists(UP + EXPS, ROOTS);
  }

  /** "blk.+1.ffn_up_exps" is block 1 to the C program and no expert to the Python one. */
  lemma SignedNameDisagrees()
    ensures CExpertLayerOf(BLK + (SIGNED + (FFN + UP + EXPS))) == Some(1)
    ensures ExpertLayerOf(BLK + (SIGNED + (FFN + UP + EXPS))) == None
  {
    hide AnyRoot;
    SignedSuffix();
    var tail := FFN + UP + EXPS;
    var rest := SIGNED + tail;
    assert (BLK + rest)[4..] == rest;
    var body := rest[1..];
    assert body[0] == 0x31 && body[1] == DOT && body[2..] == tail;
    assert body[1..][0] == DOT;
    assert DigitRun(body) == 1;
    assert body[..1] == [0x31] && [0x31][..0] == [];
    assert Decimal([0x31]) == 1;
    var k := IndexOf(rest, DOT);
    assert rest[0] == 0x2b && k > 0 ==> rest[..k][0] == 0x2b;
  }
}
