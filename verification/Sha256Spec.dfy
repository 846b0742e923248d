/** SHA-256 as sections 2 to 6 of FIPS 180-4 define it: a function of the whole message. */
module Sha256Spec {

  import opened Bytes

  type Word = bv32

  // ----- Sections 4.2.2 and 5.3.3: constants -----

  function K(t: nat): Word
    requires t < 64
  {
    if t < 8 then
      [0x428a2f98, 0x71374491, 0xb5c0fbcf, 0xe9b5dba5, 0x3956c25b, 0x59f111f1, 0x923f82a4, 0xab1c5ed5][t]
    else if t < 16 then
      [0xd807aa98, 0x12835b01, 0x243185be, 0x550c7dc3, 0x72be5d74, 0x80deb1fe, 0x9bdc06a7, 0xc19bf174][t - 8]
    else if t < 24 then
      [0xe49b69c1, 0xefbe4786, 0x0fc19dc6, 0x240ca1cc, 0x2de92c6f, 0x4a7484aa, 0x5cb0a9dc, 0x76f988da][t - 16]
    else if t < 32 then
      [0x983e5152, 0xa831c66d, 0xb00327c8, 0xbf597fc7, 0xc6e00bf3, 0xd5a79147, 0x06ca6351, 0x14292967][t - 24]
    else if t < 40 then
      [0x27b70a85, 0x2e1b2138, 0x4d2c6dfc, 0x53380d13, 0x650a7354, 0x766a0abb, 0x81c2c92e, 0x92722c85][t - 32]
    else if t < 48 then
      [0xa2bfe8a1, 0xa81a664b, 0xc24b8b70, 0xc76c51a3, 0xd192e819, 0xd6990624, 0xf40e3585, 0x106aa070][t - 40]
    else if t < 56 then
      [0x19a4c116, 0x1e376c08, 0x2748774c, 0x34b0bcb5, 0x391c0cb3, 0x4ed8aa4a, 0x5b9cca4f, 0x682e6ff3][t - 48]
    else [0x748f82ee, 0x78a5636f, 0x84c87814, 0x8cc70208, 0x90befffa, 0xa4506ceb, 0xbef9a3f7, 0xc67178f2][t - 56]
  }

  /** H_i^(0). */
  function InitialWord(i: nat): Word
    requires i < 8
  {
    [0x6a09e667, 0xbb67ae85, 0x3c6ef372, 0xa54ff53a, 0x510e527f, 0x9b05688c, 0x1f83d9ab, 0x5be0cd19][i]
  }

  /** The first sixty-four prime numbers. */
  function Prime(t: nat): int
    requires t < 64
  {
    if t < 8 then
      [2, 3, 5, 7, 11, 13, 17, 19][t]
    else if t < 16 then
      [23, 29, 31, 37, 41, 43, 47, 53][t - 8]
    else if t < 24 then
      [59, 61, 67, 71, 73, 79, 83, 89][t - 16]
    else if t < 32 then
      [97, 101, 103, 107, 109, 113, 127, 131][t - 24]
    else if t < 40 then
      [137, 139, 149, 151, 157, 163, 167, 173][t - 32]
    else if t < 48 then
      [179, 181, 191, 193, 197, 199, 211, 223][t - 40]
    else if t < 56 then
      [227, 229, 233, 239, 241, 251, 257, 263][t - 48]
    else [269, 271, 277, 281, 283, 293, 307, 311][t - 56]
  }

  const TWO_32: int := 0x1_0000_0000

  /** The first thirty-two bits of the fractional part of the cube root of p, where n is its integer part. */
  predicate CubeRootFraction(c: int, p: int, n: int) {
    var x := n * TWO_32 + c;
    && 0 <= c < TWO_32
    && n * n * n <= p < (n + 1) * (n + 1) * (n + 1)
    && x * x * x <= p * (TWO_32 * TWO_32 * TWO_32) < (x + 1) * (x + 1) * (x + 1)
  }

  /** The first thirty-two bits of the fractional part of the square root of p, where n is its integer part. */
  predicate SquareRootFraction(c: int, p: int, n: int) {
    var x := n * TWO_32 + c;
    && 0 <= c < TWO_32
    && n * n <= p < (n + 1) * (n + 1)
    && x * x <= p * (TWO_32 * TWO_32) < (x + 1) * (x + 1)
  }

  function CubeRootFloor(p: int): int {
    if p < 8 then 1 else if p < 27 then 2 else if p < 64 then 3 else if p < 125 then 4
    else if p < 216 then 5 else 6
  }

  function SquareRootFloor(p: int): int {
    if p < 4 then 1 else if p < 9 then 2 else if p < 16 then 3 else 4
  }

  ghost predicate CubeRootsIn(lo: nat, hi: nat)
    requires lo <= hi <= 64
    decreases hi - lo
  {
    lo == hi || (CubeRootFraction(K(lo) as int, Prime(lo), CubeRootFloor(Prime(lo))) && CubeRootsIn(lo + 1, hi))
  }

  ghost predicate SquareRootsIn(lo: nat, hi: nat)
    requires lo <= hi <= 8
    decreases hi - lo
  {
    lo == hi
    || (SquareRootFraction(InitialWord(lo) as int, Prime(lo), SquareRootFloor(Prime(lo))) && SquareRootsIn(lo + 1, hi))
  }

  lemma CubeRootAt(lo: nat, hi: nat, t: nat)
    requires lo <= t < hi <= 64 && CubeRootsIn(lo, hi)
    ensures CubeRootFraction(K(t) as int, Prime(t), CubeRootFloor(Prime(t)))
    decreases hi - lo
  {
    if lo < t {
      CubeRootAt(lo + 1, hi, t);
    }
  }

  lemma SquareRootAt(lo: nat, hi: nat, t: nat)
    requires lo <= t < hi <= 8 && SquareRootsIn(lo, hi)
    ensures SquareRootFraction(InitialWord(t) as int, Prime(t), SquareRootFloor(Prime(t)))
    decreases hi - lo
  {
    if lo < t {
      SquareRootAt(lo + 1, hi, t);
    }
  }

  lemma CubeRoots0() ensures CubeRootsIn(0, 8) {}
  lemma CubeRoots8() ensures CubeRootsIn(8, 16) {}
  lemma CubeRoots16() ensures CubeRootsIn(16, 24) {}
  lemma CubeRoots24() ensures CubeRootsIn(24, 32) {}
  lemma CubeRoots32() ensures CubeRootsIn(32, 40) {}
  lemma CubeRoots40() ensures CubeRootsIn(40, 48) {}
  lemma CubeRoots48() ensures CubeRootsIn(48, 56) {}
  lemma CubeRoots56() ensures CubeRootsIn(56, 64) {}

  /** Section 4.2.2: every K_t is the fraction of the cube root of the t-th prime. */
  lemma KIsCubeRootFraction(t: nat)
    requires t < 64
    ensures CubeRootFraction(K(t) as int, Prime(t), CubeRootFloor(Prime(t)))
  {
    if t < 8 { CubeRoots0(); CubeRootAt(0, 8, t); }
    else if t < 16 { CubeRoots8(); CubeRootAt(8, 16, t); }
    else if t < 24 { CubeRoots16(); CubeRootAt(16, 24, t); }
    else if t < 32 { CubeRoots24(); CubeRootAt(24, 32, t); }
    else if t < 40 { CubeRoots32(); CubeRootAt(32, 40, t); }
    else if t < 48 { CubeRoots40(); CubeRootAt(40, 48, t); }
    else if t < 56 { CubeRoots48(); CubeRootAt(48, 56, t); }
    else { CubeRoots56(); CubeRootAt(56, 64, t); }
  }

  /** Section 5.3.3: every H_i is the fraction of the square root of the i-th prime. */
  lemma HIsSquareRootFraction(i: nat)
    requires i < 8
    ensures SquareRootFraction(InitialWord(i) as int, Prime(i), SquareRootFloor(Prime(i)))
  {
    assert SquareRootsIn(0, 8);
    SquareRootAt(0, 8, i);
  }

  // ----- Section 4.1.2: functions on words -----

  // Addition is modulo 2^32.

  function Sum2(a: Word, b: Word): Word { a + b }

  function Sum4(a: Word, b: Word, c: Word, d: Word): Word { a + b + c + d }

  function Sum5(a: Word, b: Word, c: Word, d: Word, e: Word): Word { a + b + c + d + e }

  function Ch(x: Word, y: Word, z: Word): Word { (x & y) ^ (!x & z) }

  function Maj(x: Word, y: Word, z: Word): Word { (x & y) ^ (x & z) ^ (y & z) }

  function BigSigma0(x: Word): Word { x.RotateRight(2) ^ x.RotateRight(13) ^ x.RotateRight(22) }

  function BigSigma1(x: Word): Word { x.RotateRight(6) ^ x.RotateRight(11) ^ x.RotateRight(25) }

  function SmallSigma0(x: Word): Word { x.RotateRight(7) ^ x.RotateRight(18) ^ (x >> 3) }

  function SmallSigma1(x: Word): Word { x.RotateRight(17) ^ x.RotateRight(19) ^ (x >> 10) }

  // ----- Words and bytes, most significant byte first (section 3.1) -----

  function WordOf(b0: Byte, b1: Byte, b2: Byte, b3: Byte): Word {
    ((b0 as Word) << 24) | ((b1 as Word) << 16) | ((b2 as Word) << 8) | (b3 as Word)
  }

  function BytesOf(w: Word): (b: seq<Byte>)
    ensures |b| == 4
  {
    [(w >> 24) as Byte, ((w >> 16) & 0xff) as Byte, ((w >> 8) & 0xff) as Byte, (w & 0xff) as Byte]
  }

  lemma BytesOfRoundTrip(w: Word)
    ensures var b := BytesOf(w); WordOf(b[0], b[1], b[2], b[3]) == w
  {
    var b := BytesOf(w);
    assert b[0] == (w >> 24) as Byte;
  }

  // ----- Section 6.2.2: the compression of one block -----

  /** The eight working variables; also the eight words of a hash value. */
  datatype Registers = Registers(a: Word, b: Word, c: Word, d: Word, e: Word, f: Word, g: Word, h: Word)

  type Block = b: seq<Byte> | |b| == 64 witness seq(64, _ => 0)

  /** W_t from W_(t-16), W_(t-15), W_(t-7) and W_(t-2). */
  function NextWord(w16: Word, w15: Word, w7: Word, w2: Word): Word {
    Sum4(SmallSigma1(w2), w7, SmallSigma0(w15), w16)
  }

  /** W_t: step 1 of section 6.2.2. */
  function Schedule(block: Block, t: nat): Word
    requires t < 64
  {
    if t < 16 then
      WordOf(block[4 * t], block[4 * t + 1], block[4 * t + 2], block[4 * t + 3])
    else
      NextWord(Schedule(block, t - 16), Schedule(block, t - 15), Schedule(block, t - 7), Schedule(block, t - 2))
  }

  lemma ScheduleStep(block: Block, t: nat)
    requires 16 <= t < 64
    ensures Schedule(block, t) == NextWord(Schedule(block, t - 16), Schedule(block, t - 15),
                                           Schedule(block, t - 7), Schedule(block, t - 2))
  {
    hide NextWord;
  }

  lemma ScheduleStart(block: Block, t: nat)
    requires t < 16
    ensures Schedule(block, t) == WordOf(block[t * 4], block[t * 4 + 1], block[t * 4 + 2], block[t * 4 + 3])
  {
    hide WordOf;
  }

  /** Step 3 of section 6.2.2 for one t. */
  function Round(r: Registers, k: Word, w: Word): Registers {
    var t1 := Sum5(r.h, BigSigma1(r.e), Ch(r.e, r.f, r.g), k, w);
    var t2 := Sum2(BigSigma0(r.a), Maj(r.a, r.b, r.c));
    Registers(Sum2(t1, t2), r.a, r.b, r.c, Sum2(r.d, t1), r.e, r.f, r.g)
  }

  function Rounds(r: Registers, block: Block, t: nat): Registers
    requires t <= 64
  {
    if t == 0 then r else Round(Rounds(r, block, t - 1), K(t - 1), Schedule(block, t - 1))
  }

  /** Step 4 of section 6.2.2. */
  function AddRegisters(r: Registers, v: Registers): Registers {
    Registers(Sum2(r.a, v.a), Sum2(r.b, v.b), Sum2(r.c, v.c), Sum2(r.d, v.d),
              Sum2(r.e, v.e), Sum2(r.f, v.f), Sum2(r.g, v.g), Sum2(r.h, v.h))
  }

  function Compress(v: Registers, block: Block): Registers {
    AddRegisters(Rounds(v, block, |block|), v)
  }

  // ----- Sections 5.1.1, 5.2.1, 5.3.3 and 6.2: the whole message -----

  function InitialHash(): Registers {
    Registers(InitialWord(0), InitialWord(1), InitialWord(2), InitialWord(3),
              InitialWord(4), InitialWord(5), InitialWord(6), InitialWord(7))
  }

  /** The hash value after every block of a message of whole blocks. */
  function Absorb(m: seq<Byte>): Registers
    requires |m| % 64 == 0
  {
    if m == [] then InitialHash() else Compress(Absorb(m[..|m| - 64]), m[|m| - 64..])
  }

  lemma AbsorbNothing()
    ensures Absorb([]) == InitialHash()
  {
    hide Compress;
  }

  lemma AbsorbBlock(m: seq<Byte>, block: Block)
    requires |m| % 64 == 0
    ensures (|m| + 64) % 64 == 0 && Absorb(m + block) == Compress(Absorb(m), block)
  {
    assert (m + block)[..|m|] == m && (m + block)[|m|..] == block;
  }

  /** The number of zero bytes between the 0x80 byte and the length field. */
  function ZeroBytes(n: nat): nat {
    (119 - n % 64) % 64
  }

  /** k is the smallest number of zero bytes that leaves eight bytes free in the last block. */
  lemma ZeroBytesIsSmallest(n: nat, k: nat)
    ensures (n + 1 + ZeroBytes(n)) % 64 == 56
    ensures (n + 1 + k) % 64 == 56 ==> ZeroBytes(n) <= k
  {
    var r := n % 64;
    assert n == 64 * (n / 64) + r;
    if r <= 55 {
      assert ZeroBytes(n) == 55 - r;
      if k < 55 - r { assert (n + 1 + k) % 64 == r + 1 + k; }
    } else {
      assert ZeroBytes(n) == 119 - r;
      if k < 64 - r - 1 { assert (n + 1 + k) % 64 == r + 1 + k; }
      else if k < 119 - r { assert (n + 1 + k) % 64 == r + 1 + k - 64; }
    }
  }

  /** The padded message; bits is the content of its length field. */
  function Padded(m: seq<Byte>, bits: nat): (p: seq<Byte>)
    ensures |p| % 64 == 0
  {
    m + [0x80] + Zeros(ZeroBytes(|m|)) + BigEndian(bits, 8)
  }

  function Words(v: Registers): seq<Word> {
    [v.a, v.b, v.c, v.d, v.e, v.f, v.g, v.h]
  }

  function Serialize(ws: seq<Word>): (s: seq<Byte>)
    ensures |s| == 4 * |ws|
  {
    if ws == [] then [] else Serialize(ws[..|ws| - 1]) + BytesOf(ws[|ws| - 1])
  }

  lemma SerializeNothing()
    ensures Serialize([]) == []
  {
  }

  lemma SerializeNext(ws: seq<Word>, i: nat)
    requires i < |ws|
    ensures Serialize(ws[..i + 1]) == Serialize(ws[..i]) + BytesOf(ws[i])
  {
    assert ws[..i + 1][..i] == ws[..i];
  }

  /** The hash of a message whose length field reads bits. */
  function DigestWith(m: seq<Byte>, bits: nat): seq<Byte> {
    Serialize(Words(Absorb(Padded(m, bits))))
  }

  /** SHA-256 of a message whose bit length fits the length field. */
  function Digest(m: seq<Byte>): seq<Byte>
    requires 8 * |m| < 0x1_0000_0000_0000_0000
  {
    DigestWith(m, 8 * |m|)
  }
}
