/** The streaming context of include/idletoken_sha256.h, proved against Sha256Spec. */
module Sha256 {

  import opened Bytes
  import opened Sha256Spec

  // The rotations of the source are two shifts and an or; those of the standard rotate.

  lemma ScheduleSigmas(x: Word)
    ensures ((x >> 7) | (x << 25)) ^ ((x >> 18) | (x << 14)) ^ (x >> 3) == SmallSigma0(x)
    ensures ((x >> 17) | (x << 15)) ^ ((x >> 19) | (x << 13)) ^ (x >> 10) == SmallSigma1(x)
  {
  }

  lemma RoundSigmas(x: Word)
    ensures ((x >> 2) | (x << 30)) ^ ((x >> 13) | (x << 19)) ^ ((x >> 22) | (x << 10)) == BigSigma0(x)
    ensures ((x >> 6) | (x << 26)) ^ ((x >> 11) | (x << 21)) ^ ((x >> 25) | (x << 7)) == BigSigma1(x)
  {
  }

  lemma SumOrder(a: Word, b: Word, c: Word, d: Word)
    ensures Sum4(a, b, c, d) == Sum4(d, c, b, a)
  {
  }

  /** One step of the loop that extends the message schedule. */
  method ExtendSchedule(w16: Word, w15: Word, w7: Word, w2: Word) returns (w: Word)
    ensures w == NextWord(w16, w15, w7, w2)
  {
    var s0 := ((w15 >> 7) | (w15 << 25)) ^ ((w15 >> 18) | (w15 << 14)) ^ (w15 >> 3);
    var s1 := ((w2 >> 17) | (w2 << 15)) ^ ((w2 >> 19) | (w2 << 13)) ^ (w2 >> 10);
    ScheduleSigmas(w15);
    ScheduleSigmas(w2);
    SumOrder(w16, s0, w7, s1);
    w := Sum4(w16, s0, w7, s1);
  }

  /** t1 of one round. */
  method FirstTemporary(r: Registers, k: Word, w: Word) returns (t1: Word)
    ensures t1 == Sum5(r.h, BigSigma1(r.e), Ch(r.e, r.f, r.g), k, w)
  {
    var e, f, g := r.e, r.f, r.g;
    var S1 := ((e >> 6) | (e << 26)) ^ ((e >> 11) | (e << 21)) ^ ((e >> 25) | (e << 7));
    var ch := (e & f) ^ (!e & g);
    RoundSigmas(e);
    t1 := Sum5(r.h, S1, ch, k, w);
  }

  /** t2 of one round. */
  method SecondTemporary(r: Registers) returns (t2: Word)
    ensures t2 == Sum2(BigSigma0(r.a), Maj(r.a, r.b, r.c))
  {
    var a, b, cc := r.a, r.b, r.c;
    var S0 := ((a >> 2) | (a << 30)) ^ ((a >> 13) | (a << 19)) ^ ((a >> 22) | (a << 10));
    var maj := (a & b) ^ (a & cc) ^ (b & cc);
    RoundSigmas(a);
    t2 := Sum2(S0, maj);
  }

  /** One step of the loop over the working variables, which are shifted one after the other. */
  method StepRegisters(r: Registers, k: Word, w: Word) returns (r': Registers)
    ensures r' == Round(r, k, w)
  {
    hide Sum2;
    hide Sum5;
    hide BigSigma0;
    hide BigSigma1;
    hide Ch;
    hide Maj;
    var t1 := FirstTemporary(r, k, w);
    var t2 := SecondTemporary(r);
    var Registers(a, b, cc, d, e, f, g, h) := r;
    h := g; g := f; f := e; e := Sum2(d, t1); d := cc; cc := b; b := a; a := Sum2(t1, t2);
    r' := Registers(a, b, cc, d, e, f, g, h);
  }

  /** The message schedule w[64] of one block. */
  method FillSchedule(p: array<Byte>) returns (w: array<Word>)
    requires p.Length == 64
    ensures fresh(w) && w.Length == 64
    ensures forall j | 0 <= j < p.Length :: w[j] == Schedule(p[..], j)
  {
    hide NextWord;
    hide WordOf;
    hide Schedule;
    ghost var block: Block := p[..];
    w := new Word[64];
    for i := 0 to 16
      invariant forall j | 0 <= j < i :: w[j] == Schedule(block, j)
    {
      ScheduleStart(block, i);
      w[i] := WordOf(p[i*4], p[i*4+1], p[i*4+2], p[i*4+3]);
    }
    for i := 16 to w.Length
      invariant forall j | 0 <= j < i :: w[j] == Schedule(block, j)
    {
      ScheduleStep(block, i);
      var x := ExtendSchedule(w[i-16], w[i-15], w[i-7], w[i-2]);
      w[i] := x;
    }
  }

  /** The sixty-four rounds of one block. */
  method RunRounds(v: Registers, w: array<Word>, ghost block: Block) returns (r: Registers)
    requires w.Length == 64 && forall j | 0 <= j < w.Length :: w[j] == Schedule(block, j)
    ensures r == Rounds(v, block, |block|)
  {
    hide Round;
    hide Schedule;
    hide K;
    r := v;
    for i := 0 to w.Length
      invariant r == Rounds(v, block, i)
    {
      r := StepRegisters(r, K(i), w[i]);
    }
  }

  lemma LengthWraps(a: nat, n: nat)
    ensures (a % TWO_64 + n) % TWO_64 == (a + n) % TWO_64
  {
    assert a == a / TWO_64 * TWO_64 + a % TWO_64;
  }

  lemma Prefixes(before: seq<Byte>, data: seq<Byte>, p: nat, q: nat)
    requires p <= q <= |data|
    ensures before + data[..p] + data[p..q] == before + data[..q]
  {
  }

  lemma OneMoreZero(before: seq<Byte>, k: nat)
    ensures before + Zeros(k) + [0] == before + Zeros(k + 1)
  {
  }

  lemma BitsWrap(n: nat)
    ensures (n % TWO_64) * 8 % TWO_64 == 8 * n % TWO_64
  {
    assert n == n / TWO_64 * TWO_64 + n % TWO_64;
  }

  /** What the streaming form computes for a message of any length: the length field wraps. */
  function StreamDigest(m: seq<Byte>): seq<Byte> {
    DigestWith(m, 8 * |m| % TWO_64)
  }

  /** Below 2^61 bytes that is the digest of the standard. */
  lemma StreamDigestIsDigest(m: seq<Byte>)
    requires |m| < 0x2000_0000_0000_0000
    ensures StreamDigest(m) == Digest(m)
  {
    assert 8 * |m| % TWO_64 == 8 * |m|;
  }

  /** One turn of the loop that writes the digest. */
  method StoreWord(w: Word, out: array<Byte>, i: nat)
    requires 4 * i + 4 <= out.Length
    modifies out
    ensures out[..4 * (i + 1)] == old(out[..4 * i]) + BytesOf(w)
  {
    hide BytesOf;
    var b := BytesOf(w);
    out[i * 4], out[i * 4 + 1], out[i * 4 + 2], out[i * 4 + 3] := b[0], b[1], b[2], b[3];
  }

  class Context {
    const h: array<Word>
    var len: nat           // a uint64_t
    const buf: array<Byte>
    var bufLen: nat
    ghost var done: seq<Byte>  // the bytes already compressed into h: whole blocks

    ghost predicate Shape()
      reads this
    {
      h.Length == 8 && buf.Length == 64 && bufLen <= 64
    }

    ghost function Hash(): Registers
      requires h.Length == 8
      reads h
    {
      Registers(h[0], h[1], h[2], h[3], h[4], h[5], h[6], h[7])
    }

    /** Every byte absorbed so far. */
    ghost function Message(): seq<Byte>
      requires Shape()
      reads this, buf
    {
      done + buf[..bufLen]
    }

    /** h is the fold of the compression over the complete blocks; the rest waits in the buffer. */
    ghost predicate Folded()
      reads this, h, buf
    {
      && Shape()
      && bufLen < 64
      && |done| % 64 == 0
      && Hash() == Absorb(done)
    }

    ghost predicate Valid()
      reads this, h, buf
    {
      Folded() && len == |Message()| % TWO_64
    }

    constructor ()
      ensures Valid() && Message() == [] && fresh(h) && fresh(buf)
    {
      hide Absorb;
      h := new Word[8];
      buf := new Byte[64];
      len, bufLen := 0, 0;
      done := [];
      new;
      h[0], h[1], h[2], h[3] := InitialWord(0), InitialWord(1), InitialWord(2), InitialWord(3);
      h[4], h[5], h[6], h[7] := InitialWord(4), InitialWord(5), InitialWord(6), InitialWord(7);
      AbsorbNothing();
    }

    /** The feed-forward at the end of a block. */
    method AddBack(r: Registers)
      requires h.Length == 8
      modifies h
      ensures Hash() == AddRegisters(r, old(Hash()))
    {
      hide Sum2;
      h[0] := Sum2(r.a, h[0]);
      h[1] := Sum2(r.b, h[1]);
      h[2] := Sum2(r.c, h[2]);
      h[3] := Sum2(r.d, h[3]);
      h[4] := Sum2(r.e, h[4]);
      h[5] := Sum2(r.f, h[5]);
      h[6] := Sum2(r.g, h[6]);
      h[7] := Sum2(r.h, h[7]);
    }

    /** idletoken_sha256_block: one compression, in place. */
    method BlockInPlace(p: array<Byte>)
      requires h.Length == 8 && p.Length == 64
      modifies h
      ensures Hash() == Compress(old(Hash()), old(p[..]))
    {
      hide Rounds;
      hide AddRegisters;
      hide Schedule;
      var v := Registers(h[0], h[1], h[2], h[3], h[4], h[5], h[6], h[7]);
      var w := FillSchedule(p);
      var r := RunRounds(v, w, p[..]);
      AddBack(r);
    }
  
    /** The memcpy of the chunking loop. */
    method Append(chunk: seq<Byte>)
      requires buf.Length == 64 && bufLen + |chunk| <= 64
      modifies this`bufLen, buf
      ensures bufLen == old(bufLen) + |chunk| && buf[..bufLen] == old(buf[..bufLen]) + chunk
    {
      forall j | 0 <= j < |chunk| {
        buf[bufLen + j] := chunk[j];
      }
      bufLen := bufLen + |chunk|;
    }

    /** Compress a full buffer. */
    method Drain()
      requires Shape() && bufLen == 64 && |done| % 64 == 0 && Hash() == Absorb(done)
      modifies this`bufLen, this`done, h
      ensures Folded() && Message() == old(Message())
    {
      hide Compress;
      ghost var block: Block := buf[..];
      assert Message() == done + block;
      BlockInPlace(buf);
      AbsorbBlock(done, block);
      done := done + block;
      bufLen := 0;
      assert Message() == done;
    }

    /** One pass of the chunking loop. */
    method Feed(chunk: seq<Byte>)
      requires Folded() && |chunk| <= 64 - bufLen
      modifies this`bufLen, this`done, h, buf
      ensures Folded() && Message() == old(Message()) + chunk
    {
      hide Absorb;
      Append(chunk);
      assert Message() == old(Message()) + chunk;
      if bufLen == 64 {
        Drain();
      }
    }

    /** The chunking loop of idletoken_sha256_update. */
    method FeedAll(data: seq<Byte>)
      requires Folded()
      modifies this`bufLen, this`done, h, buf
      ensures Folded() && Message() == old(Message()) + data
    {
      hide Absorb;
      ghost var before, m := Message(), Message();
      var p, n := 0, |data|;
      assert before + data[..p] == before;
      while n > 0
        invariant 0 <= p <= |data| && n == |data| - p
        invariant Folded() && Message() == m
        invariant m == before + data[..p]
      {
        var take := 64 - bufLen;
        if take > n { take := n; }
        Feed(data[p..p + take]);
        Prefixes(before, data, p, p + take);
        m := m + data[p..p + take];
        p, n := p + take, n - take;
      }
      assert data[..p] == data;
    }

    method Update(data: seq<Byte>)
      requires Valid()
      modifies this`len, this`bufLen, this`done, h, buf
      ensures Valid() && Message() == old(Message()) + data
    {
      hide Absorb;
      ghost var before := Message();
      LengthWraps(|before|, |data|);
      len := (len + |data|) % TWO_64;
      FeedAll(data);
      assert |Message()| == |before| + |data|;
    }
  
    /** The length field: eight bytes, most significant first. */
    static method LengthField(bits: nat) returns (lenbe: array<Byte>)
      ensures fresh(lenbe) && lenbe[..] == BigEndian(bits, lenbe.Length) && lenbe.Length == 8
    {
      lenbe := new Byte[8];
      for i := 0 to lenbe.Length
        invariant forall j | 0 <= j < i :: lenbe[j] == BigEndian(bits, lenbe.Length)[j]
      {
        BigEndianAt(bits, lenbe.Length, i);
        lenbe[i] := (bits / Power256(lenbe.Length - 1 - i) % 256) as Byte;
      }
    }

    lemma BufferPhase()
      requires Folded()
      ensures bufLen == |Message()| % 64
    {
      hide Absorb;
      assert |Message()| == |done| + bufLen;
    }

    /** The zero-padding loop: the fill level walks modulo 64 until it reaches 56. */
    method PadZeros(ghost n: nat)
      requires Valid() && |Message()| == n + 1
      modifies this`len, this`bufLen, this`done, h, buf
      ensures Valid() && Message() == old(Message()) + Zeros(ZeroBytes(n))
    {
      hide Absorb;
      ghost var before, m, k := Message(), Message(), 0;
      assert before + Zeros(k) == before;
      while bufLen != 56
        invariant Valid() && Message() == m
        invariant m == before + Zeros(k)
        invariant k <= ZeroBytes(n)
        decreases ZeroBytes(n) - k
      {
        BufferPhase();
        ZeroBytesIsSmallest(n, k);
        Update([0]);
        OneMoreZero(before, k);
        m, k := m + [0], k + 1;
      }
      BufferPhase();
      ZeroBytesIsSmallest(n, k);
    }

    /** The digest, word by word, most significant byte first. */
    method Store(out: array<Byte>)
      requires h.Length == 8 && out.Length == 32
      modifies out
      ensures out[..] == Serialize(Words(Hash()))
    {
      hide Serialize;
      ghost var ws := h[..];
      assert ws == Words(Hash());
      SerializeNothing();
      for i := 0 to h.Length
        invariant h[..] == ws && out[..4 * i] == Serialize(ws[..i])
      {
        StoreWord(h[i], out, i);
        SerializeNext(ws, i);
      }
      assert ws[..8] == ws && out[..32] == out[..];
    }

    /** The padding uses the length as it was before any padding byte. */
    method Final(out: array<Byte>)
      requires Valid() && out.Length == 32 && out != buf
      modifies this`len, this`bufLen, this`done, h, buf, out
      ensures out[..] == StreamDigest(old(Message()))
    {
      hide Absorb;
      hide Serialize;
      hide Words;
      hide BigEndian;
      ghost var m := Message();
      var bits := len * 8 % TWO_64;
      BitsWrap(|m|);
      Update([0x80]);
      PadZeros(|m|);
      var lenbe := LengthField(bits);
      Update(lenbe[..]);
      assert Message() == Padded(m, bits);
      BufferPhase();
      assert buf[..bufLen] == [];
      assert done == Padded(m, bits);
      Store(out);
    }
  }

  function Concat(pieces: seq<seq<Byte>>): seq<Byte> {
    if pieces == [] then [] else Concat(pieces[..|pieces| - 1]) + pieces[|pieces| - 1]
  }

  /** Any sequence of update calls between init and final. */
  method HashPieces(pieces: seq<seq<Byte>>) returns (digest: seq<Byte>)
    ensures digest == StreamDigest(Concat(pieces))
    ensures |Concat(pieces)| < 0x2000_0000_0000_0000 ==> digest == Digest(Concat(pieces))
  {
    hide Absorb;
    hide DigestWith;
    var c := new Context();
    for i := 0 to |pieces|
      invariant c.Valid() && fresh(c) && fresh(c.h) && fresh(c.buf)
      invariant c.Message() == Concat(pieces[..i])
    {
      c.Update(pieces[i]);
      assert pieces[..i + 1][..i] == pieces[..i];
    }
    assert pieces[..|pieces|] == pieces;
    var out := new Byte[32];
    c.Final(out);
    digest := out[..];
    if |Concat(pieces)| < 0x2000_0000_0000_0000 {
      StreamDigestIsDigest(Concat(pieces));
    }
  }

  /** The one-shot idletoken_sha256. */
  method OneShot(data: seq<Byte>, out: array<Byte>)
    requires out.Length == 32
    modifies out
    ensures out[..] == StreamDigest(data)
  {
    hide Absorb;
    var c := new Context();
    c.Update(data);
    assert [] + data == data;
    c.Final(out);
  }
}
