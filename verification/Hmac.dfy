/** HMAC-SHA256 as src/common/admission.c builds it from the streaming digest, against section 2 of RFC 2104. */
module Hmac {

  import opened Bytes
  import opened Sha256Spec
  import opened Sha256

  const BLOCK: nat := 64

  const LONG: nat := 0x2000_0000_0000_0000

  /** The key filled up with zeros to one block; a longer key is hashed first. */
  function BlockKey(key: seq<Byte>): (k: seq<Byte>)
    requires |key| < LONG
    ensures |k| == BLOCK
  {
    DigestLength(key);
    var short := if |key| > BLOCK then Digest(key) else key;
    short + Zeros(BLOCK - |short|)
  }

  function Masked(k: seq<Byte>, mask: Byte): seq<Byte> {
    seq(|k|, i requires 0 <= i < |k| => k[i] ^ mask)
  }

  /** H((K ^ opad) || H((K ^ ipad) || text)). */
  function HmacOf(key: seq<Byte>, text: seq<Byte>): seq<Byte>
    requires |key| < LONG && BLOCK + |text| < LONG
  {
    DigestLength(Masked(BlockKey(key), 0x36) + text);
    Digest(Masked(BlockKey(key), 0x5c) + Digest(Masked(BlockKey(key), 0x36) + text))
  }

  /**
   * RFC 2104, section 2, byte by byte: for a key of at most one block, the inner and outer blocks are the key filled up
   * with zeros, xor 0x36 and xor 0x5c.
   */
  lemma HmacIs(key: seq<Byte>, text: seq<Byte>, inner: seq<Byte>, outer: seq<Byte>)
    requires |key| <= 64 == |inner| == |outer| && |text| + 64 < LONG
    requires forall i | 0 <= i < 64 :: inner[i] == (if i < |key| then key[i] else 0) ^ 0x36
    requires forall i | 0 <= i < 64 :: outer[i] == (if i < |key| then key[i] else 0) ^ 0x5c
    ensures |Digest(inner + text)| == 32 && HmacOf(key, text) == Digest(outer + Digest(inner + text))
  {
    hide Digest;
    DigestLength(inner + text);
    assert Masked(BlockKey(key), 0x36) == inner && Masked(BlockKey(key), 0x5c) == outer;
  }

  /** A longer key stands for its digest. */
  lemma LongKey(key: seq<Byte>, text: seq<Byte>)
    requires 64 < |key| < LONG && |text| + 64 < LONG
    ensures |Digest(key)| == 32 && HmacOf(key, text) == HmacOf(Digest(key), text)
  {
    hide Digest;
    DigestLength(key);
    assert BlockKey(key) == BlockKey(Digest(key));
  }

  lemma DigestLength(m: seq<Byte>)
    requires |m| < LONG
    ensures |Digest(m)| == 32
  {
  }

  /** Two update calls hash the concatenation. */
  method HashTwo(a: seq<Byte>, b: seq<Byte>) returns (d: seq<Byte>)
    requires |a| + |b| < LONG
    ensures d == Digest(a + b)
  {
    hide Digest;
    d := HashPieces([a, b]);
    assert [a, b][..1] == [a] && [a][..0] == [];
    assert [] + a == a && Concat([a]) == a;
    assert Concat([a, b]) == a + b;
  }

  /** adm_hmac, for keys and messages a 64-bit bit count can measure. */
  method AdmHmac(key: seq<Byte>, msg: seq<Byte>) returns (mac: seq<Byte>)
    requires |key| < LONG && BLOCK + |msg| < LONG
    ensures mac == HmacOf(key, msg)
  {
    hide Digest;
    var short := key;
    if |key| > BLOCK {
      var out := new Byte[32];
      OneShot(key, out);
      StreamDigestIsDigest(key);
      short := out[..];
    }
    var k := short + seq(BLOCK - |short|, i => 0);
    assert k == BlockKey(key);
    var ipad, opad := new Byte[BLOCK], new Byte[BLOCK];
    for i := 0 to BLOCK
      invariant forall j | 0 <= j < i :: ipad[j] == k[j] ^ 0x36 && opad[j] == k[j] ^ 0x5c
    {
      ipad[i], opad[i] := k[i] ^ 0x36, k[i] ^ 0x5c;
    }
    assert ipad[..] == Masked(k, 0x36) && opad[..] == Masked(k, 0x5c);
    var inner := HashTwo(ipad[..], msg);
    DigestLength(ipad[..] + msg);
    mac := HashTwo(opad[..], inner);
  }
}
