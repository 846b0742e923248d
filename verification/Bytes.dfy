/** The value of a byte. */
module Octet {

  lemma ByteValue(x: nat)
    requires x < 256
    ensures (x as bv8) as nat == x
  {
  }

  lemma ValueByte(b: bv8)
    ensures (b as nat) as bv8 == b
  {
  }
}

/** Bytes, and numbers written as bytes. */
module Bytes {

  import opened Arithmetic
  import opened Octet

  type Byte = bv8

  const TWO_32: nat := 0x1_0000_0000

  const TWO_64: nat := 0x1_0000_0000_0000_0000

  function Power256(i: nat): nat {
    if i == 0 then 1 else 256 * Power256(i - 1)
  }

  /** The bytes are the ASCII codes of the text. */
  ghost predicate IsAscii(b: seq<Byte>, text: string) {
    |b| == |text| && forall i | 0 <= i < |b| :: b[i] as int == text[i] as int
  }

  function Zeros(k: nat): (z: seq<Byte>)
    ensures |z| == k
  {
    seq(k, _ => 0)
  }

  /** The low w bytes of v, most significant first. */
  function BigEndian(v: nat, w: nat): (s: seq<Byte>)
    ensures |s| == w
  {
    if w == 0 then [] else BigEndian(v / 256, w - 1) + [(v % 256) as Byte]
  }

  function FromBigEndian(s: seq<Byte>): nat {
    if s == [] then 0 else 256 * FromBigEndian(s[..|s| - 1]) + s[|s| - 1] as nat
  }

  lemma {:induction false} BigEndianRoundTrip(v: nat, w: nat)
    requires v < Power256(w)
    ensures FromBigEndian(BigEndian(v, w)) == v
  {
    if w > 0 {
      var s := BigEndian(v / 256, w - 1);
      var last := (v % 256) as Byte;
      ByteValue(v % 256);
      BigEndianRoundTrip(v / 256, w - 1);
      assert (s + [last])[..w - 1] == s;
    }
  }

  lemma PowerPositive(i: nat)
    ensures Power256(i) > 0
  {
  }

  /** Each byte is one shift and truncation of v. */
  lemma {:induction false} BigEndianAt(v: nat, w: nat, i: nat)
    requires i < w
    ensures Power256(w - 1 - i) > 0
    ensures BigEndian(v, w)[i] == (v / Power256(w - 1 - i) % 256) as Byte
  {
    PowerPositive(w - 1 - i);
    if i < w - 1 {
      PowerPositive(w - 2 - i);
      BigEndianAt(v / 256, w - 1, i);
      DivideTwice(v, Power256(w - 2 - i));
    }
  }

  /** Least significant byte first. */
  function FromLittleEndian(s: seq<Byte>): nat {
    if s == [] then 0 else s[0] as nat + 256 * FromLittleEndian(s[1..])
  }
}
