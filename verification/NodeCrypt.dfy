/**
 * Counter-nonce framing of one link: include/idletoken_nodecrypt.h and src/common/nodecrypt.c.
 * The authenticated cipher is ideal: a ciphertext opens only under the key and the nonce it was
 * sealed with.
 */
module NodeCrypt {

  import opened Bytes
  import opened Options

  type Key = seq<Byte>
  type Plain = seq<Byte>

  const CTR_BYTES: nat := 8
  const MAC_BYTES: nat := 16
  const OVERHEAD: nat := 24

  // ----- The ideal cipher -----

  datatype Cipher = Sealed(key: Key, nonce: seq<Byte>, plain: Plain) | Junk(length: nat) {
    function Length(): nat {
      if Sealed? then |plain| + MAC_BYTES else length
    }
  }

  /** idletoken_cipher_decrypt into a buffer of cap bytes. */
  function Open(c: Cipher, key: Key, nonce: seq<Byte>, cap: nat): Option<Plain> {
    if c.Sealed? && c.key == key && c.nonce == nonce && |c.plain| <= cap then Some(c.plain) else None
  }

  // ----- Nonces -----

  /** "ITNC" */
  const TAG: seq<Byte> := [0x49, 0x54, 0x4e, 0x43]

  /** "ITNC" | sender | receiver | 10 zero bytes | counter, big-endian. */
  function Nonce(sender: Byte, receiver: Byte, ctr: nat): (n: seq<Byte>)
    ensures |n| == 24
  {
    TAG + [sender, receiver] + Zeros(10) + BigEndian(ctr, CTR_BYTES)
  }

  /** The counter shifted right by i bytes, cut to a byte. */
  function CounterByte(ctr: nat, i: nat): (b: Byte)
    requires i < CTR_BYTES
    ensures b == BigEndian(ctr, CTR_BYTES)[CTR_BYTES - 1 - i]
  {
    BigEndianAt(ctr, CTR_BYTES, CTR_BYTES - 1 - i);
    (ctr / Power256(i) % 256) as Byte
  }

  /** nc_nonce, byte by byte. */
  method BuildNonce(sender: Byte, receiver: Byte, ctr: nat) returns (nonce: array<Byte>)
    ensures fresh(nonce) && nonce[..] == Nonce(sender, receiver, ctr)
  {
    hide BigEndian;
    hide Nonce;
    hide CounterByte;
    nonce := new Byte[24](_ => 0);
    nonce[0], nonce[1], nonce[2], nonce[3] := 0x49, 0x54, 0x4e, 0x43;
    nonce[4] := sender;
    nonce[5] := receiver;
    ghost var be := BigEndian(ctr, CTR_BYTES);
    for i := 0 to CTR_BYTES
      invariant nonce[..6] == TAG + [sender, receiver]
      invariant forall j | 6 <= j < 16 :: nonce[j] == 0
      invariant forall j | 24 - i <= j < 24 :: nonce[j] == be[j - 16]
    {
      nonce[24 - 1 - i] := CounterByte(ctr, i);
    }
    NonceIs(sender, receiver, ctr, nonce[..]);
  }

  lemma NonceIs(sender: Byte, receiver: Byte, ctr: nat, s: seq<Byte>)
    requires |s| == 24 && s[..6] == TAG + [sender, receiver]
    requires forall j | 6 <= j < 16 :: s[j] == 0
    requires forall j | 16 <= j < 24 :: s[j] == BigEndian(ctr, CTR_BYTES)[j - 16]
    ensures s == Nonce(sender, receiver, ctr)
  {
    hide BigEndian;
    assert s[6..16] == Zeros(10) && s[16..] == BigEndian(ctr, CTR_BYTES);
    assert s == s[..6] + s[6..16] + s[16..];
  }

  /** nc_put_u64. */
  method PutU64(v: nat) returns (p: array<Byte>)
    ensures fresh(p) && p[..] == BigEndian(v, CTR_BYTES)
  {
    hide BigEndian;
    p := new Byte[8];
    for i := 0 to CTR_BYTES
      invariant forall j | 0 <= j < i :: p[j] == BigEndian(v, CTR_BYTES)[j]
    {
      BigEndianAt(v, CTR_BYTES, i);
      p[i] := (v / Power256(CTR_BYTES - 1 - i) % 256) as Byte;
    }
  }

  /** nc_get_u64: shift in one byte after the other. */
  method GetU64(p: seq<Byte>) returns (v: nat)
    requires |p| == CTR_BYTES
    ensures v == FromBigEndian(p)
  {
    v := 0;
    for i := 0 to CTR_BYTES
      invariant v == FromBigEndian(p[..i])
    {
      assert p[..i + 1][..i] == p[..i];
      v := 256 * v + p[i] as nat;
    }
    assert p[..8] == p;
  }

  lemma CounterRoundTrip(ctr: nat)
    requires ctr < TWO_64
    ensures FromBigEndian(BigEndian(ctr, CTR_BYTES)) == ctr
  {
    assert Power256(8) == TWO_64;
    BigEndianRoundTrip(ctr, CTR_BYTES);
  }

  /** A nonce determines the link, its direction and the counter. */
  lemma NonceInjective(s: Byte, r: Byte, c: nat, s': Byte, r': Byte, c': nat)
    requires c < TWO_64 && c' < TWO_64 && Nonce(s, r, c) == Nonce(s', r', c')
    ensures s == s' && r == r' && c == c'
  {
    hide BigEndian;
    assert s == Nonce(s, r, c)[4] && r == Nonce(s, r, c)[5];
    assert BigEndian(c, CTR_BYTES) == Nonce(s, r, c)[16..];
    assert BigEndian(c', CTR_BYTES) == Nonce(s', r', c')[16..];
    CounterRoundTrip(c);
    CounterRoundTrip(c');
  }

  /** The 24 bytes, as the header lays them out: "ITNC", both ids, ten zeros, and the counter big-endian. */
  lemma NonceLayout(sender: Byte, receiver: Byte, ctr: nat)
    requires ctr < TWO_64
    ensures var n := Nonce(sender, receiver, ctr);
      && |n| == 24 && (forall i | 0 <= i < 4 :: n[i] as int == "ITNC"[i] as int)
      && n[4] == sender && n[5] == receiver && (forall i | 6 <= i < 16 :: n[i] == 0)
      && FromBigEndian(n[16..]) == ctr
  {
    hide BigEndian;
    hide FromBigEndian;
    CounterRoundTrip(ctr);
    var n := Nonce(sender, receiver, ctr);
    assert n[16..] == BigEndian(ctr, CTR_BYTES);
    assert n[0] == 0x49 && n[1] == 0x54 && n[2] == 0x4e && n[3] == 0x43;
  }

  // ----- The state of one link -----

  /** What arrives on the wire: the counter in the clear, then the ciphertext. */
  datatype Bytestring = Frame(header: seq<Byte>, body: Cipher) {
    function Length(): nat {
      |header| + body.Length()
    }
  }

  /** The header is the first eight bytes of anything long enough to be looked at. */
  type Frame = f: Bytestring | |f.header| == CTR_BYTES || f.Length() < OVERHEAD
    witness Bytestring.Frame([], Junk(0))

  datatype Link = Link(key: Key, sendCtr: nat, recvHwm: nat, myId: Byte, peerId: Byte, ready: bool)

  datatype Rc = OK | EINVAL | EAUTH | EREPLAY

  datatype Wrapped = Wrapped(rc: Rc, link: Link, frame: Option<Frame>)
  datatype Unwrapped = Unwrapped(rc: Rc, link: Link, plain: Option<Plain>)

  /** A link bound to a key. */
  function Fresh(key: Key, myId: Byte, peerId: Byte): Link {
    Link(key, 1, 0, myId, peerId, true)
  }

  function WrapStep(l: Link, plain: Plain, cap: nat): Wrapped {
    if !l.ready || cap < |plain| + OVERHEAD then Wrapped(EINVAL, l, None)
    else
      var box := Sealed(l.key, Nonce(l.myId, l.peerId, l.sendCtr), plain);
      Wrapped(OK, l.(sendCtr := (l.sendCtr + 1) % TWO_64), Some(Bytestring.Frame(BigEndian(l.sendCtr, CTR_BYTES), box)))
  }

  function UnwrapStep(l: Link, f: Frame, cap: nat): Unwrapped {
    if !l.ready || f.Length() < OVERHEAD then Unwrapped(EINVAL, l, None)
    else
      var ctr := FromBigEndian(f.header);
      if ctr <= l.recvHwm then Unwrapped(EREPLAY, l, None)
      else
        match Open(f.body, l.key, Nonce(l.peerId, l.myId, ctr), cap)
        case None => Unwrapped(EAUTH, l, None)
        case Some(p) => Unwrapped(OK, l.(recvHwm := ctr), Some(p))
  }

  /** A link that is not ready, or a buffer without 24 bytes to spare, is refused; anything else is framed. */
  lemma WrapAnswers(l: Link, plain: Plain, cap: nat)
    ensures var w := WrapStep(l, plain, cap);
      && (w.rc == OK <==> l.ready && |plain| + 24 <= cap)
      && (w.rc != OK ==> w == Wrapped(EINVAL, l, None))
      && (w.rc == OK ==> w.frame.Some? && w.frame.value.Length() == |plain| + 24)
  {
    hide Nonce;
    hide BigEndian;
  }

  /** A delivery is answered by the first check it fails, and only one that passes all moves anything. */
  lemma UnwrapAnswers(l: Link, f: Frame, cap: nat)
    ensures var u, ctr := UnwrapStep(l, f, cap), FromBigEndian(f.header);
      && (u.rc == EINVAL <==> !l.ready || f.Length() < 24)
      && (u.rc == EREPLAY <==> l.ready && f.Length() >= 24 && ctr <= l.recvHwm)
      && (u.rc == OK <==>
            && l.ready && f.Length() >= 24 && ctr > l.recvHwm && f.body.Sealed? && f.body.key == l.key
            && f.body.nonce == Nonce(l.peerId, l.myId, ctr) && |f.body.plain| <= cap)
      && (u.rc != OK ==> u.link == l && u.plain == None)
      && (u.rc == OK ==> u.link == l.(recvHwm := ctr) && u.plain == Some(f.body.plain))
  {
    hide Nonce;
    hide FromBigEndian;
  }

  class NodeCrypt {
    var key: Key
    var sendCtr: nat
    var recvHwm: nat
    var myId: Byte
    var peerId: Byte
    var ready: bool

    function State(): Link
      reads this
    {
      Link(key, sendCtr, recvHwm, myId, peerId, ready)
    }

    /** Without a key the link is not ready. */
    method Init(k: Option<Key>, my: Byte, peer: Byte)
      modifies this
      ensures k.Some? ==> State() == Fresh(k.value, my, peer)
      ensures k.None? ==> State() == Link([], 0, 0, my, peer, false)
    {
      key, sendCtr, recvHwm, ready := [], 0, 0, false;
      myId := my;
      peerId := peer;
      if k.None? { return; }
      key := k.value;
      sendCtr := 1;
      ready := true;
    }

    method Clear()
      modifies this
      ensures State() == Link([], 0, 0, 0, 0, false)
    {
      key := [];
      sendCtr, recvHwm, myId, peerId, ready := 0, 0, 0, 0, false;
    }

    method Wrap(plain: Plain, cap: nat) returns (rc: Rc, frame: Option<Frame>)
      modifies this
      ensures WrapStep(old(State()), plain, cap) == Wrapped(rc, State(), frame)
    {
      hide BigEndian;
      hide Nonce;
      if !ready { return EINVAL, None; }
      if cap < |plain| + OVERHEAD { return EINVAL, None; }
      var ctr := sendCtr;
      var nonce := BuildNonce(myId, peerId, ctr);
      var box := Sealed(key, nonce[..], plain);
      var header := PutU64(ctr);
      sendCtr := (sendCtr + 1) % TWO_64;
      return OK, Some(Bytestring.Frame(header[..], box));
    }

    /** The replay check comes before the cipher; a failure leaves the high-water mark alone. */
    method Unwrap(f: Frame, cap: nat) returns (rc: Rc, plain: Option<Plain>)
      modifies this
      ensures UnwrapStep(old(State()), f, cap) == Unwrapped(rc, State(), plain)
      ensures rc != OK ==> State() == old(State())
    {
      hide FromBigEndian;
      hide Nonce;
      if !ready { return EINVAL, None; }
      if f.Length() < OVERHEAD { return EINVAL, None; }
      var ctr := GetU64(f.header);
      if ctr <= recvHwm { return EREPLAY, None; }
      var nonce := BuildNonce(peerId, myId, ctr);
      var p := Open(f.body, key, nonce[..], cap);
      if p.None? { return EAUTH, None; }
      recvHwm := ctr;
      return OK, p;
    }
  }

  /** A frame its peer unwraps in time comes back as the plaintext, and a second delivery is refused. */
  lemma WrapThenUnwrap(a: Link, b: Link, plain: Plain, cap: nat, cap': nat)
    requires a.ready && b.ready && a.key == b.key && a.myId == b.peerId && a.peerId == b.myId
    requires b.recvHwm < a.sendCtr < TWO_64 && |plain| + OVERHEAD <= cap && |plain| <= cap'
    ensures var f := WrapStep(a, plain, cap).frame.value;
      && UnwrapStep(b, f, cap') == Unwrapped(OK, b.(recvHwm := a.sendCtr), Some(plain))
      && UnwrapStep(b.(recvHwm := a.sendCtr), f, cap').rc == EREPLAY
  {
    hide BigEndian;
    hide FromBigEndian;
    CounterRoundTrip(a.sendCtr);
  }
}
