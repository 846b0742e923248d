/**
 * Many links under one cluster key against a network that replays, drops, reorders, reflects and
 * forges frames. Every (sender, receiver) pair of distinct ids has one link state per formation of
 * the cluster; a new formation has a key that was never used before.
 */
module NodeNet {

  import opened Bytes
  import opened NodeCrypt
  import opened Options

  /** A directed pair: who keeps the state, and who is at the other end. */
  datatype Pair = Pair(me: Byte, peer: Byte)

  /** One end of one link in this formation: its state, and the history the properties speak of. */
  datatype End = End(
    link: Link,
    sent: seq<Plain>,       // wrapped by this end for its peer
    accepted: seq<Plain>,   // accepted by this end from its peer
    counters: seq<nat>      // the counters of the accepted frames
  )

  datatype Net = Net(
    key: Key,
    used: set<Key>,         // every key of every formation so far
    ends: map<Pair, End>,
    seen: set<Cipher>       // every ciphertext that was ever on the wire
  )

  datatype Event =
    | Send(at: Pair, plain: Plain, cap: nat)
    | Deliver(at: Pair, frame: Frame, cap: nat)
    | Reform(key: Key)

  function Formation(key: Key, pairs: set<Pair>, used: set<Key>, seen: set<Cipher>): Net {
    Net(key, used + {key}, map p | p in pairs :: End(Fresh(key, p.me, p.peer), [], [], []), seen)
  }

  predicate Possible(n: Net, e: Event) {
    e.Reform? || e.at in n.ends
  }

  function Step(n: Net, e: Event): Net
    requires Possible(n, e)
  {
    match e
    case Send(at, plain, cap) =>
      var w := WrapStep(n.ends[at].link, plain, cap);
      if w.frame.None? then n
      else n.(ends := n.ends[at := n.ends[at].(link := w.link, sent := n.ends[at].sent + [plain])],
              seen := n.seen + {w.frame.value.body})
    case Deliver(at, frame, cap) =>
      var u := UnwrapStep(n.ends[at].link, frame, cap);
      n.(ends := n.ends[at := Receive(n.ends[at], u)])
    case Reform(key) => Formation(key, n.ends.Keys, n.used, n.seen)
  }

  function Receive(e: End, u: Unwrapped): End {
    if u.plain.None? then e.(link := u.link)
    else e.(link := u.link, accepted := e.accepted + [u.plain.value], counters := e.counters + [u.link.recvHwm])
  }

  /** The k-th frame of a link (from 0) carries this counter. */
  function CounterOf(k: nat): nat {
    (k + 1) % TWO_64
  }

  /** A ciphertext that some link of this formation sent. */
  ghost predicate SentAs(n: Net, c: Cipher, p: Pair, k: nat) {
    && p in n.ends && k < |n.ends[p].sent|
    && c == Sealed(n.key, Nonce(p.me, p.peer, CounterOf(k)), n.ends[p].sent[k])
  }

  ghost predicate Honest(n: Net, c: Cipher) {
    exists p, k :: SentAs(n, c, p, k)
  }

  /** What the network may do, and what the nodes must: a link carries at most 2^64 frames per key. */
  ghost predicate Allowed(n: Net, e: Event) {
    match e
    case Send(at, _, _) => at in n.ends && |n.ends[at].sent| < TWO_64
    case Deliver(at, frame, _) =>
      && at in n.ends
      // the network holds no key the cluster has used: it can only repeat what it saw, or invent
      && (frame.body in n.seen || frame.body.Junk? || frame.body.key !in n.used)
    case Reform(key) => key !in n.used
  }

  ghost predicate Increasing(s: seq<nat>) {
    forall i, j | 0 <= i < j < |s| :: s[i] < s[j]
  }

  /** The receiving side of one link against what its peer sent to it. */
  ghost predicate Receives(e: End, sent: seq<Plain>) {
    && |e.accepted| == |e.counters| && Increasing(e.counters)
    && (forall i | 0 <= i < |e.counters| :: 1 <= e.counters[i] <= |sent| && e.accepted[i] == sent[e.counters[i] - 1])
    && e.link.recvHwm == (if e.counters == [] then 0 else e.counters[|e.counters| - 1])
  }

  ghost predicate LinkOk(key: Key, p: Pair, e: End) {
    && p.me != p.peer
    && e.link == Link(key, CounterOf(|e.sent|), e.link.recvHwm, p.me, p.peer, true)
    && |e.sent| <= TWO_64
  }

  /** What p's peer sent to p. */
  function SentTo(ends: map<Pair, End>, p: Pair): seq<Plain> {
    var q := Pair(p.peer, p.me);
    if q in ends then ends[q].sent else []
  }

  ghost predicate EndsOk(n: Net) {
    forall p | p in n.ends :: LinkOk(n.key, p, n.ends[p]) && Receives(n.ends[p], SentTo(n.ends, p))
  }

  ghost predicate SeenOk(n: Net) {
    n.key in n.used && forall c | c in n.seen && c.Sealed? :: c.key in n.used && (c.key == n.key ==> Honest(n, c))
  }

  ghost predicate Inv(n: Net) {
    EndsOk(n) && SeenOk(n)
  }

  lemma FormationInv(key: Key, pairs: set<Pair>, used: set<Key>, seen: set<Cipher>)
    requires forall p | p in pairs :: p.me != p.peer
    requires key !in used && forall c | c in seen && c.Sealed? :: c.key in used
    ensures Inv(Formation(key, pairs, used, seen))
  {
  }

  /** Two frames of one formation with the same nonce are the same frame. */
  lemma SameNonceSameFrame(p: Pair, k: nat, p': Pair, k': nat)
    requires k < TWO_64 && k' < TWO_64
    requires Nonce(p.me, p.peer, CounterOf(k)) == Nonce(p'.me, p'.peer, CounterOf(k'))
    ensures p == p' && k == k'
  {
    hide Nonce;
    NonceInjective(p.me, p.peer, CounterOf(k), p'.me, p'.peer, CounterOf(k'));
  }

  lemma SendKeepsSeen(n: Net, at: Pair, plain: Plain, cap: nat)
    requires Inv(n) && Allowed(n, Send(at, plain, cap))
    ensures SeenOk(Step(n, Send(at, plain, cap)))
  {
    hide Nonce;
    hide BigEndian;
    hide Receives;
    var n' := Step(n, Send(at, plain, cap));
    if n' != n {
      assert LinkOk(n.key, at, n.ends[at]);
      forall c | c in n'.seen && c.Sealed? ensures c.key in n'.used && (c.key == n'.key ==> Honest(n', c)) {
        if c in n.seen {
          if c.key == n.key {
            var p, j :| SentAs(n, c, p, j);
            assert SentAs(n', c, p, j);
          }
        } else {
          assert SentAs(n', c, at, |n.ends[at].sent|);
        }
      }
    }
  }

  lemma MoreSent(e: End, sent: seq<Plain>, plain: Plain)
    requires Receives(e, sent)
    ensures Receives(e, sent + [plain])
  {
  }

  /** What sending changes about the ends: one of them has sent one message more, or nothing at all. */
  lemma SendEnds(n: Net, at: Pair, plain: Plain, cap: nat)
    requires at in n.ends
    ensures var n', e := Step(n, Send(at, plain, cap)), n.ends[at];
      && n'.key == n.key
      && (n' == n || n'.ends == n.ends[at := e.(link := e.link.(sendCtr := (e.link.sendCtr + 1) % TWO_64),
                                                   sent := e.sent + [plain])])
  {
    hide Nonce;
    hide BigEndian;
  }

  lemma SendKeepsLink(key: Key, p: Pair, e: End, plain: Plain)
    requires LinkOk(key, p, e) && |e.sent| < TWO_64
    ensures LinkOk(key, p, e.(link := e.link.(sendCtr := (e.link.sendCtr + 1) % TWO_64), sent := e.sent + [plain]))
  {
  }

  lemma SendKeepsEnds(n: Net, at: Pair, plain: Plain, cap: nat)
    requires EndsOk(n) && Allowed(n, Send(at, plain, cap))
    ensures EndsOk(Step(n, Send(at, plain, cap)))
  {
    hide Receives;
    hide Step;
    hide LinkOk;
    hide SentTo;
    hide CounterOf;
    var n' := Step(n, Send(at, plain, cap));
    SendEnds(n, at, plain, cap);
    if n' != n {
      SendKeepsLink(n.key, at, n.ends[at], plain);
      forall p | p in n'.ends ensures LinkOk(n'.key, p, n'.ends[p]) && Receives(n'.ends[p], SentTo(n'.ends, p)) {
        assert LinkOk(n.key, p, n.ends[p]);
        SendKeepsReceives(n, at, plain, cap, p);
      }
    }
  }

  /** Only the receiving half of an end matters to what it received. */
  lemma SameReceiver(e: End, f: End, sent: seq<Plain>)
    requires e.accepted == f.accepted && e.counters == f.counters && e.link.recvHwm == f.link.recvHwm
    ensures Receives(e, sent) == Receives(f, sent)
  {
  }

  lemma SendKeepsReceives(n: Net, at: Pair, plain: Plain, cap: nat, p: Pair)
    requires EndsOk(n) && at in n.ends && p in n.ends
    ensures var n' := Step(n, Send(at, plain, cap)); p in n'.ends && Receives(n'.ends[p], SentTo(n'.ends, p))
  {
    hide LinkOk;
    hide Step;
    hide WrapStep;
    hide Receives;
    var n' := Step(n, Send(at, plain, cap));
    SendEnds(n, at, plain, cap);
    assert Receives(n.ends[p], SentTo(n.ends, p));
    if n' != n {
      if Pair(p.peer, p.me) == at {
        assert SentTo(n'.ends, p) == SentTo(n.ends, p) + [plain];
        MoreSent(n.ends[p], SentTo(n.ends, p), plain);
      }
      SameReceiver(n.ends[p], n'.ends[p], SentTo(n'.ends, p));
    }
  }

  lemma DeliverKeepsSeen(n: Net, at: Pair, frame: Frame, cap: nat)
    requires SeenOk(n) && at in n.ends
    ensures SeenOk(Step(n, Deliver(at, frame, cap)))
  {
    hide UnwrapStep;
    hide Nonce;
    var n' := Step(n, Deliver(at, frame, cap));
    forall c | c in n'.seen && c.Sealed? && c.key == n'.key ensures Honest(n', c) {
      var p, j :| SentAs(n, c, p, j);
      assert SentAs(n', c, p, j);
    }
  }

  /** What acceptance says about a frame. */
  lemma AcceptedBody(l: Link, frame: Frame, cap: nat)
    requires UnwrapStep(l, frame, cap).plain.Some?
    ensures var u, ctr := UnwrapStep(l, frame, cap), FromBigEndian(frame.header);
      && l.recvHwm < ctr == u.link.recvHwm && ctr < TWO_64
      && frame.body == Sealed(l.key, Nonce(l.peerId, l.myId, ctr), u.plain.value)
  {
    hide Nonce;
    hide FromBigEndian;
    HeaderFits(frame.header);
  }

  /** The ids and the counter of a link, from its place in the net. */
  lemma LinkAt(n: Net, p: Pair)
    requires EndsOk(n) && p in n.ends
    ensures var e := n.ends[p];
      && e.link.key == n.key && e.link.myId == p.me && e.link.peerId == p.peer && |e.sent| <= TWO_64
  {
    hide Receives;
    assert LinkOk(n.key, p, n.ends[p]);
  }

  lemma CounterBelow(k: nat)
    ensures CounterOf(k) < TWO_64
  {
  }

  lemma CounterIsPosition(k: nat)
    requires k < TWO_64 && CounterOf(k) > 0
    ensures CounterOf(k) == k + 1
  {
  }

  lemma SealedByPeer(n: Net, at: Pair, frame: Frame, cap: nat)
    requires Inv(n) && Allowed(n, Deliver(at, frame, cap))
    requires frame.body.Sealed? && frame.body.key == n.key
    ensures Honest(n, frame.body)
  {
    hide EndsOk;
    hide Honest;
  }

  /** An accepted frame is the one its peer sent for this link under that very counter. */
  lemma AcceptedWasSent(n: Net, at: Pair, frame: Frame, cap: nat)
    requires Inv(n) && Allowed(n, Deliver(at, frame, cap))
    requires UnwrapStep(n.ends[at].link, frame, cap).plain.Some?
    ensures var u := UnwrapStep(n.ends[at].link, frame, cap);
      && n.ends[at].link.recvHwm < u.link.recvHwm <= |SentTo(n.ends, at)|
      && u.plain.value == SentTo(n.ends, at)[u.link.recvHwm - 1]
  {
    hide Nonce;
    hide FromBigEndian;
    hide EndsOk;
    hide UnwrapStep;
    hide SeenOk;
    hide CounterOf;
    LinkAt(n, at);
    AcceptedBody(n.ends[at].link, frame, cap);
    SealedByPeer(n, at, frame, cap);
    var ctr := FromBigEndian(frame.header);
    var p, k :| SentAs(n, frame.body, p, k);
    LinkAt(n, p);
    CounterBelow(k);
    NonceInjective(p.me, p.peer, CounterOf(k), at.peer, at.me, ctr);
    CounterIsPosition(k);
    assert p == Pair(at.peer, at.me);
  }

  lemma OneMoreAccepted(e: End, sent: seq<Plain>, u: Unwrapped)
    requires Receives(e, sent) && u.plain.Some?
    requires e.link.recvHwm < u.link.recvHwm <= |sent| && u.plain.value == sent[u.link.recvHwm - 1]
    ensures Receives(Receive(e, u), sent)
  {
  }

  lemma DeliverKeepsEnds(n: Net, at: Pair, frame: Frame, cap: nat)
    requires Inv(n) && Allowed(n, Deliver(at, frame, cap))
    ensures EndsOk(Step(n, Deliver(at, frame, cap)))
  {
    hide Nonce;
    hide FromBigEndian;
    hide Receives;
    hide SeenOk;
    var n' := Step(n, Deliver(at, frame, cap));
    var u := UnwrapStep(n.ends[at].link, frame, cap);
    if u.plain.Some? {
      AcceptedWasSent(n, at, frame, cap);
      OneMoreAccepted(n.ends[at], SentTo(n.ends, at), u);
    }
    assert LinkOk(n.key, at, n.ends[at]);
    forall p | p in n'.ends ensures LinkOk(n'.key, p, n'.ends[p]) && Receives(n'.ends[p], SentTo(n'.ends, p)) {
      assert LinkOk(n.key, p, n.ends[p]) && Receives(n.ends[p], SentTo(n.ends, p));
      assert SentTo(n.ends, p) == SentTo(n'.ends, p);
    }
  }

  lemma {:induction false} BytesBelow(s: seq<Byte>)
    ensures FromBigEndian(s) < Power256(|s|)
  {
    if s != [] {
      BytesBelow(s[..|s| - 1]);
    }
  }

  lemma HeaderFits(h: seq<Byte>)
    requires |h| == CTR_BYTES
    ensures FromBigEndian(h) < TWO_64
  {
    BytesBelow(h);
    assert Power256(8) == TWO_64;
  }

  lemma StepInv(n: Net, e: Event)
    requires Inv(n) && Allowed(n, e)
    ensures Inv(Step(n, e))
  {
    hide SeenOk;
    hide EndsOk;
    match e {
      case Send(at, plain, cap) =>
        SendKeepsSeen(n, at, plain, cap);
        SendKeepsEnds(n, at, plain, cap);
      case Deliver(at, frame, cap) =>
        DeliverKeepsSeen(n, at, frame, cap);
        DeliverKeepsEnds(n, at, frame, cap);
      case Reform(key) =>
        ReformReady(n);
        FormationInv(key, n.ends.Keys, n.used, n.seen);
    }
  }

  lemma ReformReady(n: Net)
    requires Inv(n)
    ensures forall p | p in n.ends.Keys :: p.me != p.peer
    ensures forall c | c in n.seen && c.Sealed? :: c.key in n.used
  {
    assert forall p | p in n.ends.Keys :: LinkOk(n.key, p, n.ends[p]);
  }

  // ----- Runs -----

  /** The first formation: nothing was sent yet, and the ids at the two ends of a link differ. */
  ghost predicate Start(n: Net) {
    n == Formation(n.key, n.ends.Keys, {}, {}) && forall p | p in n.ends.Keys :: p.me != p.peer
  }

  ghost predicate Run(trace: seq<Net>, events: seq<Event>) {
    && |trace| == |events| + 1
    && Start(trace[0])
    && forall i | 0 <= i < |events| :: Allowed(trace[i], events[i]) && trace[i + 1] == Step(trace[i], events[i])
  }

  /** Any formation starts a run, and any allowed event continues one. */
  lemma RunContinues(trace: seq<Net>, events: seq<Event>, e: Event)
    requires Run(trace, events) && Allowed(trace[|events|], e)
    ensures Run(trace + [Step(trace[|events|], e)], events + [e])
  {
    hide Step;
    hide Start;
    var more, all := trace + [Step(trace[|events|], e)], events + [e];
    forall i | 0 <= i < |all| ensures Allowed(more[i], all[i]) && more[i + 1] == Step(more[i], all[i]) {
      if i < |events| {
        assert more[i] == trace[i] && more[i + 1] == trace[i + 1] && all[i] == events[i];
      }
    }
  }

  lemma RunBegins(key: Key, pairs: set<Pair>)
    requires forall p | p in pairs :: p.me != p.peer
    ensures Run([Formation(key, pairs, {}, {})], [])
  {
    assert Formation(key, pairs, {}, {}).ends.Keys == pairs;
  }

  lemma {:induction false} RunInv(trace: seq<Net>, events: seq<Event>, i: nat)
    requires Run(trace, events) && i < |trace|
    ensures Inv(trace[i])
  {
    hide Inv;
    hide Step;
    if i > 0 {
      RunInv(trace, events, i - 1);
      assert Allowed(trace[i - 1], events[i - 1]);
      StepInv(trace[i - 1], events[i - 1]);
    } else {
      FormationInv(trace[0].key, trace[0].ends.Keys, {}, {});
    }
  }

  /** xs is ys with some elements left out. */
  ghost predicate Subsequence(xs: seq<Plain>, ys: seq<Plain>) {
    exists at: seq<nat> :: SubsequenceAt(xs, ys, at)
  }

  ghost predicate SubsequenceAt(xs: seq<Plain>, ys: seq<Plain>, at: seq<nat>) {
    |at| == |xs| && Increasing(at) && forall i | 0 <= i < |xs| :: at[i] < |ys| && xs[i] == ys[at[i]]
  }

  lemma ReceivesSubsequence(e: End, sent: seq<Plain>)
    requires Receives(e, sent)
    ensures Subsequence(e.accepted, sent)
  {
    var cs := e.counters;
    var at: seq<nat> := seq(|cs|, j requires 0 <= j < |cs| => cs[j] - 1);
    assert SubsequenceAt(e.accepted, sent, at);
  }

  /** In every run, what a node accepts on a link is an in-order, duplicate-free part of what that peer sent to it. */
  lemma AcceptedIsSubsequenceOfSent(trace: seq<Net>, events: seq<Event>, i: nat, p: Pair)
    requires Run(trace, events) && i < |trace| && p in trace[i].ends
    ensures Subsequence(trace[i].ends[p].accepted, SentTo(trace[i].ends, p))
  {
    hide Run;
    hide Subsequence;
    hide Receives;
    RunInv(trace, events, i);
    ReceivesSubsequence(trace[i].ends[p], SentTo(trace[i].ends, p));
  }

  // ----- What a delivery does, exactly -----

  /** The frame is the peer's frame k on this link; the counter of frame 2^64 - 1 is 0 again, so it is not one. */
  ghost predicate Genuine(n: Net, at: Pair, frame: Frame, k: nat)
    requires at in n.ends
  {
    && k < |SentTo(n.ends, at)|
    && |frame.header| == CTR_BYTES && FromBigEndian(frame.header) == k + 1
    && frame.body == Sealed(n.key, Nonce(at.peer, at.me, k + 1), SentTo(n.ends, at)[k])
  }

  /** No frame after frame k was accepted, nor frame k itself. */
  ghost predicate NotYet(e: End, k: nat) {
    forall i | 0 <= i < |e.counters| :: e.counters[i] <= k
  }

  lemma GenuineOpens(n: Net, at: Pair, frame: Frame, cap: nat, k: nat)
    requires Inv(n) && at in n.ends && Genuine(n, at, frame, k)
    ensures var u := UnwrapStep(n.ends[at].link, frame, cap);
      if NotYet(n.ends[at], k) && |SentTo(n.ends, at)[k]| <= cap
      then u.plain == Some(SentTo(n.ends, at)[k]) && u.link.recvHwm == k + 1
      else u.plain == None
  {
    hide Nonce;
    hide FromBigEndian;
    hide SeenOk;
    LinkAt(n, at);
    var e := n.ends[at];
    assert LinkOk(n.key, at, e) && Receives(e, SentTo(n.ends, at));
    assert e.counters != [] ==> forall i | 0 <= i < |e.counters| :: e.counters[i] <= e.counters[|e.counters| - 1];
  }

  lemma AcceptedIsGenuine(n: Net, at: Pair, frame: Frame, cap: nat)
    requires Inv(n) && Allowed(n, Deliver(at, frame, cap))
    requires UnwrapStep(n.ends[at].link, frame, cap).plain.Some?
    ensures exists k: nat :: Genuine(n, at, frame, k)
  {
    hide Nonce;
    hide FromBigEndian;
    hide Inv;
    AcceptedWasSent(n, at, frame, cap);
    AcceptedBody(n.ends[at].link, frame, cap);
    IdsAt(n, at);
    assert Genuine(n, at, frame, UnwrapStep(n.ends[at].link, frame, cap).link.recvHwm - 1);
  }

  lemma IdsAt(n: Net, at: Pair)
    requires Inv(n) && at in n.ends
    ensures var l := n.ends[at].link; l.key == n.key && l.myId == at.me && l.peerId == at.peer
  {
    hide SeenOk;
    LinkAt(n, at);
  }

  /** A frame that is not accepted leaves no trace. */
  lemma RefusedChangesNothing(n: Net, at: Pair, frame: Frame, cap: nat)
    requires at in n.ends
    ensures Step(n, Deliver(at, frame, cap)) == n <==> UnwrapStep(n.ends[at].link, frame, cap).plain.None?
  {
    hide Nonce;
    hide FromBigEndian;
    var e, u := n.ends[at], UnwrapStep(n.ends[at].link, frame, cap);
    if u.plain.None? {
      assert n.ends[at := e] == n.ends;
    } else {
      assert Step(n, Deliver(at, frame, cap)).ends[at].accepted != e.accepted;
    }
  }

  /**
   * In every run a delivery changes something exactly when it is a frame of the peer that is newer than all accepted
   * ones and fits; then it is accepted as what was sent. So no forged, old or misdirected frame keeps a genuine one
   * out.
   */
  lemma DeliveryIff(trace: seq<Net>, events: seq<Event>, i: nat, at: Pair, frame: Frame, cap: nat)
    requires Run(trace, events) && i < |trace| && Allowed(trace[i], Deliver(at, frame, cap))
    ensures var n, n' := trace[i], Step(trace[i], Deliver(at, frame, cap));
      && (n' != n <==> exists k: nat :: Genuine(n, at, frame, k) && NotYet(n.ends[at], k)
                                   && |SentTo(n.ends, at)[k]| <= cap)
      && forall k: nat | Genuine(n, at, frame, k) && n' != n ::
           n'.ends[at].accepted == n.ends[at].accepted + [SentTo(n.ends, at)[k]]
  {
    hide Run;
    hide Inv;
    hide Nonce;
    hide NotYet;
    hide UnwrapStep;
    RunInv(trace, events, i);
    var n := trace[i];
    RefusedChangesNothing(n, at, frame, cap);
    forall k: nat | Genuine(n, at, frame, k)
      ensures var u := UnwrapStep(n.ends[at].link, frame, cap);
        if NotYet(n.ends[at], k) && |SentTo(n.ends, at)[k]| <= cap
        then u.plain == Some(SentTo(n.ends, at)[k]) else u.plain == None
    {
      GenuineOpens(n, at, frame, cap, k);
    }
    if UnwrapStep(n.ends[at].link, frame, cap).plain.Some? {
      AcceptedIsGenuine(n, at, frame, cap);
    }
  }

  /** What every peer sent was on the wire, so the network can deliver it. */
  ghost predicate Wired(n: Net) {
    forall p, k: nat | p in n.ends && k < |n.ends[p].sent| ::
      Sealed(n.key, Nonce(p.me, p.peer, CounterOf(k)), n.ends[p].sent[k]) in n.seen
  }

  lemma WiredStep(n: Net, e: Event)
    requires Inv(n) && Wired(n) && Allowed(n, e)
    ensures Wired(Step(n, e))
  {
    hide Nonce;
    hide BigEndian;
    hide SeenOk;
    hide Receives;
    hide UnwrapStep;
    hide CounterOf;
    if e.Send? {
      assert LinkOk(n.key, e.at, n.ends[e.at]);
    }
  }

  lemma {:induction false} RunWired(trace: seq<Net>, events: seq<Event>, i: nat)
    requires Run(trace, events) && i < |trace|
    ensures Wired(trace[i])
  {
    hide Step;
    hide Wired;
    if i > 0 {
      RunWired(trace, events, i - 1);
      RunInv(trace, events, i - 1);
      assert Allowed(trace[i - 1], events[i - 1]);
      hide Inv;
      WiredStep(trace[i - 1], events[i - 1]);
    } else {
      NothingSent(trace[0]);
    }
  }

  lemma NothingSent(n: Net)
    requires Start(n)
    ensures Wired(n)
  {
  }

  /** The frame the peer sent as its k-th. */
  function FrameOf(n: Net, at: Pair, k: nat): Frame
    requires at in n.ends && k < |SentTo(n.ends, at)|
  {
    Bytestring.Frame(BigEndian(CounterOf(k), CTR_BYTES),
                     Sealed(n.key, Nonce(at.peer, at.me, CounterOf(k)), SentTo(n.ends, at)[k]))
  }

  /**
   * In every run a sent frame can still be delivered exactly until it or a later one has been accepted, whatever else
   * was delivered; the frame whose counter is 0 again, never.
   */
  lemma NoneLockedOut(trace: seq<Net>, events: seq<Event>, i: nat, at: Pair, k: nat, cap: nat)
    requires Run(trace, events) && i < |trace| && at in trace[i].ends && k < |SentTo(trace[i].ends, at)|
    requires |SentTo(trace[i].ends, at)[k]| <= cap
    ensures var n, e := trace[i], Deliver(at, FrameOf(trace[i], at, k), cap);
      && Allowed(n, e)
      && (Step(n, e) != n <==> k + 1 < TWO_64 && NotYet(n.ends[at], k))
      && (Step(n, e) != n ==>
            Step(n, e).ends[at].accepted == n.ends[at].accepted + [SentTo(n.ends, at)[k]])
  {
    hide Run;
    hide Inv;
    hide Nonce;
    hide BigEndian;
    hide FromBigEndian;
    hide Step;
    hide NotYet;
    var n, f := trace[i], FrameOf(trace[i], at, k);
    RunWired(trace, events, i);
    RunInv(trace, events, i);
    SentWithin(n, at);
    CounterRoundTrip(CounterOf(k));
    if k + 1 < TWO_64 {
      assert Genuine(n, at, f, k);
    }
    DeliveryIff(trace, events, i, at, f, cap);
  }

  lemma SentWithin(n: Net, at: Pair)
    requires Inv(n) && at in n.ends
    ensures |SentTo(n.ends, at)| <= TWO_64
  {
    hide SeenOk;
    if Pair(at.peer, at.me) in n.ends {
      LinkAt(n, Pair(at.peer, at.me));
    }
  }

  /** Over all formations: equal nonces under one key belong to one ciphertext. */
  ghost predicate NoncesUnique(n: Net) {
    forall c, c' | c in n.seen && c' in n.seen && c.Sealed? && c'.Sealed? && c.key == c'.key && c.nonce == c'.nonce ::
      c == c'
  }

  lemma CurrentUnique(n: Net, c: Cipher, c': Cipher)
    requires Inv(n) && c in n.seen && c' in n.seen
    requires c.Sealed? && c'.Sealed? && c.key == c'.key == n.key && c.nonce == c'.nonce
    ensures c == c'
  {
    hide Nonce;
    hide CounterOf;
    hide EndsOk;
    var p, k :| SentAs(n, c, p, k);
    var p', k' :| SentAs(n, c', p', k');
    LinkAt(n, p);
    LinkAt(n, p');
    SameNonceSameFrame(p, k, p', k');
  }

  /** Ciphertexts of earlier formations are under other keys, and no step adds to them. */
  lemma SeenAfter(n: Net, e: Event, c: Cipher)
    requires Inv(n) && Allowed(n, e) && c in Step(n, e).seen && c !in n.seen
    ensures e.Send? && c.Sealed? && c.key == n.key == Step(n, e).key
  {
    hide Nonce;
    hide BigEndian;
    hide UnwrapStep;
    hide SeenOk;
    hide Receives;
    if e.Send? {
      assert LinkOk(n.key, e.at, n.ends[e.at]);
    }
  }

  lemma UniqueStep(n: Net, e: Event)
    requires Inv(n) && NoncesUnique(n) && Allowed(n, e)
    ensures NoncesUnique(Step(n, e))
  {
    hide Inv;
    hide Step;
    hide Honest;
    StepInv(n, e);
    var n' := Step(n, e);
    forall c, c' | c in n'.seen && c' in n'.seen && c.Sealed? && c'.Sealed? && c.key == c'.key && c.nonce == c'.nonce
      ensures c == c'
    {
      if c !in n.seen {
        SeenAfter(n, e, c);
        CurrentUnique(n', c, c');
      } else if c' !in n.seen {
        SeenAfter(n, e, c');
        CurrentUnique(n', c, c');
      }
    }
  }

  lemma {:induction false} RunUnique(trace: seq<Net>, events: seq<Event>, i: nat)
    requires Run(trace, events) && i < |trace|
    ensures NoncesUnique(trace[i])
  {
    hide Step;
    hide NoncesUnique;
    if i > 0 {
      RunUnique(trace, events, i - 1);
      RunInv(trace, events, i - 1);
      assert Allowed(trace[i - 1], events[i - 1]);
      hide Inv;
      UniqueStep(trace[i - 1], events[i - 1]);
    } else {
      NothingSeen(trace[0]);
    }
  }

  lemma NothingSeen(n: Net)
    requires Start(n)
    ensures NoncesUnique(n)
  {
  }

  /** In every run, no nonce is used twice under any key of any formation: equal nonces belong to one frame. */
  lemma NoncesNeverReused(trace: seq<Net>, events: seq<Event>, i: nat, c: Cipher, c': Cipher)
    requires Run(trace, events) && i < |trace| && c in trace[i].seen && c' in trace[i].seen
    requires c.Sealed? && c'.Sealed? && c.key == c'.key && c.nonce == c'.nonce
    ensures c == c'
  {
    hide Run;
    RunUnique(trace, events, i);
  }

  // ----- Why the assumptions are there -----

  /** A link after it has wrapped those plaintexts one by one, each into a large enough buffer. */
  function AfterFrames(l: Link, plains: seq<Plain>): Link {
    if plains == [] then l else
    var n := |plains| - 1;
    WrapStep(AfterFrames(l, plains[..n]), plains[n], |plains[n]| + OVERHEAD).link
  }

  lemma {:induction false} FrameCounter(key: Key, p: Pair, plains: seq<Plain>)
    ensures AfterFrames(Fresh(key, p.me, p.peer), plains) == Fresh(key, p.me, p.peer).(sendCtr := CounterOf(|plains|))
  {
    hide Nonce;
    hide BigEndian;
    if plains != [] {
      FrameCounter(key, p, plains[..|plains| - 1]);
    }
  }

  /** The counter of frame k of a fresh link that wraps those plaintexts. */
  function CounterOfFrame(key: Key, p: Pair, plains: seq<Plain>, k: nat): nat
    requires k < |plains|
  {
    AfterFrames(Fresh(key, p.me, p.peer), plains[..k]).sendCtr
  }

  /** The bound on frames is exact: a link repeats a counter exactly when it wraps more than 2^64 frames. */
  lemma CountersRepeatExactlyBeyondBound(key: Key, p: Pair, plains: seq<Plain>)
    ensures (exists i, j | 0 <= i < j < |plains| ::
               CounterOfFrame(key, p, plains, i) == CounterOfFrame(key, p, plains, j))
            <==> |plains| > TWO_64
  {
    hide AfterFrames;
    forall k: nat | k < |plains| ensures CounterOfFrame(key, p, plains, k) == CounterOf(k) {
      FrameCounter(key, p, plains[..k]);
    }
    if |plains| > TWO_64 {
      assert CounterOfFrame(key, p, plains, 0) == CounterOfFrame(key, p, plains, TWO_64);
    }
  }

  /** Without a fresh key (the salt), a new formation reuses a nonce for another plaintext. */
  lemma SameKeyReusesNonce(n: Net, at: Pair, p: Plain, q: Plain, cap: nat)
    requires Inv(n) && at in n.ends && n.ends[at].sent == [] && p != q
    requires |p| + OVERHEAD <= cap && |q| + OVERHEAD <= cap
    ensures var n1 := Step(n, Send(at, p, cap));
      var n2 := Step(Formation(n.key, n1.ends.Keys, n1.used, n1.seen), Send(at, q, cap));
      exists c, c' :: c in n2.seen && c' in n2.seen && c.Sealed? && c'.Sealed?
        && c.key == c'.key && c.nonce == c'.nonce && c != c'
  {
    hide Nonce;
    hide BigEndian;
    hide SeenOk;
    assert LinkOk(n.key, at, n.ends[at]);
    var n1 := Step(n, Send(at, p, cap));
    var n2 := Step(Formation(n.key, n1.ends.Keys, n1.used, n1.seen), Send(at, q, cap));
    var c, c' := Sealed(n.key, Nonce(at.me, at.peer, 1), p), Sealed(n.key, Nonce(at.me, at.peer, 1), q);
    assert c in n1.seen && c in n2.seen && c' in n2.seen;
  }
}
