/** Conversations do not interfere: each transcript is the one its own events alone would have produced. */
module ChatTranscripts {

  import opened ChatState
  import opened Options

  // ----- The list of conversations -----

  lemma {:induction false} FindEdit(convos: seq<Conversation>, c: ConvoId, d: ConvoId, change: Change)
    ensures Find(Edit(convos, d, change), c) ==
      match Find(convos, c)
      case None => None
      case Some(msgs) => Some(if c == d then Changed(msgs, change) else msgs)
  {
    if convos != [] {
      FindEdit(convos[1..], c, d, change);
    }
  }

  lemma {:induction false} FindWithout(convos: seq<Conversation>, c: ConvoId, d: ConvoId)
    ensures Find(Without(convos, d), c) == if c == d then None else Find(convos, c)
  {
    if convos != [] {
      FindWithout(convos[1..], c, d);
      var rest := Without(convos[1..], d);
      assert [] + rest == rest && ([convos[0]] + rest)[1..] == rest;
    }
  }

  /** Cutting the list short loses conversations but changes none. */
  lemma {:induction false} FindPrefix(convos: seq<Conversation>, c: ConvoId, k: nat)
    requires k <= |convos| && Find(convos[..k], c).Some?
    ensures Find(convos, c) == Find(convos[..k], c)
  {
    if convos != [] && convos[0].id != c {
      assert convos[..k][1..] == convos[1..][..k - 1];
      FindPrefix(convos[1..], c, k - 1);
    }
  }

  lemma FindNew(convos: seq<Conversation>, c: ConvoId, d: ConvoId)
    ensures var r := Find(Capped([Conversation(d, [])] + convos), c);
      && (c == d ==> r == Some([]))
      && (c != d ==> r == None || r == Find(convos, c))
  {
    var more := [Conversation(d, [])] + convos;
    assert more[1..] == convos;
    if c == d {
      assert Capped(more)[0] == more[0];
    } else if Find(Capped(more), c).Some? && |more| > MAX_CONVOS {
      FindPrefix(more, c, MAX_CONVOS);
    }
  }

  // ----- Non-interference -----

  /** The events that belong to conversation c: its own, and those of its generations. */
  predicate Own(s: State, e: Event, c: ConvoId) {
    match e
    case New(d) => d == c
    case Delete(d) => d == c
    case Begin(d, _, _) => d == c
    case Fallback(d) => d == c
    case Listen(r) => r in s.gens && s.gens[r].convo == c
    case Hear(r, _) => r in s.gens && s.gens[r].convo == c
    case Reject(r, _) => r in s.gens && s.gens[r].convo == c
    case Finish(r) => r in s.gens && s.gens[r].convo == c
    case Render(_) => false
  }

  /** The run with everybody else's events left out. */
  function Alone(convos: seq<Conversation>, es: seq<Event>, c: ConvoId): seq<Event> {
    if es == [] then [] else
    var n := |es| - 1;
    Alone(convos, es[..n], c) + if Own(Run(convos, es[..n]), es[n], c) then [es[n]] else []
  }

  /** t knows of conversation c what s does: its guard and its generations. */
  ghost predicate SameControl(s: State, t: State, c: ConvoId) {
    SameGuard(s, t, c) && SameGens(s.gens, t.gens, c)
  }

  ghost predicate SameGuard(s: State, t: State, c: ConvoId) {
    (c in s.liveRef <==> c in t.liveRef) && (c in s.liveRef ==> s.liveRef[c] == t.liveRef[c])
  }

  ghost predicate SameGens(gs: map<ReqId, Generation>, gt: map<ReqId, Generation>, c: ConvoId) {
    && (forall r | r in gt :: r in gs && gt[r] == gs[r] && gs[r].convo == c)
    && (forall r | r in gs && gs[r].convo == c :: r in gt)
  }

  /** While s lists conversation c, t has the same transcript for it. */
  ghost predicate SameTranscript(s: State, t: State, c: ConvoId) {
    Find(s.convos, c).Some? ==> Find(t.convos, c) == Find(s.convos, c)
  }

  /** What an event does to the list of conversations. */
  datatype Effect = Nothing | Adds(c: ConvoId) | Drops(c: ConvoId) | Edits(c: ConvoId, change: Change)

  function EffectOf(s: State, e: Event): Effect {
    match e
    case New(c) => Adds(c)
    case Delete(c) => Drops(c)
    case Begin(c, _, history) => if c in s.liveRef then Nothing else Edits(c, Replay(history))
    case Hear(r, kind) =>
      if r !in s.gens || !s.gens[r].stage.Listening? then Nothing else
      (match kind
       case Delta(text) => if text == "" then Nothing else Edits(s.gens[r].convo, AddText(text))
       case Reasoning(text) => if text == "" then Nothing else Edits(s.gens[r].convo, AddReasoning(text))
       case Done =>
         if s.gens[r].deltas == 0 then Nothing
         else Edits(s.gens[r].convo, SetStats(Stats(s.gens[r].deltas, s.gens[r].prefill)))
       case _ => Nothing)
    case Finish(r) =>
      if r in s.gens && s.gens[r].stage.Over? && s.gens[r].stage.outcome.Failed? then
        Edits(s.gens[r].convo, SetError(s.gens[r].stage.outcome.message))
      else Nothing
    case _ => Nothing
  }

  lemma ConvosAfter(s: State, e: Event)
    ensures Apply(s, e).convos ==
      match EffectOf(s, e)
      case Nothing => s.convos
      case Adds(c) => Capped([Conversation(c, [])] + s.convos)
      case Drops(c) => Without(s.convos, c)
      case Edits(c, change) => Edit(s.convos, c, change)
  {
    hide Edit;
    hide Capped;
    hide Without;
    hide Settled;
  }

  /** What an event does to one transcript; a new conversation may push another off the list. */
  lemma FindAfter(s: State, e: Event, c: ConvoId)
    ensures var was, r := Find(s.convos, c), Find(Apply(s, e).convos, c);
      match EffectOf(s, e)
      case Nothing => r == was
      case Adds(d) => if d == c then r == Some([]) else r == None || r == was
      case Drops(d) => r == if d == c then None else was
      case Edits(d, change) => r == if d == c && was.Some? then Some(Changed(was.value, change)) else was
  {
    hide Apply;
    hide EffectOf;
    hide Find;
    hide Edit;
    hide Capped;
    hide Without;
    hide Changed;
    ConvosAfter(s, e);
    match EffectOf(s, e)
    case Nothing =>
    case Adds(d) => FindNew(s.convos, c, d);
    case Drops(d) => FindWithout(s.convos, c, d);
    case Edits(d, change) => FindEdit(s.convos, c, d, change);
  }

  lemma OwnEffect(s: State, t: State, e: Event, c: ConvoId)
    requires SameControl(s, t, c) && Own(s, e, c)
    ensures EffectOf(t, e) == EffectOf(s, e)
    ensures EffectOf(s, e).Nothing? || EffectOf(s, e).c == c
  {
  }

  lemma OthersEffect(s: State, e: Event, c: ConvoId)
    requires !Own(s, e, c)
    ensures EffectOf(s, e).Nothing? || EffectOf(s, e).c != c
  {
  }

  lemma TranscriptStep(s: State, t: State, e: Event, c: ConvoId)
    requires SameControl(s, t, c) && SameTranscript(s, t, c)
    ensures SameTranscript(Apply(s, e), if Own(s, e, c) then Apply(t, e) else t, c)
  {
    hide Apply;
    hide EffectOf;
    hide Find;
    hide Changed;
    hide SameControl;
    hide Own;
    FindAfter(s, e, c);
    FindAfter(t, e, c);
    if Own(s, e, c) {
      OwnEffect(s, t, e, c);
    } else {
      OthersEffect(s, e, c);
    }
  }

  /** What a stream event does to its generation, and to nothing else of the page's bookkeeping. */
  lemma HeardControl(s: State, t: State, r: ReqId, kind: Kind)
    requires r in s.gens && r in t.gens && s.gens[r] == t.gens[r]
    ensures var s', t' := Heard(s, r, kind), Heard(t, r, kind);
      && s'.liveRef == s.liveRef && t'.liveRef == t.liveRef
      && s'.gens == s.gens[r := s'.gens[r]] && t'.gens == t.gens[r := t'.gens[r]]
      && s'.gens[r] == t'.gens[r] && s'.gens[r].convo == s.gens[r].convo
  {
    hide Edit;
  }

  /** The generation an event moves, if it moves one, and where it takes it. */
  function Moved(s: State, e: Event): (m: Option<(ReqId, Generation)>) {
    match e
    case Begin(c, r, history) =>
      if c in s.liveRef then None else Some((r, Generation(c, history, Starting, 0, None)))
    case Listen(r) => MovedTo(s, e, r)
    case Hear(r, _) => MovedTo(s, e, r)
    case Reject(r, _) => MovedTo(s, e, r)
    case Finish(r) => MovedTo(s, e, r)
    case _ => None
  }

  function MovedTo(s: State, e: Event, r: ReqId): Option<(ReqId, Generation)> {
    if r in s.gens && r in Apply(s, e).gens then Some((r, Apply(s, e).gens[r])) else None
  }

  lemma GensAfter(s: State, e: Event)
    ensures var m, gens := Moved(s, e), Apply(s, e).gens;
      && gens == (if m.None? then s.gens else s.gens[m.value.0 := m.value.1])
      && (m.Some? && e.Begin? ==> m.value.0 == e.reqId)
      && (m.Some? && !e.Begin? ==> m.value.0 in s.gens && s.gens[m.value.0].convo == m.value.1.convo)
  {
    hide Edit;
    hide Capped;
    hide Without;
    hide Settled;
    hide Heard;
    if e.Hear? && e.reqId in s.gens && s.gens[e.reqId].stage.Listening? {
      HeardControl(s, s, e.reqId, e.kind);
    }
  }

  /** An own event moves the same generation in both runs. */
  lemma OwnMove(s: State, t: State, e: Event, c: ConvoId)
    requires SameControl(s, t, c) && Own(s, e, c)
    ensures Moved(t, e) == Moved(s, e)
    ensures Moved(s, e).Some? ==> Moved(s, e).value.1.convo == c
  {
    hide Edit;
    hide Capped;
    hide Without;
    hide Settled;
    hide Heard;
    if e.Hear? && s.gens[e.reqId].stage.Listening? {
      HeardControl(s, t, e.reqId, e.kind);
    }
  }

  lemma OwnGuard(s: State, t: State, e: Event, c: ConvoId)
    requires SameControl(s, t, c) && Own(s, e, c)
    ensures SameGuard(Apply(s, e), Apply(t, e), c)
  {
    hide Edit;
    hide Capped;
    hide Without;
    hide Settled;
    hide Heard;
    if e.Hear? && s.gens[e.reqId].stage.Listening? {
      HeardControl(s, t, e.reqId, e.kind);
    }
  }

  lemma OthersMove(s: State, e: Event, c: ConvoId)
    requires !Own(s, e, c)
    ensures Moved(s, e).Some? ==> Moved(s, e).value.1.convo != c
    ensures c in Apply(s, e).liveRef <==> c in s.liveRef
    ensures c in s.liveRef ==> Apply(s, e).liveRef[c] == s.liveRef[c]
  {
    hide Edit;
    hide Capped;
    hide Without;
    hide Settled;
    hide Heard;
    if e.Hear? && e.reqId in s.gens && s.gens[e.reqId].stage.Listening? {
      HeardControl(s, s, e.reqId, e.kind);
    }
  }

  lemma ControlStep(s: State, t: State, e: Event, c: ConvoId)
    requires SameControl(s, t, c) && Allowed(s, e)
    ensures SameControl(Apply(s, e), if Own(s, e, c) then Apply(t, e) else t, c)
  {
    hide Apply;
    hide Moved;
    hide Own;
    GensAfter(s, e);
    GensAfter(t, e);
    if Own(s, e, c) {
      OwnMove(s, t, e, c);
      OwnGuard(s, t, e, c);
    } else {
      OthersMove(s, e, c);
    }
  }

  lemma {:induction false} AloneIsSame(convos: seq<Conversation>, es: seq<Event>, c: ConvoId)
    requires Legal(convos, es)
    ensures var s, t := Run(convos, es), Run(convos, Alone(convos, es, c));
      SameControl(s, t, c) && SameTranscript(s, t, c)
  {
    if es != [] {
      var n := |es| - 1;
      var s, alone := Run(convos, es[..n]), Alone(convos, es[..n], c);
      AloneIsSame(convos, es[..n], c);
      hide Apply;
      hide Own;
      hide SameControl;
      hide SameTranscript;
      ControlStep(s, Run(convos, alone), es[n], c);
      TranscriptStep(s, Run(convos, alone), es[n], c);
      assert (alone + [es[n]])[..|alone|] == alone;
      assert alone + [] == alone;
    }
  }

  /**
   * However the events of several conversations interleave, a conversation that is still listed has exactly the
   * transcript its own events alone produce, and is as free or as busy as they alone leave it.
   */
  lemma NonInterference(convos: seq<Conversation>, es: seq<Event>, c: ConvoId)
    requires Legal(convos, es)
    ensures var s, t := Run(convos, es), Run(convos, Alone(convos, es, c));
      && (Find(s.convos, c).Some? ==> Find(s.convos, c) == Find(t.convos, c))
      && (c in s.liveRef <==> c in t.liveRef)
  {
    hide Run;
    hide Legal;
    hide Alone;
    AloneIsSame(convos, es, c);
  }
}
