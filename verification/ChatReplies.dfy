/**
 * What a conversation's transcript says: after any run it is the history its latest generation was started with,
 * followed by the reply that generation's own stream spells out.
 */
module ChatReplies {

  import opened ChatLive
  import opened ChatState
  import opened ChatTranscripts
  import opened Options

  // ----- A stream, read off the run -----

  /** r listens: its listener was installed and no event or rejection has ended it. */
  predicate Open(es: seq<Event>, r: ReqId) {
    if es == [] then false else
    match es[|es| - 1]
    case Listen(q) => q == r || Open(es[..|es| - 1], r)
    case Reject(q, _) => q != r && Open(es[..|es| - 1], r)
    case Hear(q, kind) => (q != r || !(kind.Done? || kind.Error?)) && Open(es[..|es| - 1], r)
    case _ => Open(es[..|es| - 1], r)
  }

  /** The payloads r heard, in order, up to the first that ends it. */
  function Told(es: seq<Event>, r: ReqId): seq<Kind> {
    if es == [] then [] else
    var n := |es| - 1;
    Told(es[..n], r) + if es[n].Hear? && es[n].reqId == r && Open(es[..n], r) then [es[n].kind] else []
  }

  function TextOf(ks: seq<Kind>): string {
    if ks == [] then "" else
    TextOf(ks[..|ks| - 1]) + match ks[|ks| - 1] case Delta(t) => t case _ => ""
  }

  function ReasoningOf(ks: seq<Kind>): string {
    if ks == [] then "" else
    ReasoningOf(ks[..|ks| - 1]) + match ks[|ks| - 1] case Reasoning(t) => t case _ => ""
  }

  /** How many payloads carried output. */
  function TokensOf(ks: seq<Kind>): nat {
    if ks == [] then 0 else
    TokensOf(ks[..|ks| - 1]) + match ks[|ks| - 1]
                               case Delta(t) => if t == "" then 0 else 1
                               case Reasoning(t) => if t == "" then 0 else 1
                               case _ => 0
  }

  function PrefillOf(ks: seq<Kind>): Option<Prefill> {
    if ks == [] then None else
    match ks[|ks| - 1] case Progress(p) => Some(p) case _ => PrefillOf(ks[..|ks| - 1])
  }

  /** The reply those payloads spell out, for a generation that has come to `stage`. */
  function Reply(stage: Stage, ks: seq<Kind>): Msg {
    var completed := (stage.Over? || stage.Finished?) && stage.outcome.Completed?;
    Msg(Assistant, TextOf(ks), ReasoningOf(ks),
        if completed && TokensOf(ks) > 0 then Some(Stats(TokensOf(ks), PrefillOf(ks))) else None,
        if stage.Finished? && stage.outcome.Failed? then Some(stage.outcome.message) else None)
  }

  /** The generation last started in conversation c. */
  function Latest(convos: seq<Conversation>, es: seq<Event>, c: ConvoId): Option<ReqId> {
    if es == [] then None else
    var n := |es| - 1;
    if es[n].Begin? && es[n].c == c && c !in Run(convos, es[..n]).liveRef then Some(es[n].reqId)
    else Latest(convos, es[..n], c)
  }

  // ----- Reading the state -----

  ghost predicate Spells(s: State, c: ConvoId, r: ReqId, ks: seq<Kind>) {
    && r in s.gens && s.gens[r].convo == c && c in s.issued
    && (forall q | q in s.gens && q != r && s.gens[q].convo == c :: s.gens[q].stage.Finished?)
    && s.gens[r].deltas == TokensOf(ks) && s.gens[r].prefill == PrefillOf(ks)
    && (Find(s.convos, c).Some? ==> Find(s.convos, c).value == Clip(s.gens[r].history + [Reply(s.gens[r].stage, ks)]))
  }

  /** Amending the last message and cutting the transcript short commute. */
  lemma AmendClipped(history: seq<Msg>, m: Msg, change: Change)
    requires !change.Replay?
    ensures Changed(Clip(history + [m]), change) == Clip(history + [Amend(m, change)])
  {
    var whole, next := history + [m], history + [Amend(m, change)];
    var clipped := Clip(whole);
    assert clipped[|clipped| - 1] == m;
    if |whole| > MAX_STORED {
      assert clipped[..|clipped| - 1] == history[|whole| - MAX_STORED..];
      assert next[|whole| - MAX_STORED..] == history[|whole| - MAX_STORED..] + [Amend(m, change)];
    } else {
      assert clipped[..|clipped| - 1] == history;
    }
  }

  function StageAfter(k: Kind): Stage {
    match k
    case Done => Over(Completed)
    case Error(m) => Over(Failed(m))
    case _ => Listening
  }

  /** How a payload amends the reply that `ks` spelled out. */
  function Amendment(ks: seq<Kind>, k: Kind): Option<Change> {
    match k
    case Delta(t) => if t == "" then None else Some(AddText(t))
    case Reasoning(t) => if t == "" then None else Some(AddReasoning(t))
    case Done => if TokensOf(ks) == 0 then None else Some(SetStats(Stats(TokensOf(ks), PrefillOf(ks))))
    case _ => None
  }

  /** Hearing one more payload. */
  lemma ReplyTold(ks: seq<Kind>, k: Kind)
    ensures Reply(StageAfter(k), ks + [k]) ==
            if Amendment(ks, k).None? then Reply(Listening, ks) else Amend(Reply(Listening, ks), Amendment(ks, k).value)
    ensures TokensOf(ks + [k]) == TokensOf(ks) + if (k.Delta? || k.Reasoning?) && k.text != "" then 1 else 0
    ensures PrefillOf(ks + [k]) == if k.Progress? then Some(k.p) else PrefillOf(ks)
  {
    assert (ks + [k])[..|ks|] == ks;
    assert TextOf(ks) + "" == TextOf(ks) && ReasoningOf(ks) + "" == ReasoningOf(ks);
  }

  /** The stream event's effect on its generation and on the list is the amendment's. */
  lemma SpellsTold(s: State, c: ConvoId, r: ReqId, ks: seq<Kind>, k: Kind)
    requires Spells(s, c, r, ks) && s.gens[r].stage.Listening?
    ensures Spells(Apply(s, Hear(r, k)), c, r, ks + [k])
  {
    hide Find;
    hide Changed;
    hide Clip;
    hide Reply;
    hide TokensOf;
    hide PrefillOf;
    hide Edit;
    ReplyTold(ks, k);
    FindAfter(s, Hear(r, k), c);
    var g := s.gens[r];
    if Amendment(ks, k).Some? {
      AmendClipped(g.history, Reply(Listening, ks), Amendment(ks, k).value);
    }
  }

  /** The steps of r itself that are not stream events. */
  lemma SpellsOwnStage(s: State, c: ConvoId, r: ReqId, ks: seq<Kind>, e: Event)
    requires Spells(s, c, r, ks) && Allowed(s, e)
    requires e == Listen(r) || (e.Reject? && e.reqId == r) || e == Finish(r)
    ensures Spells(Apply(s, e), c, r, ks)
  {
    hide Find;
    hide Changed;
    hide Clip;
    hide TokensOf;
    hide PrefillOf;
    hide TextOf;
    hide ReasoningOf;
    hide Edit;
    FindAfter(s, e, c);
    var g := s.gens[r];
    if e.Finish? && g.stage.outcome.Failed? {
      AmendClipped(g.history, Reply(g.stage, ks), SetError(g.stage.outcome.message));
    }
  }

  /** Everybody else's steps, in this conversation or another. */
  lemma SpellsOthers(s: State, c: ConvoId, r: ReqId, ks: seq<Kind>, e: Event)
    requires Spells(s, c, r, ks) && Allowed(s, e) && !(e.Begin? && e.c == c && c !in s.liveRef)
    requires !((e.Listen? || e.Reject? || e.Finish? || e.Hear?) && e.reqId == r)
    ensures Spells(Apply(s, e), c, r, ks)
  {
    hide Find;
    hide Changed;
    hide Clip;
    hide Reply;
    hide TokensOf;
    hide PrefillOf;
    hide Edit;
    hide Heard;
    hide Capped;
    hide Without;
    hide Settled;
    FindAfter(s, e, c);
    GensAfter(s, e);
    if e.Hear? && e.reqId in s.gens && s.gens[e.reqId].stage.Listening? {
      HeardControl(s, s, e.reqId, e.kind);
      HeardIssued(s, e.reqId, e.kind);
    }
  }

  lemma HeardIssued(s: State, r: ReqId, kind: Kind)
    requires r in s.gens
    ensures Heard(s, r, kind).issued == s.issued
  {
    hide Edit;
  }

  /** A generation that starts finds its conversation's others returned, and starts from its history. */
  lemma SpellsBegun(s: State, c: ConvoId, r: ReqId, history: seq<Msg>)
    requires OneWriter(s) && Allowed(s, Begin(c, r, history)) && c !in s.liveRef
    ensures Spells(Apply(s, Begin(c, r, history)), c, r, [])
  {
    hide Find;
    hide Clip;
    hide Edit;
    FindAfter(s, Begin(c, r, history), c);
    TokensOfNothing();
  }

  lemma TokensOfNothing()
    ensures TokensOf([]) == 0 && PrefillOf([]) == None && Reply(Starting, []) == BLANK
  {
  }

  lemma {:induction false} OpenIsListening(convos: seq<Conversation>, es: seq<Event>, r: ReqId)
    requires Legal(convos, es)
    ensures Open(es, r) <==> r in Run(convos, es).gens && Run(convos, es).gens[r].stage.Listening?
  {
    if es != [] {
      OpenIsListening(convos, es[..|es| - 1], r);
      StageStep(Run(convos, es[..|es| - 1]), es[|es| - 1], r);
    }
  }

  lemma StageStep(s: State, e: Event, r: ReqId)
    requires Allowed(s, e)
    ensures r in Apply(s, e).gens && Apply(s, e).gens[r].stage.Listening? <==>
      match e
      case Listen(q) => q == r || (r in s.gens && s.gens[r].stage.Listening?)
      case Reject(q, _) => q != r && r in s.gens && s.gens[r].stage.Listening?
      case Hear(q, kind) => (q != r || !(kind.Done? || kind.Error?)) && r in s.gens && s.gens[r].stage.Listening?
      case _ => r in s.gens && s.gens[r].stage.Listening?
  {
    hide Edit;
    hide Capped;
    hide Without;
    hide Settled;
    hide Ended;
    hide HeardOutput;
    hide Heard;
    HeardStage(s, e, r);
    EndedStage(s, e, r);
  }

  lemma HeardStage(s: State, e: Event, r: ReqId)
    ensures e.Hear? && e.reqId in s.gens && s.gens[e.reqId].stage.Listening? ==>
      var g := Heard(s, e.reqId, e.kind).gens;
      && g.Keys == s.gens.Keys && (r != e.reqId && r in s.gens ==> g[r] == s.gens[r])
      && (g[e.reqId].stage.Listening? <==> !(e.kind.Done? || e.kind.Error?))
  {
    hide Edit;
  }

  lemma EndedStage(s: State, e: Event, r: ReqId)
    ensures e.Finish? && e.reqId in s.gens && s.gens[e.reqId].stage.Over? ==>
      var g := Ended(s, e.reqId).gens;
      && g.Keys == s.gens.Keys && (r != e.reqId && r in s.gens ==> g[r] == s.gens[r]) && g[e.reqId].stage.Finished?
  {
    hide Edit;
  }

  lemma {:induction false} ToldBeforeBegin(convos: seq<Conversation>, es: seq<Event>, r: ReqId)
    requires Legal(convos, es) && r !in Run(convos, es).gens
    ensures Told(es, r) == []
  {
    if es != [] {
      var n := |es| - 1;
      GensAfter(Run(convos, es[..n]), es[n]);
      ToldBeforeBegin(convos, es[..n], r);
      OpenIsListening(convos, es[..n], r);
    }
  }

  lemma {:induction false} AlwaysSpells(convos: seq<Conversation>, es: seq<Event>, c: ConvoId)
    requires Legal(convos, es) && StopsAfterEnd(convos, es) && Latest(convos, es, c).Some?
    ensures Spells(Run(convos, es), c, Latest(convos, es, c).value, Told(es, Latest(convos, es, c).value))
  {
    hide Apply;
    hide Allowed;
    hide Spells;
    hide OneWriter;
    var n := |es| - 1;
    var s, e := Run(convos, es[..n]), es[n];
    var r := Latest(convos, es, c).value;
    OneWriterAlways(convos, es[..n]);
    OpenIsListening(convos, es[..n], r);
    if e.Begin? && e.c == c && c !in s.liveRef {
      BeginIsFresh(s, e);
      ToldBeforeBegin(convos, es[..n], r);
      assert Told(es, r) == Told(es[..n], r) + [];
      SpellsBegun(s, c, r, e.history);
    } else {
      AlwaysSpells(convos, es[..n], c);
      SpellsStep(s, c, r, Told(es[..n], r), e);
    }
  }

  lemma BeginIsFresh(s: State, e: Event)
    requires e.Begin? && Allowed(s, e)
    ensures e.reqId !in s.gens
  {
  }

  lemma SpellsStep(s: State, c: ConvoId, r: ReqId, ks: seq<Kind>, e: Event)
    requires Spells(s, c, r, ks) && Allowed(s, e) && !(e.Begin? && e.c == c && c !in s.liveRef)
    ensures Spells(Apply(s, e), c, r,
      ks + if e.Hear? && e.reqId == r && r in s.gens && s.gens[r].stage.Listening? then [e.kind] else [])
  {
    hide Spells;
    assert ks + [] == ks;
    if e.Hear? && e.reqId == r {
      SpellsHas(s, c, r, ks);
      if s.gens[r].stage.Listening? {
        SpellsTold(s, c, r, ks, e.kind);
      }
    } else if (e.Listen? || e.Reject? || e.Finish?) && e.reqId == r {
      SpellsOwnStage(s, c, r, ks, e);
    } else {
      SpellsOthers(s, c, r, ks, e);
    }
  }

  lemma SpellsHas(s: State, c: ConvoId, r: ReqId, ks: seq<Kind>)
    requires Spells(s, c, r, ks)
    ensures r in s.gens
  {
  }

  /**
   * The transcript of a listed conversation is the last MAX_STORED messages of its latest generation's history and
   * reply. The reply's text and reasoning are the concatenations of that stream's two delta channels up to the event
   * that ends it; its figures are there when the stream completed with output, its error once the run has failed.
   */
  lemma TranscriptIs(convos: seq<Conversation>, es: seq<Event>, c: ConvoId)
    requires Legal(convos, es) && StopsAfterEnd(convos, es)
    requires Latest(convos, es, c).Some? && Find(Run(convos, es).convos, c).Some?
    ensures var s, r := Run(convos, es), Latest(convos, es, c).value;
      && r in s.gens && s.gens[r].convo == c
      && Find(s.convos, c).value == Clip(s.gens[r].history + [Reply(s.gens[r].stage, Told(es, r))])
  {
    hide Run;
    hide Legal;
    hide StopsAfterEnd;
    hide Latest;
    AlwaysSpells(convos, es, c);
  }

  // ----- Why the assumption about stop is there -----

  /** One event later, for everything that reads a run from its end. */
  lemma Snoc(convos: seq<Conversation>, es: seq<Event>, e: Event, c: ConvoId, r: ReqId)
    ensures Run(convos, es + [e]) == Apply(Run(convos, es), e)
    ensures Legal(convos, es + [e]) <==> Legal(convos, es) && Allowed(Run(convos, es), e)
    ensures StopsAfterEnd(convos, es + [e]) <==> StopsAfterEnd(convos, es) && !ClearsRunning(Run(convos, es), e)
    ensures Latest(convos, es + [e], c) ==
            if e.Begin? && e.c == c && c !in Run(convos, es).liveRef then Some(e.reqId) else Latest(convos, es, c)
    ensures Told(es + [e], r) == Told(es, r) + if e.Hear? && e.reqId == r && Open(es, r) then [e.kind] else []
  {
    hide Apply;
    hide Allowed;
    hide ClearsRunning;
    assert (es + [e])[..|es|] == es;
  }

  /** The list after one more amendment of conversation "c". */
  lemma OneConversation(msgs: seq<Msg>, change: Change)
    ensures Edit([Conversation("c", msgs)], "c", change) == [Conversation("c", Changed(msgs, change))]
  {
  }

  /**
   * A stop pressed while a generation is still starting finds nothing to cancel and clears the row; a second one is
   * then let in, and the first one's words land in the second one's reply.
   */
  lemma FallbackMixesReplies()
    ensures var convos := [Conversation("c", [])];
      var es := [Begin("c", "a", []), Fallback("c"), Begin("c", "b", []), Listen("a"), Hear("a", Delta("x"))];
      && Legal(convos, es) && !StopsAfterEnd(convos, es)
      && Latest(convos, es, "c") == Some("b") && Told(es, "b") == []
      && Find(Run(convos, es).convos, "c") == Some([BLANK.(text := "x")])
  {
    hide Run;
    hide Legal;
    hide Told;
    hide Open;
    hide Latest;
    hide StopsAfterEnd;
    hide Edit;
    hide Changed;
    hide Settled;
    var convos := [Conversation("c", [])];
    var e1, e2, e3 := Begin("c", "a", []), Fallback("c"), Begin("c", "b", []);
    var e4, e5 := Listen("a"), Hear("a", Delta("x"));
    assert [] + [e1] == [e1] && [e1] + [e2] == [e1, e2] && [e1, e2] + [e3] == [e1, e2, e3];
    assert [e1, e2, e3] + [e4] == [e1, e2, e3, e4] && [e1, e2, e3, e4] + [e5] == [e1, e2, e3, e4, e5];
    NothingYet(convos);
    assert convos[0].id in Run(convos, []).issued;
    Snoc(convos, [], e1, "c", "b");
    OneConversation([], Replay([]));
    Snoc(convos, [e1], e2, "c", "b");
    assert "a" in Run(convos, [e1]).gens;
    Snoc(convos, [e1, e2], e3, "c", "b");
    OneConversation([BLANK], Replay([]));
    Snoc(convos, [e1, e2, e3], e4, "c", "b");
    Snoc(convos, [e1, e2, e3, e4], e5, "c", "b");
    OneConversation([BLANK], AddText("x"));
    BlankChanges();
  }

  lemma NothingYet(convos: seq<Conversation>)
    ensures Run(convos, []) == Start(convos) && Legal(convos, []) && StopsAfterEnd(convos, [])
    ensures Latest(convos, [], "c") == None && Told([], "b") == []
  {
  }

  lemma BlankChanges()
    ensures forall msgs :: Changed(msgs, Replay([])) == [BLANK]
    ensures Changed([BLANK], AddText("x")) == [BLANK.(text := "x")]
  {
    assert forall msgs :: Changed(msgs, Replay([])) == Clip([] + [BLANK]);
    assert "" + "x" == "x";
    assert [BLANK][..0] + [BLANK.(text := "x")] == [BLANK.(text := "x")];
  }
}
