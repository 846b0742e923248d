/**
 * What the rendered rows say, in every run of the chat page: a conversation has a row exactly while its generation has
 * not returned, the row shows how far that generation's own stream has come, and no two conversations share an id.
 */
module ChatRows {

  import opened ChatLive
  import opened ChatReplies
  import opened ChatState
  import opened ChatTranscripts
  import opened Options

  // ----- The row of a running generation -----

  /** The row that the payloads heard so far leave: the latest progress, or the first output since the start. */
  function RowOf(r: ReqId, ks: seq<Kind>): LiveGen {
    if ks == [] then LiveGen(r, Waiting, None) else
    var before := ks[..|ks| - 1];
    match ks[|ks| - 1]
    case Progress(p) => LiveGen(r, Reading, Some(p))
    case Delta(t) => if t != "" && TokensOf(before) == 0 then LiveGen(r, Streaming, None) else RowOf(r, before)
    case Reasoning(t) => if t != "" && TokensOf(before) == 0 then LiveGen(r, Streaming, None) else RowOf(r, before)
    case _ => RowOf(r, before)
  }

  /** The row of c is that of its generation r, which has not returned and has heard ks. */
  ghost predicate Shows(s: State, c: ConvoId, r: ReqId, ks: seq<Kind>) {
    && c in s.liveRef && s.liveRef[c] == r
    && r in s.gens && s.gens[r].convo == c && !s.gens[r].stage.Finished? && s.gens[r].deltas == TokensOf(ks)
    && c in Settled(s.liveMap, s.queue) && Settled(s.liveMap, s.queue)[c] == RowOf(r, ks)
  }

  lemma RowOfNext(r: ReqId, ks: seq<Kind>, k: Kind)
    ensures TokensOf(ks + [k]) == TokensOf(ks) + if (k.Delta? || k.Reasoning?) && k.text != "" then 1 else 0
    ensures RowOf(r, ks + [k]) ==
      if k.Progress? then LiveGen(r, Reading, Some(k.p))
      else if (k.Delta? || k.Reasoning?) && k.text != "" && TokensOf(ks) == 0 then LiveGen(r, Streaming, None)
      else RowOf(r, ks)
  {
    assert (ks + [k])[..|ks|] == ks;
  }

  lemma {:induction false} RowHasId(r: ReqId, ks: seq<Kind>)
    ensures RowOf(r, ks).reqId == r
  {
    if ks != [] {
      RowHasId(r, ks[..|ks| - 1]);
    }
  }

  /** r's own stream moves its row. */
  lemma ShowsTold(s: State, c: ConvoId, r: ReqId, ks: seq<Kind>, k: Kind)
    requires Shows(s, c, r, ks) && s.gens[r].stage.Listening?
    ensures Shows(Apply(s, Hear(r, k)), c, r, ks + [k])
  {
    hide Settled;
    hide Edit;
    hide TokensOf;
    hide RowOf;
    RowOfNext(r, ks, k);
    RowHasId(r, ks);
    var t := Apply(s, Hear(r, k));
    HeardQueue(s, r, k);
    if t.queue != s.queue {
      SettledAppend(s.liveMap, s.queue, t.queue[|s.queue|]);
    }
  }

  /** Another stream leaves it alone, also one of this conversation. */
  lemma ShowsOtherStream(s: State, c: ConvoId, r: ReqId, ks: seq<Kind>, q: ReqId, k: Kind)
    requires Shows(s, c, r, ks) && q != r
    ensures Shows(Apply(s, Hear(q, k)), c, r, ks)
  {
    hide Settled;
    hide Edit;
    hide TokensOf;
    hide RowOf;
    RowHasId(r, ks);
    if q in s.gens && s.gens[q].stage.Listening? {
      var t := Apply(s, Hear(q, k));
      HeardQueue(s, q, k);
      if t.queue != s.queue {
        SettledAppend(s.liveMap, s.queue, t.queue[|s.queue|]);
        OtherMove(s, q, k);
      }
    }
  }

  lemma OtherMove(s: State, q: ReqId, k: Kind)
    requires q in s.gens && |Heard(s, q, k).queue| > |s.queue|
    ensures Heard(s, q, k).queue[|s.queue|].Move? && Heard(s, q, k).queue[|s.queue|].reqId == q
  {
    hide Edit;
  }

  /** The step takes the row away: the generation returns, or the unkeyed clear of its conversation. */
  predicate Drops(s: State, e: Event, c: ConvoId, r: ReqId) {
    (e == Finish(r) && r in s.gens && s.gens[r].stage.Over?) || e == Fallback(c)
  }

  lemma ShowsOtherStep(s: State, c: ConvoId, r: ReqId, ks: seq<Kind>, e: Event)
    requires Shows(s, c, r, ks) && Allowed(s, e) && !e.Hear? && !Drops(s, e, c, r)
    ensures Shows(Apply(s, e), c, r, ks)
  {
    hide Settled;
    hide Edit;
    hide Capped;
    hide Without;
    hide TokensOf;
    hide RowOf;
    var t := Apply(s, e);
    if e.Render? {
      SettledInParts(s.liveMap, s.queue, if e.count < |s.queue| then e.count else |s.queue|);
    } else if |t.queue| > |s.queue| {
      SettledAppend(s.liveMap, s.queue, t.queue[|s.queue|]);
    }
  }

  /** A generation that starts is shown as waiting. */
  lemma ShowsBegun(s: State, c: ConvoId, r: ReqId, history: seq<Msg>)
    requires c !in s.liveRef
    ensures Shows(Apply(s, Begin(c, r, history)), c, r, [])
  {
    hide Settled;
    hide Edit;
    SettledAppend(s.liveMap, s.queue, Put(c, LiveGen(r, Waiting, None)));
    RowOfNothing(r);
  }

  lemma RowOfNothing(r: ReqId)
    ensures RowOf(r, []) == LiveGen(r, Waiting, None) && TokensOf([]) == 0
  {
  }

  lemma NewRowIsBegun(s: State, e: Event, c: ConvoId)
    requires c in Apply(s, e).liveRef && (c !in s.liveRef || Apply(s, e).liveRef[c] != s.liveRef[c])
    ensures e.Begin? && e.c == c && c !in s.liveRef && Apply(s, e).liveRef[c] == e.reqId
  {
    hide Edit;
    hide Capped;
    hide Without;
    hide Settled;
    hide Heard;
    if e.Hear? && e.reqId in s.gens {
      HeardQueue(s, e.reqId, e.kind);
    }
  }

  lemma DroppedIsGone(s: State, c: ConvoId, r: ReqId, ks: seq<Kind>, e: Event)
    requires Shows(s, c, r, ks) && Drops(s, e, c, r)
    ensures c !in Apply(s, e).liveRef
  {
    hide Edit;
    hide Settled;
    hide RowOf;
    hide TokensOf;
  }

  /**
   * In every run each row names a generation of its conversation that has not returned, and shows what that
   * generation's own stream has come to.
   */
  lemma {:induction false} RowsShowStreams(convos: seq<Conversation>, es: seq<Event>, c: ConvoId)
    requires Legal(convos, es) && c in Run(convos, es).liveRef
    ensures var r := Run(convos, es).liveRef[c]; Shows(Run(convos, es), c, r, Told(es, r))
    decreases |es|
  {
    hide Apply;
    hide Allowed;
    hide Shows;
    hide Drops;
    var n := |es| - 1;
    var s, e := Run(convos, es[..n]), es[n];
    var r := Run(convos, es).liveRef[c];
    OpenIsListening(convos, es[..n], r);
    assert Told(es[..n], r) + [] == Told(es[..n], r);
    if c !in s.liveRef || s.liveRef[c] != r {
      NewRowIsBegun(s, e, c);
      BeginIsFresh(s, e);
      ToldBeforeBegin(convos, es[..n], r);
      ShowsBegun(s, c, r, e.history);
    } else {
      RowsShowStreams(convos, es[..n], c);
      ShowsNext(s, c, r, Told(es[..n], r), e);
    }
  }

  lemma ShowsNext(s: State, c: ConvoId, r: ReqId, ks: seq<Kind>, e: Event)
    requires Shows(s, c, r, ks) && Allowed(s, e) && c in Apply(s, e).liveRef
    ensures Shows(Apply(s, e), c, r,
      ks + if e.Hear? && e.reqId == r && r in s.gens && s.gens[r].stage.Listening? then [e.kind] else [])
  {
    hide Apply;
    hide Allowed;
    assert ks + [] == ks;
    if Drops(s, e, c, r) {
      DroppedIsGone(s, c, r, ks, e);
    } else if !e.Hear? {
      ShowsOtherStep(s, c, r, ks, e);
    } else if e.reqId != r {
      ShowsOtherStream(s, c, r, ks, e.reqId, e.kind);
    } else if s.gens[r].stage.Listening? {
      ShowsTold(s, c, r, ks, e.kind);
    } else {
      NotHeard(s, r, e.kind);
    }
  }

  lemma NotHeard(s: State, r: ReqId, k: Kind)
    requires r in s.gens && !s.gens[r].stage.Listening?
    ensures Apply(s, Hear(r, k)) == s
  {
  }

  /**
   * When a generation returns, its conversation is free: the row is gone, from the rendered map too once its queue is
   * applied, and the next generation starts.
   */
  lemma ReturnFrees(convos: seq<Conversation>, es: seq<Event>, r: ReqId, q: ReqId, history: seq<Msg>)
    requires Legal(convos, es)
    requires var s := Run(convos, es);
      && r in s.gens && s.gens[r].stage.Over? && s.gens[r].convo in s.liveRef && s.liveRef[s.gens[r].convo] == r
    ensures var c, t := Run(convos, es).gens[r].convo, Apply(Run(convos, es), Finish(r));
      && c !in t.liveRef && c !in Settled(t.liveMap, t.queue)
      && c in Apply(t, Begin(c, q, history)).liveRef && Apply(t, Begin(c, q, history)).liveRef[c] == q
  {
    hide Settled;
    hide Edit;
    hide Run;
    MapsAgree(convos, es);
    AgreeStep(Run(convos, es), Finish(r));
  }

  // ----- Conversations -----

  ghost predicate DistinctIds(convos: seq<Conversation>) {
    forall i, j | 0 <= i < j < |convos| :: convos[i].id != convos[j].id
  }

  ghost predicate Listed(s: State) {
    DistinctIds(s.convos) && |s.convos| <= 40 && forall i | 0 <= i < |s.convos| :: s.convos[i].id in s.issued
  }

  lemma {:induction false} EditKeepsIds(convos: seq<Conversation>, c: ConvoId, change: Change)
    ensures |Edit(convos, c, change)| == |convos|
    ensures forall i | 0 <= i < |convos| :: Edit(convos, c, change)[i].id == convos[i].id
  {
    hide Changed;
    if convos != [] {
      EditKeepsIds(convos[1..], c, change);
    }
  }

  /** Deleting takes out the conversations with that id, and keeps the others in order. */
  lemma {:induction false} WithoutIs(convos: seq<Conversation>, c: ConvoId)
    ensures var kept := Without(convos, c);
      && |kept| <= |convos|
      && (forall k | k in kept :: k in convos && k.id != c)
      && (forall k | k in convos && k.id != c :: k in kept)
      && (DistinctIds(convos) ==> DistinctIds(kept))
  {
    if convos != [] {
      WithoutIs(convos[1..], c);
      var kept := Without(convos[1..], c);
      assert forall k | k in convos :: k == convos[0] || k in convos[1..];
      assert forall k | k in convos[1..] :: k in convos;
      if DistinctIds(convos) && convos[0].id != c {
        assert forall i, j | 0 <= i < j < |convos[1..]| :: convos[1..][i].id != convos[1..][j].id;
        FirstIsApart(convos, kept);
      }
    }
  }

  lemma FirstIsApart(convos: seq<Conversation>, kept: seq<Conversation>)
    requires convos != [] && DistinctIds(convos) && DistinctIds(kept) && forall k | k in kept :: k in convos[1..]
    ensures DistinctIds([convos[0]] + kept)
  {
    var all := [convos[0]] + kept;
    forall i, j | 0 <= i < j < |all| ensures all[i].id != all[j].id {
      if i == 0 {
        assert all[j] == kept[j - 1] && kept[j - 1] in convos[1..];
      } else {
        assert all[i] == kept[i - 1] && all[j] == kept[j - 1];
      }
    }
  }

  lemma ListedStep(s: State, e: Event)
    requires Listed(s) && Allowed(s, e)
    ensures Listed(Apply(s, e))
  {
    hide Edit;
    hide Without;
    hide Settled;
    hide Changed;
    forall c, change ensures
      && |Edit(s.convos, c, change)| == |s.convos|
      && forall i | 0 <= i < |s.convos| :: Edit(s.convos, c, change)[i].id == s.convos[i].id
    {
      EditKeepsIds(s.convos, c, change);
    }
    if e.Delete? {
      WithoutIs(s.convos, e.c);
      assert forall k | k in s.convos :: k.id in s.issued;
    } else if e.New? {
      var more := [Conversation(e.c, [])] + s.convos;
      assert forall i | 0 < i < |more| :: more[i] == s.convos[i - 1];
    }
  }

  /** No two listed conversations ever share an id, and there are at most 40 of them. */
  lemma {:induction false} IdsStayDistinct(convos: seq<Conversation>, es: seq<Event>)
    requires Legal(convos, es) && DistinctIds(convos) && |convos| <= 40
    ensures Listed(Run(convos, es))
  {
    hide Apply;
    hide Allowed;
    if es != [] {
      IdsStayDistinct(convos, es[..|es| - 1]);
      ListedStep(Run(convos, es[..|es| - 1]), es[|es| - 1]);
    }
  }

  /** Only a reply is marked as failed. */
  lemma OnlyRepliesFail(m: Msg, message: string)
    ensures Amend(m, SetError(message)) == if m.role.User? then m else m.(error := Some(message))
  {
  }
}
