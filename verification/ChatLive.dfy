/** The synchronous map and the rendered one, and who may write a conversation, in every run of the chat page. */
module ChatLive {

  import opened ChatState

  // ----- The two maps agree once the queue is applied -----

  ghost predicate SameRows(rows: map<ConvoId, LiveGen>, live: map<ConvoId, ReqId>) {
    rows.Keys == live.Keys && forall c | c in live :: rows[c].reqId == live[c]
  }

  lemma {:induction false} SettledAppend(m: map<ConvoId, LiveGen>, queue: seq<Update>, u: Update)
    ensures Settled(m, queue + [u]) == Updated(Settled(m, queue), u)
  {
    assert (queue + [u])[..|queue|] == queue;
  }

  /** Rendering any part of the queue now gives the same map in the end. */
  lemma {:induction false} SettledInParts(m: map<ConvoId, LiveGen>, queue: seq<Update>, k: nat)
    requires k <= |queue|
    ensures Settled(Settled(m, queue[..k]), queue[k..]) == Settled(m, queue)
    decreases |queue|
  {
    if k == |queue| {
      assert queue[..k] == queue;
    } else {
      var fewer := queue[..|queue| - 1];
      SettledInParts(m, fewer, k);
      assert fewer[..k] == queue[..k];
      assert queue[k..][..|queue| - k - 1] == fewer[k..];
    }
  }

  /** What a stream event does to the two maps: at most one phase update is queued. */
  lemma HeardQueue(s: State, reqId: ReqId, kind: Kind)
    requires reqId in s.gens
    ensures var t := Heard(s, reqId, kind);
      && t.liveRef == s.liveRef && t.liveMap == s.liveMap
      && (t.queue == s.queue || (|t.queue| == |s.queue| + 1 && t.queue == s.queue + [t.queue[|s.queue|]]
                                 && t.queue[|s.queue|].Move?))
  {
    hide Edit;
  }

  lemma AgreeHeard(s: State, reqId: ReqId, kind: Kind)
    requires reqId in s.gens && SameRows(Settled(s.liveMap, s.queue), s.liveRef)
    ensures var t := Heard(s, reqId, kind); SameRows(Settled(t.liveMap, t.queue), t.liveRef)
  {
    hide Settled;
    hide Heard;
    HeardQueue(s, reqId, kind);
    var t := Heard(s, reqId, kind);
    if t.queue != s.queue {
      SettledAppend(s.liveMap, s.queue, t.queue[|s.queue|]);
    }
  }

  lemma AgreeStep(s: State, e: Event)
    requires SameRows(Settled(s.liveMap, s.queue), s.liveRef)
    ensures var t := Apply(s, e); SameRows(Settled(t.liveMap, t.queue), t.liveRef)
  {
    hide Settled;
    hide Heard;
    hide Edit;
    hide Capped;
    hide Without;
    if e.Hear? && e.reqId in s.gens {
      AgreeHeard(s, e.reqId, e.kind);
      return;
    }
    var t := Apply(s, e);
    if e.Render? {
      SettledInParts(s.liveMap, s.queue, if e.count < |s.queue| then e.count else |s.queue|);
    } else if |t.queue| > |s.queue| {
      SettledAppend(s.liveMap, s.queue, t.queue[|s.queue|]);
    }
  }

  /**
   * In every run, allowed or not, applying the queued updates in order leaves liveMap with the conversations of
   * liveRef, under the same request ids.
   */
  lemma {:induction false} MapsAgree(convos: seq<Conversation>, es: seq<Event>)
    ensures var s := Run(convos, es); SameRows(Settled(s.liveMap, s.queue), s.liveRef)
  {
    if es != [] {
      MapsAgree(convos, es[..|es| - 1]);
      AgreeStep(Run(convos, es[..|es| - 1]), es[|es| - 1]);
    }
  }

  /** An event heard late moves no row into being: ended conversations stay ended once rendered. */
  lemma LatePhaseDoesNotResurrect(convos: seq<Conversation>, es: seq<Event>, reqId: ReqId, kind: Kind, c: ConvoId)
    requires c !in Run(convos, es).liveRef
    ensures var t := Apply(Run(convos, es), Hear(reqId, kind));
      c !in t.liveRef && c !in Settled(t.liveMap, t.queue)
  {
    hide Settled;
    hide Edit;
    hide Run;
    MapsAgree(convos, es);
    AgreeStep(Run(convos, es), Hear(reqId, kind));
  }

  /** The clear at a generation's end leaves every row that is not its own, also a later one of its conversation. */
  lemma KeyedClearKeepsOthers(convos: seq<Conversation>, es: seq<Event>, reqId: ReqId, c: ConvoId)
    requires var s := Run(convos, es); c in s.liveRef && s.liveRef[c] != reqId
    ensures var s, t := Run(convos, es), Apply(Run(convos, es), Finish(reqId));
      && c in t.liveRef && t.liveRef[c] == s.liveRef[c]
      && c in Settled(t.liveMap, t.queue) && Settled(t.liveMap, t.queue)[c].reqId == s.liveRef[c]
  {
    hide Settled;
    hide Edit;
    hide Run;
    MapsAgree(convos, es);
    AgreeStep(Run(convos, es), Finish(reqId));
  }

  // ----- One writer per conversation -----

  /** Every generation that has not returned is the one liveRef names for its conversation. */
  ghost predicate OneWriter(s: State) {
    forall r | r in s.gens && !s.gens[r].stage.Finished? ::
      s.gens[r].convo in s.liveRef && s.liveRef[s.gens[r].convo] == r
  }

  /** stop's unkeyed clear, on a conversation whose generation has not returned. */
  ghost predicate ClearsRunning(s: State, e: Event) {
    e.Fallback? && exists r :: r in s.gens && !s.gens[r].stage.Finished? && s.gens[r].convo == e.c
  }

  /** A stream event returns no generation, starts none, and leaves liveRef alone. */
  lemma HeardStages(s: State, reqId: ReqId, kind: Kind)
    requires reqId in s.gens && !s.gens[reqId].stage.Finished?
    ensures var t := Heard(s, reqId, kind);
      && t.liveRef == s.liveRef && t.gens.Keys == s.gens.Keys
      && forall r | r in s.gens :: t.gens[r].convo == s.gens[r].convo && t.gens[r].history == s.gens[r].history
                                   && (t.gens[r].stage.Finished? <==> s.gens[r].stage.Finished?)
                                   && (r != reqId ==> t.gens[r] == s.gens[r])
  {
    hide Edit;
  }

  /** A step breaks the one-writer rule exactly when it is such a clear. */
  lemma OneWriterStep(s: State, e: Event)
    requires OneWriter(s) && Allowed(s, e)
    ensures OneWriter(Apply(s, e)) <==> !ClearsRunning(s, e)
  {
    hide Edit;
    hide Capped;
    hide Without;
    hide Settled;
    hide Heard;
    if e.Hear? && e.reqId in s.gens && s.gens[e.reqId].stage.Listening? {
      HeardStages(s, e.reqId, e.kind);
    }
    if ClearsRunning(s, e) {
      var r :| r in s.gens && !s.gens[r].stage.Finished? && s.gens[r].convo == e.c;
      assert r in Apply(s, e).gens;
    } else {
      match e
      case Fallback(c) =>
        assert forall r | r in s.gens && !s.gens[r].stage.Finished? :: s.gens[r].convo != c;
      case _ =>
    }
  }

  /** The assumption about stop: wherever its unkeyed clear runs, the conversation's generation has returned. */
  ghost predicate StopsAfterEnd(convos: seq<Conversation>, es: seq<Event>) {
    es == [] || (StopsAfterEnd(convos, es[..|es| - 1]) && !ClearsRunning(Run(convos, es[..|es| - 1]), es[|es| - 1]))
  }

  lemma {:induction false} OneWriterAlways(convos: seq<Conversation>, es: seq<Event>)
    requires Legal(convos, es) && StopsAfterEnd(convos, es)
    ensures OneWriter(Run(convos, es))
  {
    if es != [] {
      OneWriterAlways(convos, es[..|es| - 1]);
      OneWriterStep(Run(convos, es[..|es| - 1]), es[|es| - 1]);
    }
  }

  // ----- What ends a generation, and what holds its conversation -----

  /** Before or while it listens, with its row in place. */
  ghost predicate Waits(s: State, r: ReqId, c: ConvoId) {
    && r in s.gens && s.gens[r].convo == c && (s.gens[r].stage.Starting? || s.gens[r].stage.Listening?)
    && c in s.liveRef && s.liveRef[c] == r
  }

  /** A rejection, an ending event it can hear, or the unkeyed clear of its conversation. */
  predicate Releases(s: State, e: Event, r: ReqId, c: ConvoId)
    requires r in s.gens
  {
    match e
    case Reject(q, _) => q == r
    case Hear(q, kind) => q == r && s.gens[r].stage.Listening? && (kind.Done? || kind.Error?)
    case Fallback(d) => d == c
    case _ => false
  }

  lemma HeardEnds(s: State, r: ReqId, kind: Kind)
    requires r in s.gens && s.gens[r].stage.Listening?
    ensures Heard(s, r, kind).liveRef == s.liveRef && r in Heard(s, r, kind).gens
    ensures Heard(s, r, kind).gens[r].convo == s.gens[r].convo
    ensures Heard(s, r, kind).gens[r].stage.Over? <==> kind.Done? || kind.Error?
    ensures Heard(s, r, kind).gens[r].stage.Listening? <==> !kind.Done? && !kind.Error?
  {
    hide Edit;
  }

  /** A waiting generation goes on waiting, and holds its row, through exactly the steps that do not release it. */
  lemma WaitsStep(s: State, e: Event, r: ReqId, c: ConvoId)
    requires Waits(s, r, c) && Allowed(s, e)
    ensures Waits(Apply(s, e), r, c) <==> !Releases(s, e, r, c)
  {
    hide Edit;
    hide Capped;
    hide Without;
    hide Settled;
    hide Heard;
    if e.Hear? && e.reqId in s.gens && s.gens[e.reqId].stage.Listening? {
      HeardStages(s, e.reqId, e.kind);
      HeardEnds(s, e.reqId, e.kind);
    }
  }

  ghost predicate NeverReleased(convos: seq<Conversation>, es: seq<Event>, more: seq<Event>, r: ReqId, c: ConvoId) {
    more == [] ||
    var sofar := more[..|more| - 1];
    && NeverReleased(convos, es, sofar, r, c)
    && Allowed(Run(convos, es + sofar), more[|more| - 1])
    && r in Run(convos, es + sofar).gens && !Releases(Run(convos, es + sofar), more[|more| - 1], r, c)
  }

  /**
   * A generation that nothing releases blocks its conversation for good: however long the run goes on, it waits, its
   * row stays, and every other generation of the conversation is refused. So does one whose listener could not be
   * installed: that rejects no promise and leaves nothing to hear.
   */
  lemma {:induction false} UnreleasedBlocks(
      convos: seq<Conversation>, es: seq<Event>, more: seq<Event>, r: ReqId, c: ConvoId, q: ReqId, history: seq<Msg>)
    requires Waits(Run(convos, es), r, c) && NeverReleased(convos, es, more, r, c)
    ensures var s := Run(convos, es + more);
      && Waits(s, r, c) && c in Settled(s.liveMap, s.queue) && Settled(s.liveMap, s.queue)[c].reqId == r
      && Apply(s, Begin(c, q, history)) == s
    decreases |more|
  {
    hide Settled;
    hide Apply;
    MapsAgree(convos, es + more);
    if more == [] {
      assert es + more == es;
    } else {
      var sofar := more[..|more| - 1];
      UnreleasedBlocks(convos, es, sofar, r, c, q, history);
      assert (es + more)[..|es + more| - 1] == es + sofar;
      WaitsStep(Run(convos, es + sofar), more[|more| - 1], r, c);
    }
    BeginRefused(Run(convos, es + more), c, q, history);
  }

  lemma BeginRefused(s: State, c: ConvoId, q: ReqId, history: seq<Msg>)
    ensures c in s.liveRef ==> Apply(s, Begin(c, q, history)) == s
  {
  }
}
