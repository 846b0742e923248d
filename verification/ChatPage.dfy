/** The chat page as an object: its refs, its state setters and its event listeners, step by step. */
module ChatPage {

  import opened ChatState
  import opened Options

  ghost predicate Distinct<T>(s: seq<T>) {
    forall i, j | 0 <= i < j < |s| :: s[i] != s[j]
  }

  lemma {:induction false} EditSnoc(all: seq<Conversation>, it: Conversation, c: ConvoId, change: Change)
    ensures Edit(all + [it], c, change) ==
            Edit(all, c, change) + [if it.id == c then Conversation(c, Changed(it.msgs, change)) else it]
  {
    hide Changed;
    if all != [] {
      EditSnoc(all[1..], it, c, change);
      assert (all + [it])[1..] == all[1..] + [it];
    } else {
      assert all + [it] == [it];
    }
  }

  lemma EditNothing(c: ConvoId, change: Change)
    ensures Edit([], c, change) == []
  {
  }

  lemma {:induction false} WithoutSnoc(all: seq<Conversation>, it: Conversation, c: ConvoId)
    ensures Without(all + [it], c) == Without(all, c) + if it.id == c then [] else [it]
  {
    if all != [] {
      WithoutSnoc(all[1..], it, c);
      assert (all + [it])[1..] == all[1..] + [it];
    } else {
      assert all + [it] == [it];
    }
  }

  lemma WithoutNothing(c: ConvoId)
    ensures Without([], c) == []
  {
  }

  class Page {
    /** The synchronous map: which request is running in which conversation. */
    var liveRef: map<ConvoId, ReqId>
    /** The rendered map, and the updates setLiveMap has queued behind it. */
    var liveMap: map<ConvoId, LiveGen>
    var queue: seq<Update>
    var convos: seq<Conversation>
    var gens: map<ReqId, Generation>
    /** The installed api-chat listeners; every event reaches all of them. */
    var listeners: seq<ReqId>
    ghost var issued: set<ConvoId>

    ghost predicate Valid()
      reads this
    {
      && Distinct(listeners)
      && (forall r :: r in listeners <==> r in gens && gens[r].stage.Listening?)
    }

    ghost function Abs(): State
      reads this
    {
      State(liveRef, liveMap, queue, convos, issued, gens)
    }

    constructor (loaded: seq<Conversation>)
      ensures Valid() && Abs() == Start(loaded)
    {
      liveRef, liveMap, queue, convos := map[], map[], [], loaded;
      gens, listeners, issued := map[], [], set i | 0 <= i < |loaded| :: loaded[i].id;
    }

    /** setActiveMsgs and the replay of `generate`: rewrite the conversation with that id. */
    method EditConvo(c: ConvoId, change: Change)
      modifies `convos
      ensures convos == Edit(old(convos), c, change)
    {
      convos := Edited(convos, c, change);
    }

    static method Edited(all: seq<Conversation>, c: ConvoId, change: Change) returns (next: seq<Conversation>)
      ensures next == Edit(all, c, change)
    {
      hide Edit;
      hide Changed;
      next := [];
      EditNothing(c, change);
      for i := 0 to |all|
        invariant next == Edit(all[..i], c, change)
      {
        EditSnoc(all[..i], all[i], c, change);
        assert all[..i + 1] == all[..i] + [all[i]];
        next := next + [if all[i].id == c then Conversation(c, Changed(all[i].msgs, change)) else all[i]];
      }
      assert all[..|all|] == all;
    }

    /** An empty conversation is reused; only without one a new conversation goes in front. */
    method NewChat(c: ConvoId) returns (active: ConvoId)
      requires Valid()
      modifies this
      ensures Valid()
      ensures if exists k :: k in old(convos) && k.msgs == []
              then Abs() == old(Abs()) && exists k :: k in convos && k.msgs == [] && k.id == active
              else Abs() == Apply(old(Abs()), New(c)) && active == c
    {
      for i := 0 to |convos|
        invariant forall j | 0 <= j < i :: convos[j].msgs != []
      {
        if convos[i].msgs == [] {
          assert convos[i] in convos;
          return convos[i].id;
        }
      }
      active := c;
      convos := Capped([Conversation(c, [])] + convos);
      issued := issued + {c};
    }

    method DeleteChat(c: ConvoId)
      requires Valid()
      modifies this
      ensures Valid() && Abs() == Apply(old(Abs()), Delete(c))
    {
      convos := Filtered(convos, c);
    }

    static method Filtered(all: seq<Conversation>, c: ConvoId) returns (kept: seq<Conversation>)
      ensures kept == Without(all, c)
    {
      hide Without;
      kept := [];
      WithoutNothing(c);
      for i := 0 to |all|
        invariant kept == Without(all[..i], c)
      {
        WithoutSnoc(all[..i], all[i], c);
        assert all[..i + 1] == all[..i] + [all[i]];
        if all[i].id != c {
          kept := kept + [all[i]];
        }
      }
      assert all[..|all|] == all;
    }

    /** `generate` up to its first await; it needs a cluster that answers and an address to send to. */
    method Generate(c: ConvoId, reqId: ReqId, history: seq<Msg>, online: bool, hasApi: bool) returns (started: bool)
      requires Valid() && reqId !in gens
      modifies this
      ensures Valid() && started == (c !in old(liveRef) && online && hasApi)
      ensures Abs() == if online && hasApi then Apply(old(Abs()), Begin(c, reqId, history)) else old(Abs())
    {
      if c in liveRef || !online || !hasApi {
        return false;
      }
      liveRef := liveRef[c := reqId];
      queue := queue + [Put(c, LiveGen(reqId, Waiting, None))];
      EditConvo(c, Replay(history));
      gens := gens[reqId := Generation(c, history, Starting, 0, None)];
      return true;
    }

    method AddListener(reqId: ReqId)
      requires Valid() && reqId in gens && gens[reqId].stage.Starting?
      modifies this
      ensures Valid() && Abs() == Apply(old(Abs()), Event.Listen(reqId))
    {
      gens := gens[reqId := gens[reqId].(stage := Listening)];
      listeners := listeners + [reqId];
    }

    /** `un?.()`: drop the listener. */
    method RemoveListener(reqId: ReqId)
      requires Distinct(listeners)
      modifies `listeners
      ensures Distinct(listeners) && forall r :: r in listeners <==> r in old(listeners) && r != reqId
    {
      ghost var was := listeners;
      var i, kept := 0, [];
      while i < |listeners|
        invariant 0 <= i <= |listeners| && listeners == was
        invariant forall r :: r in kept <==> r in listeners[..i] && r != reqId
        invariant Distinct(kept)
      {
        assert forall r :: r in listeners[..i + 1] <==> r in listeners[..i] || r == listeners[i];
        assert listeners[i] !in listeners[..i];
        assert listeners[i] !in kept;
        if listeners[i] != reqId {
          kept := kept + [listeners[i]];
        }
        i := i + 1;
      }
      assert listeners[..i] == listeners;
      listeners := kept;
    }

    /** One listener's handler, for the request `mine`. */
    method Handle(mine: ReqId, id: ReqId, kind: Kind)
      requires Valid() && mine in listeners
      modifies this
      ensures Valid() && Abs() == if id == mine then Heard(old(Abs()), mine, kind) else old(Abs())
    {
      if id != mine {
        return;
      }
      var g := gens[mine];
      match kind {
        case Progress(p) =>
          gens := gens[mine := g.(prefill := Some(p))];
          queue := queue + [Move(g.convo, mine, Reading, Some(p))];
        case Delta(text) =>
          if text != "" {
            Output(mine, AddText(text));
          }
        case Reasoning(text) =>
          if text != "" {
            Output(mine, AddReasoning(text));
          }
        case Done =>
          RemoveListener(mine);
          if g.deltas > 0 {
            EditConvo(g.convo, SetStats(Stats(g.deltas, g.prefill)));
          }
          gens := gens[mine := g.(stage := Over(Completed))];
        case Error(message) =>
          RemoveListener(mine);
          gens := gens[mine := g.(stage := Over(Failed(message)))];
      }
    }

    method Output(mine: ReqId, change: Change)
      requires Valid() && mine in listeners
      modifies this
      ensures Valid() && listeners == old(listeners) && Abs() == HeardOutput(old(Abs()), mine, change)
    {
      var g := gens[mine];
      if g.deltas == 0 {
        queue := queue + [Move(g.convo, mine, Streaming, None)];
      }
      gens := gens[mine := g.(deltas := g.deltas + 1)];
      EditConvo(g.convo, change);
    }

    /** The bridge broadcasts an event to every listener; only the one with its id acts on it. */
    method Emit(id: ReqId, kind: Kind)
      requires Valid()
      modifies this
      ensures Valid() && Abs() == Apply(old(Abs()), Hear(id, kind))
    {
      hide Heard;
      var all := listeners;
      var i := 0;
      while i < |all|
        invariant 0 <= i <= |all| && Valid()
        invariant forall k | i <= k < |all| :: all[k] in listeners
        invariant Abs() == if id in all[..i] then Heard(old(Abs()), id, kind) else old(Abs())
      {
        assert all[i] !in all[..i];
        HeardListeners(Abs(), all[i], kind);
        Handle(all[i], id, kind);
        i := i + 1;
      }
      assert all[..i] == all;
    }

    lemma HeardListeners(s: State, r: ReqId, kind: Kind)
      requires r in s.gens
      ensures forall q | q in s.gens && q != r :: q in Heard(s, r, kind).gens && Heard(s, r, kind).gens[q] == s.gens[q]
    {
    }

    /**
     * The promise is rejected: an import failed before the listener, or the stream call after it. A listener that
     * cannot be installed rejects nothing; that generation stays where it is.
     */
    method Fail(reqId: ReqId, message: string)
      requires Valid()
      modifies this
      ensures Valid() && Abs() == Apply(old(Abs()), Event.Reject(reqId, message))
    {
      if reqId in gens && (gens[reqId].stage.Starting? || gens[reqId].stage.Listening?) {
        RemoveListener(reqId);
        gens := gens[reqId := gens[reqId].(stage := Over(Failed(message)))];
      }
    }

    /** The catch and finally blocks of `generate`. */
    method End(reqId: ReqId)
      requires Valid() && reqId in gens && gens[reqId].stage.Over?
      modifies this
      ensures Valid() && Abs() == Apply(old(Abs()), Event.Finish(reqId))
    {
      var g := gens[reqId];
      if g.stage.outcome.Failed? {
        EditConvo(g.convo, SetError(g.stage.outcome.message));
      }
      gens := gens[reqId := g.(stage := Finished(g.stage.outcome))];
      Clear(g.convo, Some(reqId));
    }

    /** clearLive; without a request id it clears whatever row is there. */
    method Clear(c: ConvoId, reqId: Option<ReqId>)
      requires Valid()
      modifies this
      ensures Valid()
      ensures Abs() == if reqId.Some? then ClearLive(old(Abs()), c, reqId.value) else ClearAny(old(Abs()), c)
    {
      if reqId.Some? && (c !in liveRef || liveRef[c] != reqId.value) {
        return;
      }
      liveRef := liveRef - {c};
      queue := queue + [Remove(c)];
    }

    /** stop, once the bridge has found nothing to cancel. */
    method StopFallback(c: ConvoId)
      requires Valid()
      modifies this
      ensures Valid() && Abs() == Apply(old(Abs()), Event.Fallback(c))
    {
      Clear(c, None);
    }

    /** React applies some of the queued updates in order. */
    method RenderQueue(count: nat)
      requires Valid()
      modifies this
      ensures Valid() && Abs() == Apply(old(Abs()), Event.Render(count))
    {
      var k := if count < |queue| then count else |queue|;
      ghost var from, all := liveMap, queue;
      assert all[..0] == [];
      var i := 0;
      while i < k
        invariant 0 <= i <= k && queue == all[i..] && Valid()
        invariant liveMap == Settled(from, all[..i])
        invariant Abs() == old(Abs()).(liveMap := liveMap, queue := queue)
      {
        assert all[..i + 1][..i] == all[..i];
        liveMap := Updated(liveMap, queue[0]);
        queue := queue[1..];
        i := i + 1;
      }
    }
  }
}
