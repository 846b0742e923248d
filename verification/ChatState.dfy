/**
 * The chat page of client/src/Chat.tsx as atomic steps, cut at every await: what each step does to the synchronous
 * map of running generations, to the queue of render-map updates behind it, and to the transcripts.
 */
module ChatState {

  import opened Options

  type ConvoId = string

  type ReqId = string

  const MAX_STORED: nat := 50

  const MAX_CONVOS: nat := 40

  // ----- Transcripts -----

  datatype Role = User | Assistant

  datatype Prefill = Prefill(finished: nat, total: nat, reused: nat)

  datatype Stats = Stats(tokens: nat, prefill: Option<Prefill>)

  datatype Msg = Msg(role: Role, text: string, reasoning: string, stats: Option<Stats>, error: Option<string>)

  const BLANK: Msg := Msg(Assistant, "", "", None, None)

  datatype Conversation = Conversation(id: ConvoId, msgs: seq<Msg>)

  /** What a generation does to its transcript: start over from a history, or amend the last message. */
  datatype Change =
    | Replay(history: seq<Msg>)
    | AddText(text: string)
    | AddReasoning(text: string)
    | SetStats(stats: Stats)
    | SetError(message: string)

  /** The last 50 messages. */
  function Clip(msgs: seq<Msg>): (r: seq<Msg>)
    ensures |r| <= MAX_STORED
  {
    if |msgs| <= MAX_STORED then msgs else msgs[|msgs| - MAX_STORED..]
  }

  /** Exactly the messages before the last 50 go. */
  lemma ClipKeepsLast(msgs: seq<Msg>)
    ensures var r := Clip(msgs);
      |r| == (if |msgs| < 50 then |msgs| else 50) && r == msgs[|msgs| - |r|..]
  {
  }

  function Amend(m: Msg, change: Change): Msg {
    match change
    case Replay(_) => m
    case AddText(t) => m.(text := m.text + t)
    case AddReasoning(t) => m.(reasoning := m.reasoning + t)
    case SetStats(s) => m.(stats := Some(s))
    case SetError(e) => if m.role == Assistant then m.(error := Some(e)) else m
  }

  function Changed(msgs: seq<Msg>, change: Change): seq<Msg> {
    if change.Replay? then Clip(change.history + [BLANK])
    else if msgs == [] then []
    else Clip(msgs[..|msgs| - 1] + [Amend(msgs[|msgs| - 1], change)])
  }

  function Edit(convos: seq<Conversation>, c: ConvoId, change: Change): seq<Conversation> {
    if convos == [] then [] else
    [if convos[0].id == c then Conversation(c, Changed(convos[0].msgs, change)) else convos[0]]
    + Edit(convos[1..], c, change)
  }

  function Without(convos: seq<Conversation>, c: ConvoId): seq<Conversation> {
    if convos == [] then [] else
    (if convos[0].id == c then [] else [convos[0]]) + Without(convos[1..], c)
  }

  /** The first 40 conversations: exactly those beyond go. */
  function Capped(convos: seq<Conversation>): (r: seq<Conversation>)
    ensures r <= convos && |r| == (if |convos| < 40 then |convos| else 40)
  {
    if |convos| <= MAX_CONVOS then convos else convos[..MAX_CONVOS]
  }

  function Find(convos: seq<Conversation>, c: ConvoId): Option<seq<Msg>> {
    if convos == [] then None
    else if convos[0].id == c then Some(convos[0].msgs)
    else Find(convos[1..], c)
  }

  // ----- The render map and its queue -----

  datatype Phase = Waiting | Reading | Streaming

  /** A row of liveMap. */
  datatype LiveGen = LiveGen(reqId: ReqId, phase: Phase, prefill: Option<Prefill>)

  /** The functional updates handed to setLiveMap. */
  datatype Update =
    | Put(c: ConvoId, row: LiveGen)
    | Move(c: ConvoId, reqId: ReqId, phase: Phase, prefill: Option<Prefill>)
    | Remove(c: ConvoId)

  function Updated(m: map<ConvoId, LiveGen>, u: Update): map<ConvoId, LiveGen> {
    match u
    case Put(c, row) => m[c := row]
    case Move(c, reqId, phase, prefill) =>
      if c !in m || m[c].reqId != reqId then m else m[c := m[c].(phase := phase, prefill := prefill)]
    case Remove(c) => m - {c}
  }

  /** The map once a queue of updates has been applied in order. */
  function Settled(m: map<ConvoId, LiveGen>, queue: seq<Update>): map<ConvoId, LiveGen> {
    if queue == [] then m else Updated(Settled(m, queue[..|queue| - 1]), queue[|queue| - 1])
  }

  // ----- Generations -----

  datatype Outcome = Completed | Failed(message: string)

  /** Where one run of `generate` is suspended: before listening, listening, past the promise, returned. */
  datatype Stage = Starting | Listening | Over(outcome: Outcome) | Finished(outcome: Outcome)

  datatype Generation = Generation(
    convo: ConvoId, history: seq<Msg>, stage: Stage, deltas: nat, prefill: Option<Prefill>
  )

  /** The payload of an api-chat event. */
  datatype Kind = Progress(p: Prefill) | Delta(text: string) | Reasoning(text: string) | Done | Error(message: string)

  datatype State = State(
    liveRef: map<ConvoId, ReqId>, liveMap: map<ConvoId, LiveGen>, queue: seq<Update>,
    convos: seq<Conversation>, issued: set<ConvoId>, gens: map<ReqId, Generation>
  )

  function Start(convos: seq<Conversation>): State {
    State(map[], map[], [], convos, set i | 0 <= i < |convos| :: convos[i].id, map[])
  }

  datatype Event =
    | New(c: ConvoId)
    | Delete(c: ConvoId)
    | Begin(c: ConvoId, reqId: ReqId, history: seq<Msg>)
    | Listen(reqId: ReqId)
    | Hear(reqId: ReqId, kind: Kind)
    | Reject(reqId: ReqId, message: string)
    | Finish(reqId: ReqId)
    | Fallback(c: ConvoId)
    | Render(count: nat)

  /** clearLive without a request id. */
  function ClearAny(s: State, c: ConvoId): State {
    s.(liveRef := s.liveRef - {c}, queue := s.queue + [Remove(c)])
  }

  /** clearLive with a request id. */
  function ClearLive(s: State, c: ConvoId, reqId: ReqId): State {
    if c in s.liveRef && s.liveRef[c] == reqId then ClearAny(s, c) else s
  }

  /** What a listening generation does with an event tagged with its own id. */
  function Heard(s: State, reqId: ReqId, kind: Kind): State
    requires reqId in s.gens
  {
    var g := s.gens[reqId];
    match kind
    case Progress(p) =>
      s.(gens := s.gens[reqId := g.(prefill := Some(p))], queue := s.queue + [Move(g.convo, reqId, Reading, Some(p))])
    case Delta(t) => if t == "" then s else HeardOutput(s, reqId, AddText(t))
    case Reasoning(t) => if t == "" then s else HeardOutput(s, reqId, AddReasoning(t))
    case Done =>
      s.(gens := s.gens[reqId := g.(stage := Over(Completed))],
         convos := if g.deltas > 0 then Edit(s.convos, g.convo, SetStats(Stats(g.deltas, g.prefill))) else s.convos)
    case Error(m) => s.(gens := s.gens[reqId := g.(stage := Over(Failed(m)))])
  }

  function HeardOutput(s: State, reqId: ReqId, change: Change): State
    requires reqId in s.gens
  {
    var g := s.gens[reqId];
    s.(gens := s.gens[reqId := g.(deltas := g.deltas + 1)],
       queue := if g.deltas == 0 then s.queue + [Move(g.convo, reqId, Streaming, None)] else s.queue,
       convos := Edit(s.convos, g.convo, change))
  }

  /** The catch and finally blocks of `generate`. */
  function Ended(s: State, reqId: ReqId): State
    requires reqId in s.gens && s.gens[reqId].stage.Over?
  {
    var g := s.gens[reqId];
    var convos :=
      if g.stage.outcome.Failed? then Edit(s.convos, g.convo, SetError(g.stage.outcome.message)) else s.convos;
    ClearLive(s.(gens := s.gens[reqId := g.(stage := Finished(g.stage.outcome))], convos := convos), g.convo, reqId)
  }

  function Apply(s: State, e: Event): State {
    match e
    case New(c) => s.(convos := Capped([Conversation(c, [])] + s.convos), issued := s.issued + {c})
    case Delete(c) => s.(convos := Without(s.convos, c))
    case Begin(c, reqId, history) =>
      if c in s.liveRef then s else
      s.(liveRef := s.liveRef[c := reqId],
         queue := s.queue + [Put(c, LiveGen(reqId, Waiting, None))],
         convos := Edit(s.convos, c, Replay(history)),
         gens := s.gens[reqId := Generation(c, history, Starting, 0, None)])
    case Listen(reqId) =>
      if reqId in s.gens && s.gens[reqId].stage.Starting? then
        s.(gens := s.gens[reqId := s.gens[reqId].(stage := Listening)])
      else s
    case Hear(reqId, kind) => if reqId in s.gens && s.gens[reqId].stage.Listening? then Heard(s, reqId, kind) else s
    case Reject(reqId, m) =>
      if reqId in s.gens && (s.gens[reqId].stage.Starting? || s.gens[reqId].stage.Listening?) then
        s.(gens := s.gens[reqId := s.gens[reqId].(stage := Over(Failed(m)))])
      else s
    case Finish(reqId) => if reqId in s.gens && s.gens[reqId].stage.Over? then Ended(s, reqId) else s
    case Fallback(c) => ClearAny(s, c)
    case Render(count) =>
      var k := if count < |s.queue| then count else |s.queue|;
      s.(liveMap := Settled(s.liveMap, s.queue[..k]), queue := s.queue[k..])
  }

  /**
   * Conversation and request ids are fresh, the delete button is off while a row is shown, and `generate` listens
   * once and ends once, in that order.
   */
  predicate Allowed(s: State, e: Event) {
    match e
    case New(c) => c !in s.issued
    case Delete(c) => c !in s.liveMap
    case Begin(c, reqId, _) => c in s.issued && reqId !in s.gens
    case Listen(reqId) => reqId in s.gens && s.gens[reqId].stage.Starting?
    case Finish(reqId) => reqId in s.gens && s.gens[reqId].stage.Over?
    case _ => true
  }

  function Run(convos: seq<Conversation>, es: seq<Event>): State {
    if es == [] then Start(convos) else Apply(Run(convos, es[..|es| - 1]), es[|es| - 1])
  }

  /** Every event of the run was allowed where it happened. */
  predicate Legal(convos: seq<Conversation>, es: seq<Event>) {
    es == [] || (Legal(convos, es[..|es| - 1]) && Allowed(Run(convos, es[..|es| - 1]), es[|es| - 1]))
  }
}
