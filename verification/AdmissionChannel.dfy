/**
 * Who publishes the channel key: several coordinator processes on one machine, one key file, the lock beside it and
 * the agent that mints under what it reads (src/common/admission.c and src/coord/coord_main.c).
 */
module AdmissionChannel {

  import opened Admission
  import opened AdmissionTicket
  import opened Options

  type Process = nat

  /** A running coordinator: its key, and whether its start succeeded, so that it repairs the file. */
  datatype Coordinator = Coordinator(key: Key, defends: bool)

  /** `file` is None when no key can be read from it; `agent` is the key the agent minted with last. */
  datatype Machine = Machine(
    file: Option<Key>, holder: Option<Process>, procs: map<Process, Coordinator>, agent: Option<Key>
  )

  /** A write that fails may have truncated the file first. */
  datatype Write = Written | Untouched | Truncated

  datatype Event =
    | Start(p: Process, key: Key, lockOpens: bool, write: Write, files: Files)
    | Exit(p: Process)                     // or a crash: the system drops the lock
    | Repair(p: Process, write: Write)     // a ticket did not verify at p
    | Read                                 // the agent re-reads the file

  function Put(file: Option<Key>, key: Key, write: Write): Option<Key> {
    match write
    case Written => Some(key)
    case Untouched => file
    case Truncated => None
  }

  function ClaimOf(m: Machine, p: Process, lockOpens: bool): Claim {
    if m.holder == Some(p) then Ours
    else if !lockOpens then NoLock
    else if m.holder.None? then Ours
    else Theirs
  }

  /** The claim and the success of the write are this machine's. */
  predicate Meets(m: Machine, e: Event)
    requires e.Start?
  {
    e.files.channelPath && e.files.claim == ClaimOf(m, e.p, e.lockOpens) && e.files.channelWrite == e.write.Written?
  }

  function Step(m: Machine, e: Event): Machine {
    match e
    case Start(p, key, lockOpens, write, files) =>
      m.(file := if files.Publishes() then Put(m.file, key, write) else m.file,
         holder := if files.claim == Ours then Some(p) else m.holder,
         procs := m.procs[p := Coordinator(key, files.Succeeds())])
    case Exit(p) => m.(procs := m.procs - {p}, holder := if m.holder == Some(p) then None else m.holder)
    case Repair(p, write) =>
      if p !in m.procs || m.file == Some(m.procs[p].key) then m else m.(file := Put(m.file, m.procs[p].key, write))
    case Read => if m.file.Some? then m.(agent := m.file) else m
  }

  /** Keys are fresh, a process starts once, and only a coordinator whose start succeeded repairs the file. */
  predicate Allowed(m: Machine, e: Event) {
    match e
    case Start(p, key, _, _, _) => p !in m.procs && Meets(m, e) && forall q | q in m.procs :: m.procs[q].key != key
    case Exit(p) => p in m.procs
    case Repair(p, _) => p in m.procs && m.procs[p].defends
    case Read => true
  }

  // ----- The owner's key stays published -----

  predicate Serves(m: Machine, p: Process) {
    m.holder == Some(p) && p in m.procs && m.procs[p].defends
  }

  /** The key in the file is that of the coordinator that owns the channel, and keys tell processes apart. */
  ghost predicate Published(m: Machine) {
    && (m.holder.Some? ==> m.holder.value in m.procs)
    && (forall p, q | p in m.procs && q in m.procs && p != q :: m.procs[p].key != m.procs[q].key)
    && forall p | Serves(m, p) :: m.file == Some(m.procs[p].key)
  }

  /** While an owner serves, no start writes without the lock, and no other coordinator repairs. */
  predicate Keeps(m: Machine, e: Event)
    requires Allowed(m, e)
  {
    m.holder.Some? && Serves(m, m.holder.value) ==>
      match e
      case Start(_, _, lockOpens, write, _) => lockOpens || write.Untouched?
      case Repair(p, write) => p == m.holder.value || write.Untouched?
      case _ => true
  }

  /** A step takes the serving coordinator's key out of the file exactly when it is such a start or repair. */
  lemma PublishedIff(m: Machine, e: Event)
    requires Published(m) && Allowed(m, e)
    ensures Published(Step(m, e)) <==> Keeps(m, e)
  {
    if m.holder.Some? && Serves(m, m.holder.value) {
      var h := m.holder.value;
      match e
      case Start(p, key, lockOpens, write, files) =>
        assert Serves(Step(m, e), h);
      case Repair(p, write) =>
        assert Serves(Step(m, e), h);
      case _ =>
    }
  }

  ghost predicate Run(trace: seq<Machine>, events: seq<Event>) {
    && |trace| == |events| + 1
    && trace[0].holder == None && trace[0].procs == map[]
    && forall i | 0 <= i < |events| :: Allowed(trace[i], events[i]) && trace[i + 1] == Step(trace[i], events[i])
  }

  /** Any allowed event continues a run. */
  lemma RunContinues(trace: seq<Machine>, events: seq<Event>, e: Event)
    requires Run(trace, events) && Allowed(trace[|events|], e)
    ensures Run(trace + [Step(trace[|events|], e)], events + [e])
  {
    hide Step;
    hide Allowed;
    var more, all := trace + [Step(trace[|events|], e)], events + [e];
    forall i | 0 <= i < |all| ensures Allowed(more[i], all[i]) && more[i + 1] == Step(more[i], all[i]) {
      if i < |events| {
        assert more[i] == trace[i] && more[i + 1] == trace[i + 1] && all[i] == events[i];
      }
    }
  }

  lemma RunBegins(file: Option<Key>, agent: Option<Key>)
    ensures Run([Machine(file, None, map[], agent)], [])
  {
  }

  lemma {:induction false} RunPublishedIff(trace: seq<Machine>, events: seq<Event>, i: nat)
    requires Run(trace, events) && i < |trace|
    ensures (forall j | 0 <= j <= i :: Published(trace[j])) <==> forall j | 0 <= j < i :: Keeps(trace[j], events[j])
  {
    hide Step;
    hide Keeps;
    if i > 0 {
      hide Published;
      RunPublishedIff(trace, events, i - 1);
      assert Allowed(trace[i - 1], events[i - 1]) && trace[i - 1 + 1] == Step(trace[i - 1], events[i - 1]);
      if Published(trace[i - 1]) {
        PublishedIff(trace[i - 1], events[i - 1]);
      }
    }
  }

  /** As long as the lock file opens, the owner is the only one that repairs. */
  ghost predicate OneDefender(m: Machine) {
    forall p | p in m.procs && m.procs[p].defends :: m.holder == Some(p)
  }

  predicate LockOpens(e: Event) {
    e.Start? ==> e.lockOpens
  }

  /** So in every run whose lock file always opens, the serving coordinator's key stays published. */
  lemma {:induction false} OwnerStaysPublished(trace: seq<Machine>, events: seq<Event>, i: nat)
    requires Run(trace, events) && i < |trace| && forall j | 0 <= j < i :: LockOpens(events[j])
    ensures OneDefender(trace[i]) && Published(trace[i])
  {
    hide Step;
    if i > 0 {
      hide Published;
      OwnerStaysPublished(trace, events, i - 1);
      var m := trace[i - 1];
      assert LockOpens(events[i - 1]);
      assert Allowed(m, events[i - 1]) && trace[i - 1 + 1] == Step(m, events[i - 1]);
      PublishedIff(m, events[i - 1]);
      OneDefenderStays(m, events[i - 1]);
    }
  }

  lemma OneDefenderStays(m: Machine, e: Event)
    requires OneDefender(m) && Allowed(m, e) && LockOpens(e)
    ensures OneDefender(Step(m, e)) && Keeps(m, e)
  {
  }

  // ----- What the agent's tickets are worth -----

  /** A ticket minted under the agent's key fails to verify at p exactly when that is not p's key. */
  lemma VerifiesIff(s: State, agent: Key, job: string, exp: int, nonceHex: string, bodyHex: string, now: int)
    requires s.armed && JobOk(job) && InLong(exp) && Hex(nonceHex, 32) && Hex(bodyHex, 64)
    ensures var t := Ticket(job, exp, nonceHex, bodyHex, Tag(agent, MacInput(job, exp, nonceHex, bodyHex)));
      Verdict(s, Parsed(t), bodyHex, now) == BAD_MAC <==> agent != s.key
  {
    hide MacInput;
  }

  /**
   * Whatever the file holds, one refused ticket is enough: the repair and the agent's re-read bring the agent to the
   * key of the coordinator that refused it.
   */
  lemma OneRefusalHeals(m: Machine, p: Process)
    requires Allowed(m, Repair(p, Written))
    ensures Step(Step(m, Repair(p, Written)), Read).agent == Some(m.procs[p].key)
  {
  }

  /** A file that cannot be read leaves the agent at the key it has. */
  lemma ReadKeepsOrFollows(m: Machine)
    ensures Step(m, Read) == m.(agent := if m.file.None? then m.agent else m.file)
  {
  }

  // ----- Without the lock -----

  /** No repair would change the file. */
  ghost predicate AtRest(m: Machine) {
    forall p | p in m.procs && m.procs[p].defends :: m.file == Some(m.procs[p].key)
  }

  /** Repairs can come to rest exactly when at most one coordinator defends the file; two overwrite each other. */
  lemma RestIff(m: Machine)
    requires forall p, q | p in m.procs && q in m.procs && p != q :: m.procs[p].key != m.procs[q].key
    ensures (exists file :: AtRest(m.(file := file)))
      <==> forall p, q | p in m.procs && q in m.procs && m.procs[p].defends && m.procs[q].defends :: p == q
  {
    if p :| p in m.procs && m.procs[p].defends {
      if forall q | q in m.procs && m.procs[q].defends :: p == q {
        assert AtRest(m.(file := Some(m.procs[p].key)));
      }
    } else {
      assert AtRest(m.(file := None));
    }
  }

  const NO_LOCK: Files := Files(false, None, "", true, true, NoLock, true)

  const FIRST: Files := NO_LOCK.(claim := Ours)

  /**
   * Two coordinators start, the second where the lock file cannot be opened: it overwrites the key of the first, which
   * owns the channel, and from then on both defend.
   */
  lemma UnopenedLockStrandsTheOwner(p: Process, q: Process, k: Key, l: Key)
    requires p != q && k != l
    ensures var m0 := Machine(None, None, map[], None);
      var e1, e2 := Start(p, k, true, Written, FIRST), Start(q, l, false, Written, NO_LOCK);
      var m1 := Step(m0, e1);
      var m2 := Step(m1, e2);
      && Allowed(m0, e1) && Allowed(m1, e2) && Serves(m2, p) && m2.file == Some(l)
      && !AtRest(m2) && !AtRest(Step(m2, Repair(p, Written)))
  {
    var m0 := Machine(None, None, map[], None);
    var m1 := Step(m0, Start(p, k, true, Written, FIRST));
    var m2 := Step(m1, Start(q, l, false, Written, NO_LOCK));
    assert m2.procs == map[p := Coordinator(k, true), q := Coordinator(l, true)];
    assert q in Step(m2, Repair(p, Written)).procs;
  }
}
