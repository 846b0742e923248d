/** Safety of single-use tickets over every run of mint, consume and coordinator restart. */
module AdmissionRuns {

  import opened AdmissionTicket
  import opened Admission

  /** A ticket that was minted under a key. */
  datatype Issue = Issue(key: Key, ticket: Ticket)

  /** A ticket that was admitted, for which body and when. */
  datatype Admitted = Admitted(key: Key, ticket: Ticket, bodyHex: string, now: int)

  datatype Sys = Sys(
    s: State,
    used: set<Key>,        // every channel key so far
    issued: set<Issue>,
    log: seq<Admitted>,
    walks: seq<int>        // the clock readings of the calls that walked the replay table under this key
  )

  datatype Event =
    | MintTicket(job: string, bodyHex: string, now: int, nonceHex: string)
    | Present(th: Thread, p: Presented, bodyHex: string, now: int)
    | Restart(key: Key)

  function Minted(key: Key, job: string, bodyHex: string, now: int, nonceHex: string): Ticket {
    Ticket(job, now + TTL, nonceHex, bodyHex, Tag(key, MacInput(job, now + TTL, nonceHex, bodyHex)))
  }

  predicate Spends(y: Sys, e: Event) {
    e.Present? && Verdict(y.s, e.p, e.bodyHex, e.now) == OK
  }

  lemma SpendsIsParsed(y: Sys, e: Event)
    ensures Spends(y, e) ==>
      && e.p.Parsed? && WellFormed(e.p.ticket)
      && e.p.ticket.mac == Tag(y.s.key, MacInput(
           e.p.ticket.job, e.p.ticket.exp, e.p.ticket.nonceHex, e.p.ticket.bodyHex))
      && e.now < e.p.ticket.exp && e.p.ticket.bodyHex == e.bodyHex
  {
  }

  function Step(y: Sys, e: Event): Sys {
    match e
    case MintTicket(job, bodyHex, now, nonceHex) =>
      if !y.s.armed || !JobOk(job) then y
      else y.(issued := y.issued + {Issue(y.s.key, Minted(y.s.key, job, bodyHex, now, nonceHex))})
    case Present(th, p, bodyHex, now) =>
      SpendsIsParsed(y, e);
      var (rc, s') := ConsumeStep(y.s, th, p, bodyHex, now);
      y.(s := s',
         log := if rc == OK then y.log + [Admitted(y.s.key, p.ticket, bodyHex, now)] else y.log,
         walks := if Spends(y, e) then y.walks + [now] else y.walks)
    case Restart(key) =>
      y.(s := y.s.(armed := true, key := key, table := seq(|y.s.table|, _ => Slot(0, 0)),
                   marks := seq(|y.s.marks|, _ => 0)),
         used := y.used + {key}, walks := [])
  }

  /** A MAC the presenter can have: one that was minted, one under a key no coordinator used, or noise. */
  ghost predicate Obtainable(y: Sys, m: Mac) {
    m.Tag? ==> m.key !in y.used || exists u :: u in y.issued && m == u.ticket.mac
  }

  ghost predicate Allowed(y: Sys, e: Event) {
    match e
    case MintTicket(_, bodyHex, now, nonceHex) => InLong(now + TTL) && Hex(bodyHex, 64) && Hex(nonceHex, 32)
    case Present(_, p, _, _) => p.Parsed? ==> Obtainable(y, p.ticket.mac)
    case Restart(key) => key !in y.used
  }

  // ----- The replay table remembers -----

  ghost predicate Remembers(table: seq<Slot>, nonce: nat, exp: int) {
    Slot(nonce, exp) in table
  }

  lemma SpendKeeps(table: seq<Slot>, nonce: nat, exp: int, now: int, n: nat, x: int)
    requires Remembers(table, n, x) && x != 0 && x > now
    ensures Remembers(Spend(table, nonce, exp, now).1, n, x)
  {
    hide FirstMatch;
    hide FirstFree;
    var i :| 0 <= i < |table| && table[i] == Slot(n, x);
    var table' := Spend(table, nonce, exp, now).1;
    assert Live(table[i], now) && Age(table[i], now) == table[i];
    assert table'[i] == table[i];
  }

  lemma SpendRecords(table: seq<Slot>, nonce: nat, exp: int, now: int)
    requires Spend(table, nonce, exp, now).0 == Recorded
    ensures Remembers(Spend(table, nonce, exp, now).1, nonce, exp)
  {
    hide FirstMatch;
    hide FirstFree;
    var table' := Spend(table, nonce, exp, now).1;
    assert table'[FirstFree(table, now)] == Slot(nonce, exp);
  }

  lemma RememberedIsSeen(table: seq<Slot>, nonce: nat, exp: int, now: int, exp': int)
    requires Remembers(table, nonce, exp) && exp != 0 && exp > now
    ensures Spend(table, nonce, exp', now).0 == Seen
  {
    var i :| 0 <= i < |table| && table[i] == Slot(nonce, exp);
    assert Live(table[i], now) && table[i].nonce == nonce;
  }

  // ----- The invariant -----

  ghost predicate IssuesOk(y: Sys) {
    forall u | u in y.issued ::
      && u.key in y.used && WellFormed(u.ticket)
      && u.ticket.mac == Tag(u.key, MacInput(u.ticket.job, u.ticket.exp, u.ticket.nonceHex, u.ticket.bodyHex))
  }

  /** Admitted at most the body it was minted for, under the key it was minted under, before it expired. */
  ghost predicate Legitimate(y: Sys, a: Admitted) {
    && a.key in y.used && IsHex(a.ticket.nonceHex)
    && Issue(a.key, a.ticket) in y.issued && a.bodyHex == a.ticket.bodyHex && a.now < a.ticket.exp
  }

  /** The table holds the ticket until some call walked it at or after the expiry. */
  ghost predicate Held(y: Sys, a: Admitted)
    requires IsHex(a.ticket.nonceHex)
  {
    && a.key == y.s.key && a.ticket.exp != 0 && (forall w | w in y.walks :: w < a.ticket.exp)
    ==> Remembers(y.s.table, Unhex(a.ticket.nonceHex), a.ticket.exp)
  }

  ghost predicate LogOk(y: Sys) {
    forall a | a in y.log :: Legitimate(y, a) && Held(y, a)
  }

  ghost predicate Inv(y: Sys) {
    (y.s.armed ==> y.s.key in y.used) && IssuesOk(y) && LogOk(y)
  }

  /** A ticket that passes every check before the table was minted, field by field, under this key. */
  lemma VerifiedWasIssued(y: Sys, e: Event)
    requires Inv(y) && Allowed(y, e) && Spends(y, e)
    ensures e.p.Parsed? && Issue(y.s.key, e.p.ticket) in y.issued
  {
    hide MacInput;
    SpendsIsParsed(y, e);
    var t := e.p.ticket;
    var u :| u in y.issued && t.mac == u.ticket.mac;
    SignedLength(t.exp);
    SignedLength(u.ticket.exp);
    MacInputInjective(t.job, t.exp, t.nonceHex, t.bodyHex,
                      u.ticket.job, u.ticket.exp, u.ticket.nonceHex, u.ticket.bodyHex);
    assert u == Issue(y.s.key, t);
  }

  lemma MintInv(y: Sys, e: Event)
    requires Inv(y) && e.MintTicket? && Allowed(y, e)
    ensures Inv(Step(y, e))
  {
    hide MacInput;
    var y' := Step(y, e);
    forall a | a in y'.log ensures Legitimate(y', a) && Held(y', a) {
      assert Legitimate(y, a) && Held(y, a);
    }
  }

  lemma RestartInv(y: Sys, e: Event)
    requires Inv(y) && e.Restart? && Allowed(y, e)
    ensures Inv(Step(y, e))
  {
    hide MacInput;
    var y' := Step(y, e);
    forall a | a in y'.log ensures Legitimate(y', a) && Held(y', a) {
      assert Legitimate(y, a);
    }
  }

  lemma PresentInv(y: Sys, e: Event)
    requires Inv(y) && e.Present? && Allowed(y, e)
    ensures Inv(Step(y, e))
  {
    hide MacInput;
    hide Spend;
    hide Verdict;
    var y' := Step(y, e);
    SpendsIsParsed(y, e);
    if Spends(y, e) {
      var t := e.p.ticket;
      VerifiedWasIssued(y, e);
      var (answer, table) := Spend(y.s.table, Unhex(t.nonceHex), t.exp, e.now);
      if answer == Recorded {
        SpendRecords(y.s.table, Unhex(t.nonceHex), t.exp, e.now);
      }
      forall a | a in y'.log ensures Legitimate(y', a) && Held(y', a) {
        if a in y.log {
          assert Legitimate(y, a) && Held(y, a);
          HeldAcross(y, y', a, Unhex(t.nonceHex), t.exp, e.now);
        } else {
          assert a == Admitted(y.s.key, t, e.bodyHex, e.now);
        }
      }
    } else {
      forall a | a in y'.log ensures Legitimate(y', a) && Held(y', a) {
        assert Legitimate(y, a) && Held(y, a);
      }
    }
  }

  lemma HeldAcross(y: Sys, y': Sys, a: Admitted, nonce: nat, exp: int, now: int)
    requires IsHex(a.ticket.nonceHex) && Held(y, a)
    requires y'.s.key == y.s.key && y'.s.table == Spend(y.s.table, nonce, exp, now).1 && y'.walks == y.walks + [now]
    ensures Held(y', a)
  {
    hide Spend;
    if a.key == y'.s.key && a.ticket.exp != 0 && forall w | w in y'.walks :: w < a.ticket.exp {
      assert forall w | w in y.walks :: w in y'.walks;
      assert now in y'.walks;
      SpendKeeps(y.s.table, nonce, exp, now, Unhex(a.ticket.nonceHex), a.ticket.exp);
    }
  }

  lemma StepInv(y: Sys, e: Event)
    requires Inv(y) && Allowed(y, e)
    ensures Inv(Step(y, e))
  {
    hide Inv;
    hide Step;
    match e {
      case MintTicket(_, _, _, _) => MintInv(y, e);
      case Present(_, _, _, _) => PresentInv(y, e);
      case Restart(_) => RestartInv(y, e);
    }
  }

  // ----- Single use -----

  ghost predicate SameTicket(a: Admitted, b: Admitted) {
    a.key == b.key && a.ticket == b.ticket
  }

  /**
   * A second admission of a ticket needs its expiry to be zero, or some call to have walked the table at or
   * after that expiry: the clock then went back, since this call still reads an earlier time.
   */
  lemma SecondAdmissionNeedsClockToGoBack(y: Sys, e: Event, a: Admitted)
    requires Inv(y) && Allowed(y, e) && e.Present? && a in y.log
    requires |Step(y, e).log| > |y.log| && e.p.Parsed? && SameTicket(a, Admitted(y.s.key, e.p.ticket, e.bodyHex, e.now))
    ensures a.ticket.exp == 0 || exists w :: w in y.walks && w >= a.ticket.exp > e.now
  {
    hide MacInput;
    hide Spend;
    SpendsIsParsed(y, e);
    assert Spends(y, e);
    assert Legitimate(y, a) && Held(y, a);
    if a.ticket.exp != 0 && forall w | w in y.walks :: w < a.ticket.exp {
      RememberedIsSeen(y.s.table, Unhex(a.ticket.nonceHex), a.ticket.exp, e.now, a.ticket.exp);
      assert false;
    }
  }

  /** The clock a run needs: readings under one key do not decrease, and minting happens after 1970. */
  ghost predicate ClockOk(y: Sys, e: Event) {
    match e
    case MintTicket(_, _, now, _) => now >= 0
    case Present(_, _, _, now) => forall w | w in y.walks :: w <= now
    case Restart(_) => true
  }

  ghost predicate Run(trace: seq<Sys>, events: seq<Event>) {
    && |trace| == |events| + 1
    && !trace[0].s.armed && trace[0].used == {} && trace[0].issued == {} && trace[0].log == [] && trace[0].walks == []
    && forall i | 0 <= i < |events| ::
      Allowed(trace[i], events[i]) && ClockOk(trace[i], events[i]) && trace[i + 1] == Step(trace[i], events[i])
  }

  /** A process that has not been armed starts a run, and any allowed event at a later clock continues one. */
  lemma RunContinues(trace: seq<Sys>, events: seq<Event>, e: Event)
    requires Run(trace, events) && Allowed(trace[|events|], e) && ClockOk(trace[|events|], e)
    ensures Run(trace + [Step(trace[|events|], e)], events + [e])
  {
    hide Step;
    hide Allowed;
    hide ClockOk;
    var more, all := trace + [Step(trace[|events|], e)], events + [e];
    forall i | 0 <= i < |all|
      ensures Allowed(more[i], all[i]) && ClockOk(more[i], all[i]) && more[i + 1] == Step(more[i], all[i])
    {
      if i < |events| {
        assert more[i] == trace[i] && more[i + 1] == trace[i + 1] && all[i] == events[i];
      }
    }
  }

  lemma RunBegins(s: State)
    requires !s.armed
    ensures Run([Sys(s, {}, {}, [], [])], [])
  {
  }

  ghost predicate Positive(y: Sys) {
    forall u | u in y.issued :: u.ticket.exp > 0
  }

  ghost predicate Distinct(log: seq<Admitted>) {
    forall i, j | 0 <= i < j < |log| :: !SameTicket(log[i], log[j])
  }

  ghost predicate Good(y: Sys) {
    Inv(y) && Positive(y) && Distinct(y.log)
  }

  lemma StepGood(y: Sys, e: Event)
    requires Good(y) && Allowed(y, e) && ClockOk(y, e)
    ensures Good(Step(y, e))
  {
    hide MacInput;
    hide Spend;
    hide Verdict;
    StepInv(y, e);
    var y' := Step(y, e);
    SpendsIsParsed(y, e);
    if |y'.log| > |y.log| {
      assert Spends(y, e);
      var a' := Admitted(y.s.key, e.p.ticket, e.bodyHex, e.now);
      assert y'.log == y.log + [a'];
      forall i | 0 <= i < |y.log| ensures !SameTicket(y.log[i], a') {
        if SameTicket(y.log[i], a') {
          assert y.log[i] in y.log && Legitimate(y, y.log[i]);
          SecondAdmissionNeedsClockToGoBack(y, e, y.log[i]);
          assert false;
        }
      }
    }
  }

  lemma {:induction false} RunGood(trace: seq<Sys>, events: seq<Event>, i: nat)
    requires Run(trace, events) && i < |trace|
    ensures Good(trace[i])
  {
    hide Step;
    if i > 0 {
      RunGood(trace, events, i - 1);
      hide Good;
      StepGood(trace[i - 1], events[i - 1]);
    }
  }

  /**
   * In every run each ticket is admitted at most once, only if it was minted under that key, only for the
   * body it was minted for, and only before it expires; the finite table never weakens this.
   */
  lemma TicketsAreSingleUse(trace: seq<Sys>, events: seq<Event>, i: nat)
    requires Run(trace, events) && i < |trace|
    ensures var y := trace[i];
      && Distinct(y.log)
      && forall a | a in y.log ::
        Issue(a.key, a.ticket) in y.issued && a.bodyHex == a.ticket.bodyHex && a.now < a.ticket.exp
  {
    hide Run;
    RunGood(trace, events, i);
    assert forall a | a in trace[i].log :: Legitimate(trace[i], a);
  }
}
