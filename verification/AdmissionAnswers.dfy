/**
 * What a presented ticket is answered, each code exactly, in terms of the ticket and the entries of the replay table;
 * and what that comes to for the tickets a coordinator has issued.
 */
module AdmissionAnswers {

  import opened Admission
  import opened AdmissionRuns
  import opened AdmissionTicket

  /** Some entry for the nonce has not expired. */
  ghost predicate Spent(table: seq<Slot>, nonce: nat, now: int) {
    exists i :: 0 <= i < |table| && table[i].nonce == nonce && table[i].expires != 0 && table[i].expires > now
  }

  /** No entry is free, and none has expired. */
  ghost predicate NoSlot(table: seq<Slot>, now: int) {
    forall i | 0 <= i < |table| :: table[i].expires != 0 && table[i].expires > now
  }

  /** The MAC verifies under the coordinator's key. */
  ghost predicate Verifies(s: State, t: Ticket) {
    t.mac == Tag(s.key, MacInput(t.job, t.exp, t.nonceHex, t.bodyHex))
  }

  lemma SpendAnswers(table: seq<Slot>, nonce: nat, exp: int, now: int)
    ensures Spend(table, nonce, exp, now).0.Seen? <==> Spent(table, nonce, now)
    ensures Spend(table, nonce, exp, now).0.Full? <==> !Spent(table, nonce, now) && NoSlot(table, now)
  {
    var m, f := FirstMatch(table, nonce, now), FirstFree(table, now);
    if m < |table| {
      assert table[m].nonce == nonce && table[m].expires > now;
    } else {
      assert forall i | 0 <= i < |table| && table[i].nonce == nonce :: !Live(table[i], now);
    }
    assert f < |table| ==> !Live(table[f], now);
  }

  /**
   * A parsed ticket that is well-formed is answered by the first check it fails: its MAC, its expiry, its body, its
   * nonce among the spent, room for it among them.
   */
  lemma ParsedAnswer(s: State, th: Thread, t: Ticket, bodyHex: string, now: int)
    requires s.armed && WellFormed(t)
    ensures var rc := ConsumeStep(s, th, Parsed(t), bodyHex, now).0;
      && (rc == BAD_MAC <==> !Verifies(s, t))
      && (rc == EXPIRED <==> Verifies(s, t) && now >= t.exp)
      && (rc == BODY_MISMATCH <==> Verifies(s, t) && now < t.exp && bodyHex != t.bodyHex)
      && (Verifies(s, t) && now < t.exp && bodyHex == t.bodyHex ==>
            && (rc == REPLAYED <==> Spent(s.table, Unhex(t.nonceHex), now))
            && (rc == NO_ROOM <==> !Spent(s.table, Unhex(t.nonceHex), now) && NoSlot(s.table, now))
            && (rc == OK <==> !Spent(s.table, Unhex(t.nonceHex), now) && !NoSlot(s.table, now)))
      && rc !in {ABSENT, NOT_ARMED, MALFORMED}
  {
    hide MacInput;
    hide Spend;
    hide TakeMark;
    SpendAnswers(s.table, Unhex(t.nonceHex), t.exp, now);
  }

  /** The codes that do not depend on a ticket's fields. */
  lemma UnparsedAnswer(s: State, th: Thread, p: Presented, bodyHex: string, now: int)
    requires Verdict(s, p, bodyHex, now) == OK ==> IsHex(p.ticket.nonceHex)
    ensures var rc := ConsumeStep(s, th, p, bodyHex, now).0;
      && (rc == ABSENT <==> p.Nothing?)
      && (rc == NOT_ARMED <==> !p.Nothing? && !s.armed)
      && (rc == MALFORMED <==> s.armed && !p.Nothing? && (p.Unparsable? || !WellFormed(p.ticket)))
  {
    hide MacInput;
    hide Spend;
    hide TakeMark;
  }

  /** One counter moves: consumed for an admission, rejected for every other answer about a ticket. */
  lemma OneCounterMoves(s: State, th: Thread, p: Presented, bodyHex: string, now: int)
    requires Verdict(s, p, bodyHex, now) == OK ==> IsHex(p.ticket.nonceHex)
    ensures var (rc, s') := ConsumeStep(s, th, p, bodyHex, now);
      && s'.consumed == s.consumed + (if rc == OK then 1 else 0)
      && s'.rejected == s.rejected + (if rc in {OK, ABSENT, NOT_ARMED} then 0 else 1)
      && s'.minted == s.minted && s'.armed == s.armed && s'.key == s.key
  {
    hide MacInput;
    hide Spend;
    hide TakeMark;
  }

  // ----- Over runs -----

  function Answer(y: Sys, e: Event): Rc
    requires e.Present?
  {
    SpendsIsParsed(y, e);
    ConsumeStep(y.s, e.th, e.p, e.bodyHex, e.now).0
  }

  /** A well-formed ticket is refused as forged exactly when it was not issued, field by field, under this key. */
  lemma ForgedIff(y: Sys, e: Event)
    requires Inv(y) && Allowed(y, e) && e.Present? && e.p.Parsed? && y.s.armed && WellFormed(e.p.ticket)
    ensures Answer(y, e) == BAD_MAC <==> Issue(y.s.key, e.p.ticket) !in y.issued
  {
    hide MacInput;
    hide Verdict;
    hide ConsumeStep;
    var t := e.p.ticket;
    ParsedAnswer(y.s, e.th, t, e.bodyHex, e.now);
    if Verifies(y.s, t) {
      VerifiesWasIssued(y, e);
    }
  }

  lemma VerifiesWasIssued(y: Sys, e: Event)
    requires Inv(y) && Allowed(y, e) && e.Present? && e.p.Parsed? && y.s.armed && WellFormed(e.p.ticket)
    requires Verifies(y.s, e.p.ticket)
    ensures Issue(y.s.key, e.p.ticket) in y.issued
  {
    hide MacInput;
    var t := e.p.ticket;
    var early := Present(e.th, e.p, t.bodyHex, t.exp - 1);
    assert Spends(y, early);
    VerifiedWasIssued(y, early);
  }

  /** An issued ticket: too late, for another body, spent, without room, or admitted, each exactly. */
  lemma IssuedAnswer(y: Sys, th: Thread, t: Ticket, bodyHex: string, now: int)
    requires Inv(y) && y.s.armed && Issue(y.s.key, t) in y.issued
    ensures WellFormed(t)
    ensures var rc, nonce := Answer(y, Present(th, Parsed(t), bodyHex, now)), Unhex(t.nonceHex);
      && (rc == EXPIRED <==> now >= t.exp)
      && (rc == BODY_MISMATCH <==> now < t.exp && bodyHex != t.bodyHex)
      && (rc == REPLAYED <==> now < t.exp && bodyHex == t.bodyHex && Spent(y.s.table, nonce, now))
      && (rc == NO_ROOM <==>
            now < t.exp && bodyHex == t.bodyHex && !Spent(y.s.table, nonce, now) && NoSlot(y.s.table, now))
      && (rc == OK <==>
            now < t.exp && bodyHex == t.bodyHex && !Spent(y.s.table, nonce, now) && !NoSlot(y.s.table, now))
  {
    hide MacInput;
    hide Verdict;
    hide ConsumeStep;
    assert WellFormed(t) && Verifies(y.s, t);
    ParsedAnswer(y.s, th, t, bodyHex, now);
  }

  /**
   * In every run whose clock does not go back, a ticket that was admitted under this key and comes again is answered
   * "replayed" until it expires and "expired" from then on.
   */
  lemma AdmittedIsReplayed(trace: seq<Sys>, events: seq<Event>, i: nat, a: Admitted, th: Thread, now: int)
    requires Run(trace, events) && i < |trace| && a in trace[i].log
    requires trace[i].s.armed && a.key == trace[i].s.key
    requires ClockOk(trace[i], Present(th, Parsed(a.ticket), a.bodyHex, now))
    ensures Answer(trace[i], Present(th, Parsed(a.ticket), a.bodyHex, now)) ==
            if now < a.ticket.exp then REPLAYED else EXPIRED
  {
    hide Run;
    hide MacInput;
    hide Answer;
    var y := trace[i];
    RunGood(trace, events, i);
    assert Legitimate(y, a) && Held(y, a);
    IssuedAnswer(y, th, a.ticket, a.bodyHex, now);
    if now < a.ticket.exp {
      assert Issue(a.key, a.ticket).ticket.exp > 0;
      assert Remembers(y.s.table, Unhex(a.ticket.nonceHex), a.ticket.exp);
      var k :| 0 <= k < |y.s.table| && y.s.table[k] == Slot(Unhex(a.ticket.nonceHex), a.ticket.exp);
      assert Spent(y.s.table, Unhex(a.ticket.nonceHex), now);
    }
  }

  /** A table whose entries are all live refuses every new ticket for want of room. */
  lemma FullTableAnswers(y: Sys, th: Thread, t: Ticket, now: int)
    requires Inv(y) && y.s.armed && Issue(y.s.key, t) in y.issued && now < t.exp && NoSlot(y.s.table, now)
    requires WellFormed(t) && forall i | 0 <= i < |y.s.table| :: y.s.table[i].nonce != Unhex(t.nonceHex)
    ensures Answer(y, Present(th, Parsed(t), t.bodyHex, now)) == NO_ROOM
    ensures Step(y, Present(th, Parsed(t), t.bodyHex, now)).log == y.log
  {
    hide MacInput;
    hide Spend;
    IssuedAnswer(y, th, t, t.bodyHex, now);
  }
}
