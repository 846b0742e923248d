/**
 * Exactly when a ticket is admitted a second time, step by step and over runs whose clock may do anything, with the
 * two kinds of run in which it happens.
 */
module AdmissionReplay {

  import opened Admission
  import opened AdmissionRuns
  import opened AdmissionTicket

  // ----- The table -----

  /** No entry for the nonce is live: none was recorded, or each was freed, has expired, or never counted as one. */
  ghost predicate Forgets(table: seq<Slot>, nonce: nat, now: int) {
    forall i | 0 <= i < |table| && table[i].nonce == nonce :: !Live(table[i], now)
  }

  ghost predicate HasRoom(table: seq<Slot>, now: int) {
    exists i :: 0 <= i < |table| && !Live(table[i], now)
  }

  lemma RecordedIff(table: seq<Slot>, nonce: nat, exp: int, now: int)
    ensures Spend(table, nonce, exp, now).0 == Recorded <==> Forgets(table, nonce, now) && HasRoom(table, now)
  {
  }

  /** A spend that records leaves its own entry and the old ones aged. */
  lemma TableAfter(table: seq<Slot>, nonce: nat, exp: int, now: int)
    requires Spend(table, nonce, exp, now).0 == Recorded
    ensures var t, f := Spend(table, nonce, exp, now).1, FirstFree(table, now);
      && |t| == |table| && f < |table| && t[f] == Slot(nonce, exp)
      && forall i | 0 <= i < |t| && i != f :: t[i] == Age(table[i], now)
  {
    hide FirstMatch;
    hide FirstFree;
  }

  // ----- One presentation -----

  /** The event presents a ticket that was admitted before, and everything but the table says yes. */
  ghost predicate PresentsAgain(y: Sys, e: Event) {
    Spends(y, e) && exists a :: a in y.log && SameTicket(a, Admitted(y.s.key, e.p.ticket, e.bodyHex, e.now))
  }

  /** The guard that fails: the table has no live entry for its nonce, and a slot that is free or has expired. */
  ghost predicate Forgotten(y: Sys, e: Event)
    requires Spends(y, e)
  {
    SpendsIsParsed(y, e);
    var nonce := Unhex(e.p.ticket.nonceHex);
    Forgets(y.s.table, nonce, e.now) && HasRoom(y.s.table, e.now)
  }

  lemma PresentStep(y: Sys, e: Event)
    requires e.Present?
    ensures var y' := Step(y, e);
      if Spends(y, e) && Forgotten(y, e)
      then y'.log == y.log + [Admitted(y.s.key, e.p.ticket, e.bodyHex, e.now)]
      else y'.log == y.log
    ensures Spends(y, e) ==>
      && IsHex(e.p.ticket.nonceHex)
      && Step(y, e).s.table == Spend(y.s.table, Unhex(e.p.ticket.nonceHex), e.p.ticket.exp, e.now).1
    ensures Step(y, e).s.key == y.s.key && Step(y, e).s.armed == y.s.armed && Step(y, e).issued == y.issued
    ensures Step(y, e).used == y.used
  {
    hide MacInput;
    hide Spend;
    hide Verdict;
    hide TakeMark;
    SpendsIsParsed(y, e);
    if Spends(y, e) {
      RecordedIff(y.s.table, Unhex(e.p.ticket.nonceHex), e.p.ticket.exp, e.now);
    }
  }

  /** A ticket that was admitted and still passes every other check is admitted again exactly when it is forgotten. */
  lemma AdmittedAgainIff(y: Sys, e: Event)
    requires PresentsAgain(y, e)
    ensures |Step(y, e).log| > |y.log| <==> Forgotten(y, e)
  {
    hide Step;
    hide Spends;
    hide Forgotten;
    assert e.Present? by { SpendsIsPresent(y, e); }
    PresentStep(y, e);
  }

  lemma SpendsIsPresent(y: Sys, e: Event)
    requires Spends(y, e)
    ensures e.Present?
  {
  }

  // ----- Whole runs, under any clock -----

  ghost predicate AnyClockRun(trace: seq<Sys>, events: seq<Event>) {
    && |trace| == |events| + 1
    && !trace[0].s.armed && trace[0].used == {} && trace[0].issued == {} && trace[0].log == [] && trace[0].walks == []
    && forall i | 0 <= i < |events| :: Allowed(trace[i], events[i]) && trace[i + 1] == Step(trace[i], events[i])
  }

  ghost predicate Readmits(y: Sys, e: Event) {
    PresentsAgain(y, e) && Forgotten(y, e)
  }

  lemma DistinctStep(y: Sys, e: Event)
    ensures Distinct(Step(y, e).log) <==> Distinct(y.log) && !Readmits(y, e)
  {
    hide Spends;
    hide Forgotten;
    if e.Present? {
      PresentStep(y, e);
      hide Step;
      if Spends(y, e) && Forgotten(y, e) {
        DistinctSnoc(y.log, Admitted(y.s.key, e.p.ticket, e.bodyHex, e.now));
      }
    } else {
      if Spends(y, e) {
        SpendsIsPresent(y, e);
      }
    }
  }

  lemma DistinctSnoc(log: seq<Admitted>, last: Admitted)
    ensures Distinct(log + [last]) <==> Distinct(log) && forall a | a in log :: !SameTicket(a, last)
  {
    var more := log + [last];
    assert forall i | 0 <= i < |log| :: more[i] == log[i] && log[i] in log;
    if Distinct(more) {
      assert more[|log|] == last;
      forall i, j | 0 <= i < j < |log| ensures !SameTicket(log[i], log[j]) {
        assert more[i] == log[i] && more[j] == log[j];
      }
      forall a | a in log ensures !SameTicket(a, last) {
        var i :| 0 <= i < |log| && log[i] == a;
        assert more[i] == a;
      }
    }
  }

  /** In every run, whatever its clock does, single use fails exactly where a forgotten ticket is presented again. */
  lemma {:induction false} SingleUseIff(trace: seq<Sys>, events: seq<Event>, i: nat)
    requires AnyClockRun(trace, events) && i < |trace|
    ensures Distinct(trace[i].log) <==> forall j | 0 <= j < i :: !Readmits(trace[j], events[j])
  {
    hide Readmits;
    hide Step;
    hide Allowed;
    if i > 0 {
      SingleUseIff(trace, events, i - 1);
      DistinctStep(trace[i - 1], events[i - 1]);
    }
  }

  // ----- The two kinds of run -----

  /** A process that has not started, with its table of 1024 slots. */
  ghost predicate Fresh(y: Sys) {
    && !y.s.armed && y.used == {} && y.issued == {} && y.log == [] && y.walks == []
    && |y.s.table| == SPENT_SLOTS
  }

  /** The trace of a list of events. */
  function TraceOf(y: Sys, events: seq<Event>): (trace: seq<Sys>)
    ensures |trace| == |events| + 1 && trace[0] == y
    ensures forall i | 0 <= i < |events| :: trace[i + 1] == Step(trace[i], events[i])
    decreases |events|
  {
    if events == [] then [y] else
    var n := |events| - 1;
    var before := TraceOf(y, events[..n]);
    before + [Step(before[n], events[n])]
  }

  ghost predicate Presentable(y: Sys, t: Ticket) {
    && y.s.armed && WellFormed(t) && t.mac == Tag(y.s.key, MacInput(t.job, t.exp, t.nonceHex, t.bodyHex))
    && exists u :: u in y.issued && u.ticket == t
  }

  lemma RestartGives(y: Sys, key: Key)
    requires Fresh(y)
    ensures var y' := Step(y, Restart(key));
      && Allowed(y, Restart(key)) && y'.s.armed && y'.s.key == key && y'.log == []
      && |y'.s.table| == SPENT_SLOTS && (forall i | 0 <= i < SPENT_SLOTS :: y'.s.table[i] == Slot(0, 0))
      && |y'.s.marks| == |y.s.marks| && forall i | 0 <= i < |y'.s.marks| :: y'.s.marks[i] == 0
  {
  }

  lemma MintGives(y: Sys, job: string, bodyHex: string, now: int, nonceHex: string)
    requires y.s.armed && JobOk(job) && InLong(now + TTL) && Hex(bodyHex, 64) && Hex(nonceHex, 32)
    ensures var e, y' := MintTicket(job, bodyHex, now, nonceHex), Step(y, MintTicket(job, bodyHex, now, nonceHex));
      && Allowed(y, e) && y'.s == y.s && y'.log == y.log && y.issued <= y'.issued
      && Presentable(y', Minted(y.s.key, job, bodyHex, now, nonceHex))
  {
    hide MacInput;
    assert Issue(y.s.key, Minted(y.s.key, job, bodyHex, now, nonceHex))
        in Step(y, MintTicket(job, bodyHex, now, nonceHex)).issued;
  }

  /** A presentable ticket that the table has forgotten is admitted. */
  lemma PresentGives(y: Sys, th: Thread, t: Ticket, now: int)
    requires Presentable(y, t) && now < t.exp && Forgets(y.s.table, Unhex(t.nonceHex), now) && HasRoom(y.s.table, now)
    ensures var e, y' := Present(th, Parsed(t), t.bodyHex, now), Step(y, Present(th, Parsed(t), t.bodyHex, now));
      && Allowed(y, e) && y'.log == y.log + [Admitted(y.s.key, t, t.bodyHex, now)]
      && y'.s.key == y.s.key && (forall u | Presentable(y, u) :: Presentable(y', u))
      && |y'.s.table| == |y.s.table|
      && exists f :: 0 <= f < |y.s.table| && y'.s.table[f] == Slot(Unhex(t.nonceHex), t.exp)
           && forall i | 0 <= i < |y.s.table| && i != f :: y'.s.table[i] == Age(y.s.table[i], now)
  {
    hide MacInput;
    hide Spend;
    hide Step;
    hide FirstFree;
    var e := Present(th, Parsed(t), t.bodyHex, now);
    assert Spends(y, e) && Forgotten(y, e);
    PresentStep(y, e);
    RecordedIff(y.s.table, Unhex(t.nonceHex), t.exp, now);
    TableAfter(y.s.table, Unhex(t.nonceHex), t.exp, now);
  }

  /** A ticket minted at second -120 expires at 0, which is how the table spells a free slot: it is admitted twice. */
  lemma ZeroExpiryIsNeverRemembered(
      y: Sys, key: Key, job: string, bodyHex: string, nonceHex: string, now: int, now': int)
    requires Fresh(y) && JobOk(job) && Hex(bodyHex, 64) && Hex(nonceHex, 32) && now < 0 && now' < 0
    ensures var t := Minted(key, job, bodyHex, -120, nonceHex);
      var events := [Restart(key), MintTicket(job, bodyHex, -120, nonceHex),
                     Present(0, Parsed(t), bodyHex, now), Present(0, Parsed(t), bodyHex, now')];
      && AnyClockRun(TraceOf(y, events), events)
      && TraceOf(y, events)[4].log == [Admitted(key, t, bodyHex, now), Admitted(key, t, bodyHex, now')]
  {
    hide MacInput;
    hide Step;
    hide Allowed;
    hide Presentable;
    hide SPENT_SLOTS;
    SomeSlots();
    var t := Minted(key, job, bodyHex, -120, nonceHex);
    var events := [Restart(key), MintTicket(job, bodyHex, -120, nonceHex),
                   Present(0, Parsed(t), bodyHex, now), Present(0, Parsed(t), bodyHex, now')];
    var trace := TraceOf(y, events);
    hide TraceOf;
    RestartGives(y, key);
    MintGives(trace[1], job, bodyHex, -120, nonceHex);
    assert !Live(trace[2].s.table[0], now);
    PresentGives(trace[2], 0, t, now);
    assert !Live(trace[3].s.table[0], now');
    PresentGives(trace[3], 0, t, now');
  }

  lemma SomeSlots()
    ensures SPENT_SLOTS > 1
  {
  }

  ghost predicate AllFree(table: seq<Slot>) {
    |table| > 1 && forall i | 0 <= i < |table| :: table[i] == Slot(0, 0)
  }

  /** Three presentations on a fresh table; the second frees what the first recorded. */
  lemma ThirdIsAdmitted(y: Sys, t: Ticket, t': Ticket, early: int, late: int, back: int)
    requires Presentable(y, t) && Presentable(y, t') && AllFree(y.s.table)
    requires IsHex(t.nonceHex) && IsHex(t'.nonceHex) && Unhex(t.nonceHex) != Unhex(t'.nonceHex)
    requires early < t.exp && back < t.exp <= late < t'.exp
    ensures var e1, e2 := Present(0, Parsed(t), t.bodyHex, early), Present(0, Parsed(t'), t'.bodyHex, late);
      var e3 := Present(0, Parsed(t), t.bodyHex, back);
      var y1 := Step(y, e1);
      var y2 := Step(y1, e2);
      && Allowed(y, e1) && Allowed(y1, e2) && Allowed(y2, e3)
      && Step(y2, e3).log == y.log + [Admitted(y.s.key, t, t.bodyHex, early)]
                             + [Admitted(y.s.key, t', t'.bodyHex, late)] + [Admitted(y.s.key, t, t.bodyHex, back)]
  {
    hide MacInput;
    hide Step;
    hide Allowed;
    hide Presentable;
    assert !Live(y.s.table[0], early);
    PresentGives(y, 0, t, early);
    var y1 := Step(y, Present(0, Parsed(t), t.bodyHex, early));
    assert !Live(y1.s.table[0], late);
    PresentGives(y1, 0, t', late);
    var y2 := Step(y1, Present(0, Parsed(t'), t'.bodyHex, late));
    assert !Live(y2.s.table[0], back) || !Live(y2.s.table[1], back);
    PresentGives(y2, 0, t, back);
  }

  /**
   * A ticket is spent in time; another one is spent at or after its expiry, which frees its entry; the clock goes
   * back before that expiry, and the first ticket is admitted again.
   */
  lemma ClockGoingBackReplays(y: Sys, key: Key, job: string, bodyHex: string, nonceHex: string, nonceHex': string,
                              mint: int, mint': int, early: int, late: int, back: int)
    requires Fresh(y) && JobOk(job) && Hex(bodyHex, 64) && Hex(nonceHex, 32) && Hex(nonceHex', 32)
    requires Unhex(nonceHex) != Unhex(nonceHex') && InLong(mint + TTL) && InLong(mint' + TTL)
    requires early < mint + TTL && back < mint + TTL <= late < mint' + TTL
    ensures var t, t' := Minted(key, job, bodyHex, mint, nonceHex), Minted(key, job, bodyHex, mint', nonceHex');
      var events := [Restart(key), MintTicket(job, bodyHex, mint, nonceHex), MintTicket(job, bodyHex, mint', nonceHex'),
                     Present(0, Parsed(t), bodyHex, early), Present(0, Parsed(t'), bodyHex, late),
                     Present(0, Parsed(t), bodyHex, back)];
      && AnyClockRun(TraceOf(y, events), events)
      && TraceOf(y, events)[6].log ==
         [Admitted(key, t, bodyHex, early), Admitted(key, t', bodyHex, late), Admitted(key, t, bodyHex, back)]
  {
    hide MacInput;
    hide Step;
    hide Allowed;
    hide Presentable;
    hide SPENT_SLOTS;
    SomeSlots();
    var t, t' := Minted(key, job, bodyHex, mint, nonceHex), Minted(key, job, bodyHex, mint', nonceHex');
    var events := [Restart(key), MintTicket(job, bodyHex, mint, nonceHex), MintTicket(job, bodyHex, mint', nonceHex'),
                   Present(0, Parsed(t), bodyHex, early), Present(0, Parsed(t'), bodyHex, late),
                   Present(0, Parsed(t), bodyHex, back)];
    var trace := TraceOf(y, events);
    hide TraceOf;
    RestartGives(y, key);
    MintGives(trace[1], job, bodyHex, mint, nonceHex);
    MintGives(trace[2], job, bodyHex, mint', nonceHex');
    StillPresentable(trace[2], trace[3], t);
    ThirdIsAdmitted(trace[3], t, t', early, late, back);
  }

  lemma StillPresentable(y: Sys, y': Sys, t: Ticket)
    requires Presentable(y, t) && y'.s == y.s && y.issued <= y'.issued
    ensures Presentable(y', t)
  {
  }
}
