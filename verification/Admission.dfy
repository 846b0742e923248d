/** Minting and spending admission tickets: include/idletoken_admission.h and src/common/admission.c. */
module Admission {

  import opened AdmissionTicket
  import opened Options

  const TTL: int := 120
  const INFLIGHT_MAX: int := 900
  const SPENT_SLOTS: nat := 1024
  const INFLIGHT_SLOTS: nat := 64

  type Thread = nat

  /** One entry of the replay table; expires == 0 marks a free slot. */
  datatype Slot = Slot(nonce: nat, expires: int)

  /** The fields of a ticket that parses: job, expiry, nonce and body hash in hex, and the MAC. */
  datatype Ticket = Ticket(job: string, exp: int, nonceHex: string, bodyHex: string, mac: Mac)

  predicate WellFormed(t: Ticket) {
    JobOk(t.job) && InLong(t.exp) && Hex(t.nonceHex, 32) && Hex(t.bodyHex, 64)
  }

  /** What a request carries in the capability header. */
  datatype Presented = Nothing | Unparsable | Parsed(ticket: Ticket)

  datatype Rc = OK | ABSENT | NOT_ARMED | MALFORMED | BAD_MAC | EXPIRED | REPLAYED | BODY_MISMATCH | NO_ROOM

  // ----- The replay table -----

  predicate Live(s: Slot, now: int) {
    s.expires != 0 && s.expires > now
  }

  function Age(s: Slot, now: int): Slot {
    if s.expires != 0 && s.expires <= now then s.(expires := 0) else s
  }

  function AgeAll(table: seq<Slot>, now: int): (r: seq<Slot>)
    ensures |r| == |table|
  {
    seq(|table|, i requires 0 <= i < |table| => Age(table[i], now))
  }

  /** The first live entry with this nonce, or the length. */
  function FirstMatch(table: seq<Slot>, nonce: nat, now: int): (k: nat)
    ensures k <= |table|
    ensures forall i | 0 <= i < k :: !(Live(table[i], now) && table[i].nonce == nonce)
    ensures k < |table| ==> Live(table[k], now) && table[k].nonce == nonce
  {
    if table == [] then 0
    else if Live(table[0], now) && table[0].nonce == nonce then 0
    else 1 + FirstMatch(table[1..], nonce, now)
  }

  /** The first slot that is free once the table is aged, or the length. */
  function FirstFree(table: seq<Slot>, now: int): (k: nat)
    ensures k <= |table|
    ensures forall i | 0 <= i < k :: Live(table[i], now)
    ensures k < |table| ==> !Live(table[k], now)
  {
    if table == [] then 0 else if !Live(table[0], now) then 0 else 1 + FirstFree(table[1..], now)
  }

  datatype Spent = Recorded | Seen | Full

  /** adm_spend_nonce: the answer and the table it leaves behind. */
  function Spend(table: seq<Slot>, nonce: nat, exp: int, now: int): (Spent, seq<Slot>) {
    var m, f := FirstMatch(table, nonce, now), FirstFree(table, now);
    if m < |table| then (Seen, AgeAll(table[..m], now) + table[m..])
    else if f == |table| then (Full, AgeAll(table, now))
    else (Recorded, AgeAll(table, now)[f := Slot(nonce, exp)])
  }

  // ----- The in-flight marks -----

  predicate Stale(since: int, now: int) {
    now - since > INFLIGHT_MAX
  }

  /** The first mark adm_inflight_take may use, or the length. */
  function FirstMark(marks: seq<int>, now: int): (k: nat)
    ensures k <= |marks|
    ensures forall i | 0 <= i < k :: marks[i] != 0 && !Stale(marks[i], now)
    ensures k < |marks| ==> marks[k] == 0 || Stale(marks[k], now)
  {
    if marks == [] then 0
    else if marks[0] == 0 || Stale(marks[0], now) then 0
    else 1 + FirstMark(marks[1..], now)
  }

  /** adm_inflight_take: the mark taken, plus one, or 0. */
  function TakeMark(marks: seq<int>, now: int): (nat, seq<int>) {
    var k := FirstMark(marks, now);
    if k < |marks| then (k + 1, marks[k := now]) else (0, marks)
  }

  function Heal(marks: seq<int>, now: int): (r: seq<int>)
    ensures |r| == |marks|
  {
    seq(|marks|, i requires 0 <= i < |marks| => if Stale(marks[i], now) then 0 else marks[i])
  }

  function CountMarks(marks: seq<int>): nat {
    if marks == [] then 0 else CountMarks(marks[..|marks| - 1]) + (if marks[|marks| - 1] != 0 then 1 else 0)
  }

  // ----- The state and its steps -----

  datatype State = State(
    armed: bool, key: Key, table: seq<Slot>, marks: seq<int>,
    minted: nat, consumed: nat, rejected: nat,
    mySlot: map<Thread, nat>   // thread-local; a thread without an entry holds nothing
  )

  /** Everything consume decides before it takes the lock to spend; OK means the nonce may be spent. */
  function Verdict(s: State, p: Presented, bodyHex: string, now: int): Rc {
    match p
    case Nothing => ABSENT
    case Unparsable => if s.armed then MALFORMED else NOT_ARMED
    case Parsed(t) =>
      if !s.armed then NOT_ARMED
      else if !WellFormed(t) then MALFORMED
      else if t.mac != Tag(s.key, MacInput(t.job, t.exp, t.nonceHex, t.bodyHex)) then BAD_MAC
      else if t.exp <= now then EXPIRED
      else if t.bodyHex != bodyHex then BODY_MISMATCH
      else OK
  }

  function ConsumeStep(s: State, th: Thread, p: Presented, bodyHex: string, now: int): (Rc, State)
    requires Verdict(s, p, bodyHex, now) == OK ==> IsHex(p.ticket.nonceHex)
  {
    var v := Verdict(s, p, bodyHex, now);
    if v == ABSENT || v == NOT_ARMED then (v, s)
    else if v != OK then (v, s.(rejected := s.rejected + 1))
    else
      var (answer, table) := Spend(s.table, Unhex(p.ticket.nonceHex), p.ticket.exp, now);
      match answer
      case Seen => (REPLAYED, s.(table := table, rejected := s.rejected + 1))
      case Full => (NO_ROOM, s.(table := table, rejected := s.rejected + 1))
      case Recorded =>
        var (mine, marks) := TakeMark(s.marks, now);
        (OK, s.(table := table, consumed := s.consumed + 1, marks := marks, mySlot := s.mySlot[th := mine]))
  }

  function RequestEndStep(s: State, th: Thread): State
    requires th in s.mySlot ==> s.mySlot[th] <= |s.marks|
  {
    if th !in s.mySlot || s.mySlot[th] == 0 then s
    else s.(mySlot := s.mySlot[th := 0], marks := s.marks[s.mySlot[th] - 1 := 0])
  }

  // ----- Arming -----

  /** adm_claim_channel: this process owns the channel, another does, or the lock file cannot be opened. */
  datatype Claim = Ours | Theirs | NoLock

  /** What init meets outside: the paths it is given, the marker on disk, the claim, and how its writes go. */
  datatype Files = Files(
    localPath: bool, onDisk: Option<string>, freshMark: string, localWrite: bool,
    channelPath: bool, claim: Claim, channelWrite: bool
  ) {
    /** A marker that a client may have cached survives the restart. */
    function Marker(): string {
      if localPath && onDisk.Some? then onDisk.value else freshMark
    }

    predicate Stores() {
      localPath && onDisk.None?
    }

    /** Whoever owns the channel keeps it; a lock that cannot be opened stops nobody. */
    predicate Publishes() {
      channelPath && claim != Theirs
    }

    predicate Succeeds() {
      (Stores() ==> localWrite) && (channelPath ==> Publishes() && channelWrite)
    }
  }

  /** A marker on disk is kept and not written again; a fresh one is written where there is a place for it. */
  lemma MarkerSurvives(files: Files)
    ensures if files.localPath && files.onDisk.Some? then files.Marker() == files.onDisk.value && !files.Stores()
            else files.Marker() == files.freshMark && (files.Stores() <==> files.localPath)
    ensures files.Publishes() <==> files.channelPath && files.claim in {Ours, NoLock}
    ensures !files.Succeeds() <==>
      || (files.localPath && files.onDisk.None? && !files.localWrite)
      || (files.channelPath && (files.claim == Theirs || !files.channelWrite))
  {
  }

  class Admission {
    var armed: bool
    var key: Key
    var localMark: string
    const spent: array<Slot>
    const inflight: array<int>
    var minted: nat
    var consumed: nat
    var rejected: nat
    var mySlot: map<Thread, nat>

    ghost predicate Valid()
      reads this
    {
      && spent.Length == SPENT_SLOTS && inflight.Length == INFLIGHT_SLOTS
      && forall th | th in mySlot :: mySlot[th] <= INFLIGHT_SLOTS
    }

    function View(): State
      reads this, spent, inflight
    {
      State(armed, key, spent[..], inflight[..], minted, consumed, rejected, mySlot)
    }

    constructor ()
      ensures Valid() && !armed && mySlot == map[] && spent.Length == 1024 && inflight.Length == 64
    {
      armed, key, localMark, minted, consumed, rejected, mySlot := false, [], "", 0, 0, 0, map[];
      spent := new Slot[SPENT_SLOTS](_ => Slot(0, 0));
      inflight := new int[INFLIGHT_SLOTS](_ => 0);
    }

    /**
     * idletoken_admission_init: arm under a fresh random key, keep a local-origin marker that is on disk, and publish
     * the key unless another coordinator owns the channel.
     */
    method Init(fresh': Key, files: Files) returns (ok: bool, stored: bool, published: bool)
      requires Valid()
      modifies this`armed, this`key, this`localMark, spent, inflight
      ensures Valid() && armed && key == fresh'
      ensures forall i | 0 <= i < spent.Length :: spent[i].expires == 0
      ensures forall i | 0 <= i < inflight.Length :: inflight[i] == 0
      ensures localMark == files.Marker() && stored == files.Stores()
      ensures published == files.Publishes() && ok == files.Succeeds()
    {
      forall i | 0 <= i < spent.Length { spent[i] := Slot(0, 0); }
      forall i | 0 <= i < inflight.Length { inflight[i] := 0; }
      key := fresh';
      armed := true;
      ok, stored, published := true, false, false;
      var reused := files.localPath && files.onDisk.Some?;
      if reused {
        localMark := files.onDisk.value;
      } else {
        localMark := files.freshMark;
        if files.localPath {
          stored := true;
          if !files.localWrite { ok := false; }
        }
      }
      if files.channelPath {
        if files.claim == Theirs {
          ok := false;
        } else {
          published := true;
          if !files.channelWrite { ok := false; }
        }
      }
    }

    /** The nonce is random; a job id outside the charset is refused. */
    method Mint(job: string, bodyHex: string, now: int, nonceHex: string) returns (t: Ticket, ok: bool)
      requires Valid()
      modifies this`minted
      ensures ok <==> old(armed) && JobOk(job)
      ensures ok ==> t == Ticket(job, now + TTL, nonceHex, bodyHex,
                                 Tag(key, MacInput(job, now + TTL, nonceHex, bodyHex)))
      ensures minted == old(minted) + (if ok then 1 else 0)
    {
      if !armed || !JobOk(job) {
        return Ticket("", 0, "", "", Forged(0)), false;
      }
      var exp := now + TTL;
      minted := minted + 1;
      return Ticket(job, exp, nonceHex, bodyHex, Tag(key, MacInput(job, exp, nonceHex, bodyHex))), true;
    }

    /** adm_spend_nonce: one pass that ages, remembers the first free slot and stops at a match. */
    method SpendNonce(nonce: nat, exp: int, now: int) returns (answer: Spent)
      modifies spent
      ensures (answer, spent[..]) == Spend(old(spent[..]), nonce, exp, now)
    {
      hide FirstMatch;
      hide FirstFree;
      hide Spend;
      ghost var table := spent[..];
      ghost var m, f := FirstMatch(table, nonce, now), FirstFree(table, now);
      var free := -1;
      for i := 0 to spent.Length
        invariant i <= m
        invariant free == if f < i then f else -1
        invariant forall j | 0 <= j < i :: spent[j] == Age(table[j], now)
        invariant forall j | i <= j < spent.Length :: spent[j] == table[j]
      {
        if spent[i].expires != 0 && spent[i].expires <= now {
          spent[i] := spent[i].(expires := 0);
        }
        if spent[i].expires == 0 {
          if free < 0 { free := i; }
          continue;
        }
        if spent[i].nonce == nonce {
          SpendSeen(table, spent[..], nonce, exp, now, i);
          return Seen;
        }
      }
      if free < 0 {
        SpendNew(table, spent[..], nonce, exp, now);
        return Full;
      }
      SpendNew(table, spent[..], nonce, exp, now);
      spent[free] := Slot(nonce, exp);
      return Recorded;
    }

    /** adm_inflight_take. */
    method InflightTake(now: int) returns (mine: nat)
      modifies inflight
      ensures (mine, inflight[..]) == TakeMark(old(inflight[..]), now) && mine <= inflight.Length
    {
      hide FirstMark;
      ghost var marks := inflight[..];
      for i := 0 to inflight.Length
        invariant i <= FirstMark(marks, now)
        invariant inflight[..] == marks
      {
        assert inflight[i] == marks[i];
        if inflight[i] != 0 && Stale(inflight[i], now) {
          inflight[i] := 0;
        }
        if inflight[i] == 0 {
          inflight[i] := now;
          assert inflight[..] == marks[i := now];
          return i + 1;
        }
      }
      return 0;
    }

    /** Verify and consume in one step. */
    method Consume(th: Thread, p: Presented, bodyHex: string, now: int) returns (rc: Rc, job: string)
      requires Valid()
      modifies this`consumed, this`rejected, this`mySlot, spent, inflight
      ensures Valid()
      ensures Verdict(old(View()), p, bodyHex, now) == OK ==> IsHex(p.ticket.nonceHex)
      ensures (rc, View()) == ConsumeStep(old(View()), th, p, bodyHex, now)
      ensures job == if rc == OK then p.ticket.job else ""
    {
      hide Spend;
      hide TakeMark;
      hide MacInput;
      if p.Nothing? { return ABSENT, ""; }
      if !armed { return NOT_ARMED, ""; }
      var verdict := CheckFields(p, bodyHex, now);
      if verdict != OK {
        rejected := rejected + 1;
        return verdict, "";
      }
      var answer := SpendNonce(Unhex(p.ticket.nonceHex), p.ticket.exp, now);
      match answer
      case Recorded =>
        consumed := consumed + 1;
        var mine := InflightTake(now);
        mySlot := mySlot[th := mine];
        return OK, p.ticket.job;
      case Seen =>
        rejected := rejected + 1;
        return REPLAYED, "";
      case Full =>
        rejected := rejected + 1;
        return NO_ROOM, "";
    }

    /** The MAC first, over the ticket's own fields; then the expiry; then the body. */
    method CheckFields(p: Presented, bodyHex: string, now: int) returns (rc: Rc)
      requires armed && !p.Nothing?
      ensures rc == Verdict(View(), p, bodyHex, now)
      ensures rc == OK ==> WellFormed(p.ticket)
    {
      if p.Unparsable? || !WellFormed(p.ticket) { return MALFORMED; }
      var t := p.ticket;
      var want := Tag(key, MacInput(t.job, t.exp, t.nonceHex, t.bodyHex));
      if want != t.mac { return BAD_MAC; }
      if t.exp <= now { return EXPIRED; }
      if bodyHex != t.bodyHex { return BODY_MISMATCH; }
      return OK;
    }

    method RequestEnd(th: Thread)
      requires Valid()
      modifies this`mySlot, inflight
      ensures Valid() && View() == RequestEndStep(old(View()), th)
    {
      var slot := if th in mySlot then mySlot[th] else 0;
      if slot == 0 { return; }
      mySlot := mySlot[th := 0];
      inflight[slot - 1] := 0;
    }

    /** idletoken_admission_platform_busy. */
    method PlatformBusy(now: int) returns (busy: nat)
      requires Valid()
      modifies inflight
      ensures inflight[..] == Heal(old(inflight[..]), now) && busy == CountMarks(inflight[..])
    {
      ghost var marks := inflight[..];
      busy := 0;
      for i := 0 to inflight.Length
        invariant forall j | 0 <= j < i :: inflight[j] == Heal(marks, now)[j]
        invariant forall j | i <= j < inflight.Length :: inflight[j] == marks[j]
        invariant busy == CountMarks(inflight[..i])
      {
        assert Heal(marks, now)[i] == (if Stale(marks[i], now) then 0 else marks[i]);
        ghost var before := inflight[..i];
        if inflight[i] != 0 {
          if Stale(inflight[i], now) {
            inflight[i] := 0;
          } else {
            busy := busy + 1;
          }
        }
        assert inflight[..i + 1][..i] == before;
      }
      assert inflight[..inflight.Length] == inflight[..];
    }
  }

  lemma SpendSeen(table: seq<Slot>, table': seq<Slot>, nonce: nat, exp: int, now: int, i: nat)
    requires i == FirstMatch(table, nonce, now) < |table| == |table'|
    requires forall j | 0 <= j < i :: table'[j] == Age(table[j], now)
    requires forall j | i <= j < |table| :: table'[j] == table[j]
    ensures Spend(table, nonce, exp, now) == (Seen, table')
  {
    hide FirstMatch;
    hide FirstFree;
    assert table' == AgeAll(table[..i], now) + table[i..];
  }

  lemma SpendNew(table: seq<Slot>, table': seq<Slot>, nonce: nat, exp: int, now: int)
    requires FirstMatch(table, nonce, now) == |table| == |table'|
    requires forall j | 0 <= j < |table| :: table'[j] == Age(table[j], now)
    ensures var f := FirstFree(table, now);
      Spend(table, nonce, exp, now) ==
      if f == |table| then (Full, table') else (Recorded, table'[f := Slot(nonce, exp)])
  {
    hide FirstMatch;
    hide FirstFree;
    assert table' == AgeAll(table, now);
  }
}
