/**
 * What the in-flight marks of src/common/admission.c count, over every run: exactly which steps keep the count that
 * platform_busy gives equal to the number of admitted jobs still running.
 */
module AdmissionBusy {

  import opened Admission
  import opened AdmissionTicket
  import opened Options

  /** An admitted job that still runs: when it was admitted, on which thread, and the slot it was given (0 for none). */
  datatype Job = Job(since: int, th: Thread, slot: nat)

  /** The marks and each thread's own slot; for the history, the running jobs by number and each thread's last one. */
  datatype Marks = Marks(
    marks: seq<int>, mySlot: map<Thread, nat>, running: map<nat, Job>, last: map<Thread, nat>, next: nat
  )

  datatype Event =
    | Take(th: Thread, now: int)             // an admitted ticket marks its thread
    | End(th: Thread, done: Option<nat>)     // request_end, and the admitted job that ends with it, if one does
    | Finish(j: nat)                         // a job ends without request_end
    | Ask(now: int)                          // platform_busy

  predicate Holds(m: Marks, th: Thread) {
    th in m.mySlot && 0 < m.mySlot[th] <= |m.marks|
  }

  function Step(m: Marks, e: Event): Marks {
    match e
    case Take(th, now) =>
      var (mine, marks) := TakeMark(m.marks, now);
      Marks(marks, m.mySlot[th := mine], m.running[m.next := Job(now, th, mine)], m.last[th := m.next], m.next + 1)
    case End(th, done) =>
      var running := if done.Some? then m.running - {done.value} else m.running;
      if !Holds(m, th) then m.(running := running)
      else m.(marks := m.marks[m.mySlot[th] - 1 := 0], mySlot := m.mySlot[th := 0], running := running)
    case Finish(j) => m.(running := m.running - {j})
    case Ask(now) => m.(marks := Heal(m.marks, now))
  }

  /** What platform_busy answers. */
  function Busy(m: Marks, now: int): nat {
    CountMarks(Heal(m.marks, now))
  }

  /** The running jobs with a number below n that were admitted at most 900 s ago. */
  function Fresh(running: map<nat, Job>, n: nat, now: int): nat {
    if n == 0 then 0
    else Fresh(running, n - 1, now) + (if n - 1 in running && !Stale(running[n - 1].since, now) then 1 else 0)
  }

  ghost predicate Numbered(m: Marks) {
    forall j | j in m.running :: j < m.next
  }

  /** Whenever it is asked, the answer is the number of running jobs at most 900 s old. */
  ghost predicate Right(m: Marks) {
    forall now :: Busy(m, now) == Fresh(m.running, m.next, now)
  }

  // ----- The answers are right exactly when the marks bear the times of the running jobs -----

  ghost function MarkTimes(marks: seq<int>): multiset<int> {
    multiset(marks)[0 := 0]
  }

  ghost function Times(running: map<nat, Job>, n: nat): multiset<int> {
    if n == 0 then multiset{}
    else Times(running, n - 1) + (if n - 1 in running then multiset{running[n - 1].since} else multiset{})
  }

  /** The part of a multiset of times that is not stale. */
  ghost predicate FreshPart(part: multiset<int>, all: multiset<int>, now: int) {
    forall t :: part[t] == if Stale(t, now) then 0 else all[t]
  }

  lemma {:induction false} CountIsSize(marks: seq<int>)
    ensures CountMarks(marks) == |MarkTimes(marks)|
  {
    if marks != [] {
      var n := |marks| - 1;
      CountIsSize(marks[..n]);
      assert marks == marks[..n] + [marks[n]];
      assert MarkTimes(marks) ==
        MarkTimes(marks[..n]) + (if marks[n] != 0 then multiset{marks[n]} else multiset{});
    }
  }

  lemma {:induction false} HealedTimes(marks: seq<int>, now: int)
    ensures FreshPart(MarkTimes(Heal(marks, now)), MarkTimes(marks), now)
  {
    if marks == [] {
      assert Heal(marks, now) == [];
    } else {
      var n := |marks| - 1;
      HealedTimes(marks[..n], now);
      assert marks == marks[..n] + [marks[n]];
      assert Heal(marks, now) == Heal(marks[..n], now) + [if Stale(marks[n], now) then 0 else marks[n]];
    }
  }

  lemma {:induction false} FreshTimes(running: map<nat, Job>, n: nat, now: int) returns (part: multiset<int>)
    ensures FreshPart(part, Times(running, n), now) && |part| == Fresh(running, n, now)
  {
    if n == 0 {
      return multiset{};
    }
    part := FreshTimes(running, n - 1, now);
    if n - 1 in running && !Stale(running[n - 1].since, now) {
      part := part + multiset{running[n - 1].since};
    }
  }

  lemma SamePart(p: multiset<int>, q: multiset<int>, all: multiset<int>, now: int)
    requires FreshPart(p, all, now) && FreshPart(q, all, now)
    ensures p == q
  {
    assert forall t :: p[t] == q[t];
  }

  /** One second later the marks of one time drop out. */
  lemma OneSecondLater(p: multiset<int>, q: multiset<int>, all: multiset<int>, t: int)
    requires FreshPart(p, all, t + INFLIGHT_MAX) && FreshPart(q, all, t + INFLIGHT_MAX + 1)
    ensures |p| == |q| + all[t]
  {
    forall u ensures p[u] == q[t := all[t]][u] {
      assert Stale(u, t + INFLIGHT_MAX + 1) <==> u <= t;
    }
    assert p == q[t := all[t]];
  }

  lemma RightIff(m: Marks)
    ensures Right(m) <==> MarkTimes(m.marks) == Times(m.running, m.next)
  {
    hide CountMarks;
    hide Heal;
    hide MarkTimes;
    hide Times;
    hide Fresh;
    hide FreshPart;
    forall now ensures MarkTimes(m.marks) == Times(m.running, m.next) ==>
      Busy(m, now) == Fresh(m.running, m.next, now)
    {
      if MarkTimes(m.marks) == Times(m.running, m.next) {
        CountIsSize(Heal(m.marks, now));
        HealedTimes(m.marks, now);
        var part := FreshTimes(m.running, m.next, now);
        SamePart(part, MarkTimes(Heal(m.marks, now)), MarkTimes(m.marks), now);
      }
    }
    if Right(m) {
      forall t ensures MarkTimes(m.marks)[t] == Times(m.running, m.next)[t] {
        TimesFromAnswers(m, t);
      }
      assert MarkTimes(m.marks) == Times(m.running, m.next);
    }
  }

  /** How many marks bear a time can be read off two answers. */
  lemma TimesFromAnswers(m: Marks, t: int)
    requires Right(m)
    ensures MarkTimes(m.marks)[t] == Times(m.running, m.next)[t]
  {
    hide CountMarks;
    hide Heal;
    hide MarkTimes;
    hide Times;
    hide Fresh;
    hide FreshPart;
    var now := t + INFLIGHT_MAX;
    assert Busy(m, now) == Fresh(m.running, m.next, now);
    assert Busy(m, now + 1) == Fresh(m.running, m.next, now + 1);
    CountIsSize(Heal(m.marks, now));
    CountIsSize(Heal(m.marks, now + 1));
    HealedTimes(m.marks, now);
    HealedTimes(m.marks, now + 1);
    OneSecondLater(MarkTimes(Heal(m.marks, now)), MarkTimes(Heal(m.marks, now + 1)), MarkTimes(m.marks), t);
    var p := FreshTimes(m.running, m.next, now);
    var q := FreshTimes(m.running, m.next, now + 1);
    OneSecondLater(p, q, Times(m.running, m.next), t);
  }

  // ----- Which steps keep the answers right, exactly -----

  /** No running job was admitted more than 900 s ago. */
  predicate AllInTime(m: Marks, now: int) {
    forall j | j in m.running :: !Stale(m.running[j].since, now)
  }

  /** The time on the mark that request_end would clear. */
  function Cleared(m: Marks, th: Thread): Option<int> {
    if Holds(m, th) && m.marks[m.mySlot[th] - 1] != 0 then Some(m.marks[m.mySlot[th] - 1]) else None
  }

  /** When the ending job was admitted, if it is one that runs. */
  function EndedTime(m: Marks, done: Option<nat>): Option<int> {
    if done.Some? && done.value in m.running then Some(m.running[done.value].since) else None
  }

  /**
   * A consumption must find the first usable mark free, not merely stale, and the clock not at 0; request_end must
   * clear a mark of the very time of the job it ends, or clear and end nothing; no running job may end without it;
   * and healing must find no running job late.
   */
  predicate Keeps(m: Marks, e: Event) {
    match e
    case Take(_, now) => var k := FirstMark(m.marks, now); k < |m.marks| && m.marks[k] == 0 && now != 0
    case End(th, done) => Cleared(m, th) == EndedTime(m, done)
    case Finish(j) => j !in m.running
    case Ask(now) => AllInTime(m, now)
  }

  lemma {:induction false} TimesMore(running: map<nat, Job>, n: nat, job: Job)
    ensures Times(running[n := job], n + 1) == Times(running, n) + multiset{job.since}
  {
    TimesBelow(running, running[n := job], n);
  }

  lemma {:induction false} TimesBelow(running: map<nat, Job>, other: map<nat, Job>, n: nat)
    requires forall j: nat | j < n :: j in running <==> j in other
    requires forall j: nat | j < n && j in running :: running[j] == other[j]
    ensures Times(running, n) == Times(other, n)
  {
    if n > 0 {
      TimesBelow(running, other, n - 1);
    }
  }

  lemma {:induction false} TimesLess(running: map<nat, Job>, rest: map<nat, Job>, n: nat, j: nat)
    requires j < n && j in running && rest == running - {j}
    ensures Times(running, n) == Times(rest, n) + multiset{running[j].since}
  {
    assert j !in rest && forall i | i in running && i != j :: i in rest && rest[i] == running[i];
    if j == n - 1 {
      TimesBelow(running, rest, j);
    } else {
      TimesLess(running, rest, n - 1, j);
    }
  }

  lemma Cancel(a: multiset<int>, b: multiset<int>, c: multiset<int>, d: multiset<int>)
    requires a + c == b + d
    ensures a == b <==> c == d
  {
    assert forall t :: a[t] + c[t] == (a + c)[t] == (b + d)[t] == b[t] + d[t];
    if a == b {
      assert forall t :: c[t] == d[t];
    }
    if c == d {
      assert forall t :: a[t] == b[t];
    }
  }

  lemma {:induction false} InTimes(running: map<nat, Job>, n: nat, t: int)
    ensures t in Times(running, n) <==> exists j :: j < n && j in running && running[j].since == t
  {
    if n > 0 {
      InTimes(running, n - 1, t);
    }
  }

  lemma MarkTimesUpdate(marks: seq<int>, k: nat, v: int)
    requires k < |marks|
    ensures MarkTimes(marks[k := v]) + (if marks[k] != 0 then multiset{marks[k]} else multiset{})
         == MarkTimes(marks) + (if v != 0 then multiset{v} else multiset{})
  {
    assert multiset(marks[k := v]) + multiset{marks[k]} == multiset(marks) + multiset{v};
  }

  lemma TakeIff(m: Marks, th: Thread, now: int)
    requires Right(m)
    ensures Right(Step(m, Take(th, now))) <==> Keeps(m, Take(th, now))
  {
    hide Right;
    hide MarkTimes;
    hide Times;
    hide FirstMark;
    var m', k := Step(m, Take(th, now)), FirstMark(m.marks, now);
    RightIff(m);
    RightIff(m');
    TimesMore(m.running, m.next, m'.running[m.next]);
    if k < |m.marks| {
      MarkTimesUpdate(m.marks, k, now);
      assert now in multiset{now};
    }
    var before, after := MarkTimes(m.marks), MarkTimes(m'.marks);
    if k == |m.marks| {
      assert |before + multiset{now}| == |before| + 1;
    } else if m.marks[k] != 0 || now == 0 {
      var out, in' := if m.marks[k] != 0 then multiset{m.marks[k]} else multiset{},
                      if now != 0 then multiset{now} else multiset{};
      assert |after| + |out| == |after + out| == |before + in'| == |before| + |in'|;
      assert |before + multiset{now}| == |before| + 1;
    }
  }

  lemma EndIff(m: Marks, th: Thread, done: Option<nat>)
    requires Numbered(m) && Right(m)
    ensures Right(Step(m, End(th, done))) <==> Keeps(m, End(th, done))
  {
    hide Right;
    hide MarkTimes;
    hide Times;
    var m' := Step(m, End(th, done));
    RightIff(m);
    RightIff(m');
    ClearedTimes(m, th, done);
    EndedTimes(m, th, done);
    hide Step;
    hide Cleared;
    hide EndedTime;
    var cs, ds := AsTimes(Cleared(m, th)), AsTimes(EndedTime(m, done));
    Cancel(MarkTimes(m'.marks), Times(m'.running, m.next), cs, ds);
    SameTime(Cleared(m, th), EndedTime(m, done));
  }

  lemma ClearedTimes(m: Marks, th: Thread, done: Option<nat>)
    ensures MarkTimes(Step(m, End(th, done)).marks) + AsTimes(Cleared(m, th)) == MarkTimes(m.marks)
  {
    hide MarkTimes;
    if Holds(m, th) {
      MarkTimesUpdate(m.marks, m.mySlot[th] - 1, 0);
    }
  }

  lemma EndedTimes(m: Marks, th: Thread, done: Option<nat>)
    requires Numbered(m)
    ensures Step(m, End(th, done)).next == m.next
    ensures Times(Step(m, End(th, done)).running, m.next) + AsTimes(EndedTime(m, done)) == Times(m.running, m.next)
  {
    hide Times;
    if EndedTime(m, done).Some? {
      TimesLess(m.running, m.running - {done.value}, m.next, done.value);
    } else if done.Some? {
      assert m.running - {done.value} == m.running;
    }
  }

  function AsTimes(t: Option<int>): multiset<int> {
    if t.Some? then multiset{t.value} else multiset{}
  }

  lemma SameTime(c: Option<int>, d: Option<int>)
    ensures AsTimes(c) == AsTimes(d) <==> c == d
  {
    if AsTimes(c) == AsTimes(d) {
      assert c.Some? ==> c.value in AsTimes(d);
      assert d.Some? ==> d.value in AsTimes(c);
    }
  }

  lemma FinishIff(m: Marks, j: nat)
    requires Numbered(m) && Right(m)
    ensures Right(Step(m, Finish(j))) <==> Keeps(m, Finish(j))
  {
    hide Right;
    hide MarkTimes;
    hide Times;
    RightIff(m);
    RightIff(Step(m, Finish(j)));
    if j in m.running {
      TimesLess(m.running, m.running - {j}, m.next, j);
    } else {
      assert m.running - {j} == m.running;
    }
  }

  lemma AskIff(m: Marks, now: int)
    requires Numbered(m) && Right(m)
    ensures Right(Step(m, Ask(now))) <==> Keeps(m, Ask(now))
  {
    hide Right;
    hide MarkTimes;
    hide Times;
    hide Heal;
    var all, healed := MarkTimes(m.marks), MarkTimes(Heal(m.marks, now));
    RightIff(m);
    RightIff(Step(m, Ask(now)));
    HealedTimes(m.marks, now);
    if AllInTime(m, now) {
      forall t ensures healed[t] == all[t] {
        InTimes(m.running, m.next, t);
      }
      assert healed == all;
    } else {
      var j :| j in m.running && Stale(m.running[j].since, now);
      InTimes(m.running, m.next, m.running[j].since);
      assert healed[m.running[j].since] == 0 < all[m.running[j].since];
    }
  }

  /** From right answers, a step leaves right answers exactly when it keeps its guard. */
  lemma StepKeepsIff(m: Marks, e: Event)
    requires Numbered(m) && Right(m)
    ensures Right(Step(m, e)) <==> Keeps(m, e)
  {
    hide Right;
    hide Step;
    hide Keeps;
    match e {
      case Take(th, now) => TakeIff(m, th, now);
      case End(th, done) => EndIff(m, th, done);
      case Finish(j) => FinishIff(m, j);
      case Ask(now) => AskIff(m, now);
    }
  }

  // ----- Runs -----

  ghost predicate Start(m: Marks) {
    && m.mySlot == map[] && m.running == map[] && m.last == map[] && m.next == 0
    && forall i | 0 <= i < |m.marks| :: m.marks[i] == 0
  }

  ghost predicate Run(trace: seq<Marks>, events: seq<Event>) {
    && |trace| == |events| + 1
    && Start(trace[0])
    && forall i | 0 <= i < |events| :: trace[i + 1] == Step(trace[i], events[i])
  }

  lemma {:induction false} RunNumbered(trace: seq<Marks>, events: seq<Event>, i: nat)
    requires Run(trace, events) && i < |trace|
    ensures Numbered(trace[i])
  {
    hide FirstMark;
    if i > 0 {
      RunNumbered(trace, events, i - 1);
    }
  }

  lemma {:induction false} NoMarksNoTimes(m: Marks)
    requires Start(m)
    ensures Right(m)
  {
    RightIff(m);
    hide Right;
    assert forall t | t in m.marks :: t == 0;
    assert MarkTimes(m.marks) == multiset{};
  }

  /** In every run the answers have been right all along exactly when every step kept its guard. */
  lemma {:induction false} RunRightIff(trace: seq<Marks>, events: seq<Event>, i: nat)
    requires Run(trace, events) && i < |trace|
    ensures (forall j | 0 <= j <= i :: Right(trace[j])) <==> forall j | 0 <= j < i :: Keeps(trace[j], events[j])
  {
    hide Keeps;
    hide Step;
    hide Right;
    if i == 0 {
      NoMarksNoTimes(trace[0]);
    } else {
      RunRightIff(trace, events, i - 1);
      RunNumbered(trace, events, i - 1);
      assert trace[i - 1 + 1] == Step(trace[i - 1], events[i - 1]);
      if Right(trace[i - 1]) {
        StepKeepsIff(trace[i - 1], events[i - 1]);
      }
    }
  }

  lemma {:induction false} FreshPositive(running: map<nat, Job>, n: nat, now: int)
    ensures Fresh(running, n, now) > 0 <==> exists j :: j < n && j in running && !Stale(running[j].since, now)
  {
    if n > 0 {
      FreshPositive(running, n - 1, now);
    }
  }

  /** So in such a run the machine is busy exactly when some job runs that was admitted at most 900 s ago. */
  lemma BusyIffRunning(trace: seq<Marks>, events: seq<Event>, i: nat, now: int)
    requires Run(trace, events) && i < |trace| && forall j | 0 <= j < i :: Keeps(trace[j], events[j])
    ensures Busy(trace[i], now) > 0 <==>
            exists j :: j in trace[i].running && !Stale(trace[i].running[j].since, now)
  {
    hide Run;
    hide Keeps;
    hide Busy;
    RunRightIff(trace, events, i);
    RunNumbered(trace, events, i);
    assert Right(trace[i]);
    FreshPositive(trace[i].running, trace[i].next, now);
  }

  // ----- What is enough -----

  predicate Occupied(m: Marks, th: Thread) {
    th in m.last && m.last[th] in m.running
  }

  /**
   * What a caller can see to: a thread ends each admitted job with request_end before it consumes again, no job runs
   * for more than 900 s, no more jobs run at once than there are slots, and the clock is not at 0.
   */
  predicate Disciplined(m: Marks, e: Event) {
    match e
    case Take(th, now) => !Occupied(m, th) && |m.running| < |m.marks| && AllInTime(m, now) && now != 0
    case End(th, done) => if Occupied(m, th) then done == Some(m.last[th]) else EndedTime(m, done) == None
    case Finish(j) => j !in m.running
    case Ask(now) => AllInTime(m, now)
  }

  /** The mark of a running job is in the slot it was given. */
  predicate Marked(m: Marks, j: nat)
    requires j in m.running
  {
    var job := m.running[j];
    0 < job.slot <= |m.marks| && m.marks[job.slot - 1] == job.since != 0
  }

  /** Running jobs have their marks in different slots. */
  ghost predicate Covered(m: Marks) {
    && Numbered(m)
    && (forall j | j in m.running :: Marked(m, j))
    && forall i, j | i in m.running && j in m.running && i != j :: m.running[i].slot != m.running[j].slot
  }

  /** A thread's own slot is that of its last job while it runs, and none otherwise. */
  predicate ThreadOk(m: Marks, th: Thread) {
    && (th in m.last ==> m.last[th] < m.next)
    && (Holds(m, th) ==> Occupied(m, th))
    && (Occupied(m, th) ==>
          m.running[m.last[th]].th == th && th in m.mySlot && m.mySlot[th] == m.running[m.last[th]].slot)
  }

  predicate IsLast(m: Marks, j: nat)
    requires j in m.running
  {
    m.running[j].th in m.last && m.last[m.running[j].th] == j
  }

  /** Every running job is the last of its thread. */
  ghost predicate Linked(m: Marks) {
    (forall th :: ThreadOk(m, th)) && forall j | j in m.running :: IsLast(m, j)
  }

  lemma OneLess(running: map<nat, Job>, rest: map<nat, Job>, j: nat)
    requires j in running && rest == running - {j}
    ensures |running| == |rest| + 1
  {
    assert running.Keys == rest.Keys + {j};
    assert |running| == |running.Keys| && |rest| == |rest.Keys|;
  }

  lemma {:induction false} SizeOfTimes(running: map<nat, Job>, n: nat)
    requires forall j | j in running :: j < n
    ensures |Times(running, n)| == |running|
  {
    if n == 0 {
      assert running == map[];
    } else if n - 1 in running {
      var rest := running - {n - 1};
      assert forall j | j in rest :: j < n - 1;
      OneLess(running, rest, n - 1);
      SizeOfTimes(rest, n - 1);
      TimesBelow(running, rest, n - 1);
    } else {
      SizeOfTimes(running, n - 1);
    }
  }

  lemma {:induction false} AllMarked(marks: seq<int>)
    requires forall i | 0 <= i < |marks| :: marks[i] != 0
    ensures CountMarks(marks) == |marks|
  {
    if marks != [] {
      AllMarked(marks[..|marks| - 1]);
    }
  }

  /** With fewer jobs than slots, and none of them late, the first usable mark is a free one. */
  lemma FreeMark(m: Marks, now: int)
    requires Numbered(m) && Right(m) && |m.running| < |m.marks| && AllInTime(m, now)
    ensures var k := FirstMark(m.marks, now); k < |m.marks| && m.marks[k] == 0
  {
    hide Right;
    hide FirstMark;
    hide Times;
    RightIff(m);
    SizeOfTimes(m.running, m.next);
    CountIsSize(m.marks);
    var k := FirstMark(m.marks, now);
    if k == |m.marks| {
      AllMarked(m.marks);
    } else if m.marks[k] != 0 {
      InTimes(m.running, m.next, m.marks[k]);
    }
  }

  lemma DisciplinedKeeps(m: Marks, e: Event)
    requires Numbered(m) && Right(m) && Covered(m) && Linked(m) && Disciplined(m, e)
    ensures Keeps(m, e)
  {
    hide FirstMark;
    hide Right;
    match e
    case Take(th, now) => FreeMark(m, now);
    case End(th, done) => assert ThreadOk(m, th) && (Occupied(m, th) ==> Marked(m, m.last[th]));
    case _ =>
  }

  lemma TakeStays(m: Marks, th: Thread, now: int)
    requires Covered(m) && Linked(m) && Disciplined(m, Take(th, now)) && Keeps(m, Take(th, now))
    ensures Covered(Step(m, Take(th, now))) && Linked(Step(m, Take(th, now)))
  {
    hide FirstMark;
    hide ThreadOk;
    var m' := Step(m, Take(th, now));
    forall j | j in m'.running ensures Marked(m', j) && IsLast(m', j) {
      if j != m.next {
        assert Marked(m, j) && IsLast(m, j);
      }
    }
    assert Numbered(m');
    forall i, j | i in m'.running && j in m'.running && i != j ensures m'.running[i].slot != m'.running[j].slot {
      assert i != m.next ==> Marked(m, i);
      assert j != m.next ==> Marked(m, j);
    }
    forall t ensures ThreadOk(m', t) {
      TakeThread(m, th, now, t);
    }
  }

  lemma TakeThread(m: Marks, th: Thread, now: int, t: Thread)
    requires Numbered(m) && ThreadOk(m, t) && !Occupied(m, th)
    ensures ThreadOk(Step(m, Take(th, now)), t)
  {
    hide FirstMark;
  }

  lemma EndStays(m: Marks, th: Thread, done: Option<nat>)
    requires Covered(m) && Linked(m) && Disciplined(m, End(th, done))
    ensures Covered(Step(m, End(th, done))) && Linked(Step(m, End(th, done)))
  {
    var m' := Step(m, End(th, done));
    assert ThreadOk(m, th);
    if Occupied(m, th) {
      var j0 := m.last[th];
      assert Marked(m, j0);
      forall j | j in m'.running ensures Marked(m', j) && IsLast(m', j) {
        assert Marked(m, j) && IsLast(m, j) && m.running[j].slot != m.running[j0].slot;
      }
      assert Covered(m');
      hide ThreadOk;
      forall t ensures ThreadOk(m', t) {
        EndThread(m, th, t);
      }
    } else {
      assert m' == m by {
        if done.Some? {
          assert m.running - {done.value} == m.running;
        }
      }
    }
  }

  lemma EndThread(m: Marks, th: Thread, t: Thread)
    requires ThreadOk(m, th) && ThreadOk(m, t) && Occupied(m, th)
    ensures ThreadOk(Step(m, End(th, Some(m.last[th]))), t)
  {
  }

  lemma AskStays(m: Marks, now: int)
    requires Covered(m) && Linked(m) && AllInTime(m, now)
    ensures Covered(Step(m, Ask(now))) && Linked(Step(m, Ask(now)))
  {
    var m' := Step(m, Ask(now));
    forall j | j in m'.running ensures Marked(m', j) {
      assert Marked(m, j);
    }
    forall th ensures ThreadOk(m', th) {
      assert ThreadOk(m, th);
    }
    forall j | j in m'.running ensures IsLast(m', j) {
      assert IsLast(m, j);
    }
  }

  lemma DisciplinedStays(m: Marks, e: Event)
    requires Covered(m) && Linked(m) && Disciplined(m, e) && Keeps(m, e)
    ensures Covered(Step(m, e)) && Linked(Step(m, e))
  {
    hide Covered;
    hide Linked;
    match e {
      case Take(th, now) => TakeStays(m, th, now);
      case End(th, done) => EndStays(m, th, done);
      case Finish(j) => assert m.running - {j} == m.running;
      case Ask(now) => AskStays(m, now);
    }
  }

  /** In a disciplined run the machine is busy exactly when some job runs, and the answer is how many do. */
  lemma {:induction false} DisciplineSuffices(trace: seq<Marks>, events: seq<Event>, i: nat)
    requires Run(trace, events) && i < |trace| && forall j | 0 <= j < i :: Disciplined(trace[j], events[j])
    ensures Covered(trace[i]) && Linked(trace[i]) && Right(trace[i])
    ensures forall j | 0 <= j < i :: Keeps(trace[j], events[j])
    ensures forall now | AllInTime(trace[i], now) :: Busy(trace[i], now) == |trace[i].running|
  {
    hide Step;
    hide Keeps;
    hide Disciplined;
    if i == 0 {
      NoMarksNoTimes(trace[0]);
    } else {
      DisciplineSuffices(trace, events, i - 1);
      var m := trace[i - 1];
      assert trace[i - 1 + 1] == Step(m, events[i - 1]) && Disciplined(m, events[i - 1]);
      hide Right;
      hide Linked;
      RunNumbered(trace, events, i - 1);
      DisciplinedKeeps(m, events[i - 1]);
      StepKeepsIff(m, events[i - 1]);
      DisciplinedStays(m, events[i - 1]);
    }
    forall now | AllInTime(trace[i], now) ensures Busy(trace[i], now) == |trace[i].running| {
      RunNumbered(trace, events, i);
      AllFresh(trace[i], now);
    }
  }

  lemma AllFresh(m: Marks, now: int)
    requires Numbered(m) && Right(m) && AllInTime(m, now)
    ensures Busy(m, now) == |m.running|
  {
    hide Busy;
    hide Times;
    var part := FreshTimes(m.running, m.next, now);
    SizeOfTimes(m.running, m.next);
    forall t ensures part[t] == Times(m.running, m.next)[t] {
      InTimes(m.running, m.next, t);
    }
    assert part == Times(m.running, m.next);
  }

  // ----- The marks of the module's state -----

  predicate Shows(m: Marks, s: State) {
    m.marks == s.marks && m.mySlot == s.mySlot
  }

  /** Consuming is one Take if the ticket is admitted, and otherwise leaves the marks alone. */
  lemma ConsumeIsTake(m: Marks, s: State, th: Thread, p: Presented, bodyHex: string, now: int)
    requires Shows(m, s) && (Verdict(s, p, bodyHex, now) == OK ==> IsHexNonce(p))
    ensures var (rc, s') := ConsumeStep(s, th, p, bodyHex, now);
      Shows(if rc == OK then Step(m, Take(th, now)) else m, s')
  {
    hide Verdict;
    hide Spend;
    hide FirstMark;
  }

  predicate IsHexNonce(p: Presented) {
    p.Parsed? && IsHex(p.ticket.nonceHex)
  }

  /** request_end is End, whatever the history makes of the job. */
  lemma RequestEndIsEnd(m: Marks, s: State, th: Thread, done: Option<nat>)
    requires Shows(m, s) && (th in s.mySlot ==> s.mySlot[th] <= |s.marks|)
    ensures Shows(Step(m, End(th, done)), RequestEndStep(s, th))
  {
  }
}
