/**
 * The safe direction of the in-flight marks: exactly when no running job is missed, also when threads leave marks
 * behind, as src/coord/coord_main.c does with the jobs it parks; and the runs in which one is.
 */
module AdmissionParked {

  import opened Admission
  import opened AdmissionBusy
  import opened Options

  /**
   * A consumption must find a mark that is no running job's, and the clock not at 0; request_end must clear no other
   * running job's mark; healing must find no running job late.
   */
  predicate Covers(m: Marks, e: Event) {
    match e
    case Take(_, now) =>
      var k := FirstMark(m.marks, now);
      k < |m.marks| && now != 0 && forall j | j in m.running :: m.running[j].slot != k + 1
    case End(th, done) => forall j | j in m.running && done != Some(j) :: !Clears(m, th, j)
    case Finish(_) => true
    case Ask(now) => AllInTime(m, now)
  }

  /** request_end on th clears the mark of job j. */
  predicate Clears(m: Marks, th: Thread, j: nat)
    requires j in m.running
  {
    Holds(m, th) && m.mySlot[th] == m.running[j].slot
  }

  lemma TakeCovers(m: Marks, th: Thread, now: int)
    requires Covered(m)
    ensures Covered(Step(m, Take(th, now))) <==> Covers(m, Take(th, now))
  {
    hide FirstMark;
    var m', k := Step(m, Take(th, now)), FirstMark(m.marks, now);
    assert forall j | j in m.running :: Marked(m, j);
    if Covers(m, Take(th, now)) {
      forall j | j in m'.running ensures Marked(m', j) {
        if j != m.next { assert Marked(m, j); }
      }
    } else {
      assert m.next in m'.running;
      if k < |m.marks| && now != 0 {
        var j :| j in m.running && m.running[j].slot == k + 1;
        assert j in m'.running && j != m.next && m'.running[j].slot == m'.running[m.next].slot;
      } else {
        assert !Marked(m', m.next);
      }
    }
  }

  /** Ending one request takes the mark from under another running job exactly when that is the thread's own slot. */
  lemma EndHidesIff(m: Marks, th: Thread, done: Option<nat>, j: nat)
    requires Covered(m) && j in m.running && done != Some(j)
    ensures j in Step(m, End(th, done)).running
    ensures Marked(Step(m, End(th, done)), j) <==> !Clears(m, th, j)
  {
    assert Marked(m, j);
  }

  lemma EndCovers(m: Marks, th: Thread, done: Option<nat>)
    requires Covered(m)
    ensures Covered(Step(m, End(th, done))) <==> Covers(m, End(th, done))
  {
    var m' := Step(m, End(th, done));
    forall j | j in m'.running ensures j in m.running && (Marked(m', j) <==> !Clears(m, th, j)) {
      EndHidesIff(m, th, done, j);
    }
    hide Marked;
    hide Clears;
    assert forall j | j in m.running && done != Some(j) :: j in m'.running && m'.running[j] == m.running[j];
  }

  lemma AskCovers(m: Marks, now: int)
    requires Covered(m)
    ensures Covered(Step(m, Ask(now))) <==> Covers(m, Ask(now))
  {
    var m' := Step(m, Ask(now));
    forall j | j in m.running ensures Marked(m', j) <==> !Stale(m.running[j].since, now) {
      assert Marked(m, j);
    }
  }

  /** A step leaves every running job with a mark of its own exactly when it keeps its guard. */
  lemma CoverStepIff(m: Marks, e: Event)
    requires Covered(m)
    ensures Covered(Step(m, e)) <==> Covers(m, e)
  {
    match e {
      case Take(th, now) => TakeCovers(m, th, now);
      case End(th, done) => EndCovers(m, th, done);
      case Finish(j) =>
        var m' := Step(m, Finish(j));
        assert forall i | i in m'.running :: i in m.running && Marked(m, i);
      case Ask(now) => AskCovers(m, now);
    }
  }

  /** In every run each running job has had a mark of its own all along exactly when every step kept its guard. */
  lemma {:induction false} RunCoveredIff(trace: seq<Marks>, events: seq<Event>, i: nat)
    requires Run(trace, events) && i < |trace|
    ensures (forall j | 0 <= j <= i :: Covered(trace[j])) <==> forall j | 0 <= j < i :: Covers(trace[j], events[j])
  {
    hide Step;
    hide Covers;
    if i > 0 {
      hide Covered;
      RunCoveredIff(trace, events, i - 1);
      assert trace[i - 1 + 1] == Step(trace[i - 1], events[i - 1]);
      if Covered(trace[i - 1]) {
        CoverStepIff(trace[i - 1], events[i - 1]);
      }
    }
  }

  // ----- What marks of their own are good for -----

  ghost predicate CoveredBelow(marks: seq<int>, running: map<nat, Job>, n: nat) {
    && (forall j: nat | j < n && j in running ::
          0 < running[j].slot <= |marks| && marks[running[j].slot - 1] == running[j].since != 0)
    && forall i: nat, j: nat | i < j < n && i in running && j in running :: running[i].slot != running[j].slot
  }

  /** The times of the jobs are among those of the marks. */
  lemma {:induction false} TimesAmongMarks(marks: seq<int>, running: map<nat, Job>, n: nat)
    requires CoveredBelow(marks, running, n)
    ensures Times(running, n) <= MarkTimes(marks)
    decreases n
  {
    hide CoveredBelow;
    hide MarkTimes;
    hide Times;
    TimesStep(running, n);
    if n > 0 {
      RestCovered(marks, running, n - 1);
      if n - 1 in running {
        var job := running[n - 1];
        var rest := marks[job.slot - 1 := 0];
        TimesAmongMarks(rest, running, n - 1);
        MarkTimesUpdate(marks, job.slot - 1, 0);
        OneMore(Times(running, n - 1), MarkTimes(rest), job.since);
      } else {
        TimesAmongMarks(marks, running, n - 1);
      }
    }
  }

  lemma TimesStep(running: map<nat, Job>, n: nat)
    ensures Times(running, n) ==
      if n == 0 then multiset{}
      else if n - 1 in running then Times(running, n - 1) + multiset{running[n - 1].since}
      else Times(running, n - 1)
  {
  }

  lemma OneMore(a: multiset<int>, b: multiset<int>, t: int)
    requires a <= b
    ensures a + multiset{t} <= b + multiset{t}
  {
  }

  lemma RestCovered(marks: seq<int>, running: map<nat, Job>, n: nat)
    requires CoveredBelow(marks, running, n + 1)
    ensures CoveredBelow(marks, running, n)
    ensures n in running ==>
      && 0 < running[n].slot <= |marks| && marks[running[n].slot - 1] == running[n].since != 0
      && CoveredBelow(marks[running[n].slot - 1 := 0], running, n)
  {
  }

  lemma SmallerPart(p: multiset<int>, q: multiset<int>, all: multiset<int>, more: multiset<int>, now: int)
    requires FreshPart(p, all, now) && FreshPart(q, more, now) && all <= more
    ensures |p| <= |q|
  {
    assert forall t :: p[t] <= q[t];
    assert p <= q && q == p + (q - p);
  }

  /** With a mark of its own for each, at least the running jobs that are not late are counted. */
  lemma CoveredIsCounted(m: Marks, now: int)
    requires Covered(m)
    ensures Fresh(m.running, m.next, now) <= Busy(m, now)
  {
    assert forall j | j in m.running :: Marked(m, j);
    TimesAmongMarks(m.marks, m.running, m.next);
    hide MarkTimes;
    hide Times;
    hide FreshPart;
    hide Heal;
    CountIsSize(Heal(m.marks, now));
    HealedTimes(m.marks, now);
    var part := FreshTimes(m.running, m.next, now);
    SmallerPart(part, MarkTimes(Heal(m.marks, now)), Times(m.running, m.next), MarkTimes(m.marks), now);
  }

  // ----- What is enough -----

  /**
   * A consumption finds a free or stale slot, no job runs for more than 900 s, and a thread that holds a mark calls
   * request_end only for the last job it consumed, while that runs. A thread may consume again before it ends, and
   * jobs may end without request_end.
   */
  predicate Prompt(m: Marks, e: Event) {
    match e
    case Take(_, now) => FirstMark(m.marks, now) < |m.marks| && AllInTime(m, now) && now != 0
    case End(th, done) => Holds(m, th) ==> Occupied(m, th) && done == Some(m.last[th])
    case Finish(_) => true
    case Ask(now) => AllInTime(m, now)
  }

  predicate LastSlot(m: Marks, th: Thread) {
    && (th in m.last ==> m.last[th] < m.next)
    && (Occupied(m, th) ==> th in m.mySlot && m.mySlot[th] == m.running[m.last[th]].slot)
  }

  lemma PromptCovers(m: Marks, e: Event)
    requires Covered(m) && Prompt(m, e) && forall th :: LastSlot(m, th)
    ensures Covers(m, e)
  {
    hide FirstMark;
    match e
    case Take(_, now) =>
      forall j | j in m.running ensures m.running[j].slot != FirstMark(m.marks, now) + 1 {
        assert Marked(m, j);
      }
    case End(th, done) =>
      assert LastSlot(m, th);
    case _ =>
  }

  lemma PromptStays(m: Marks, e: Event, th: Thread)
    requires Numbered(m) && Covered(m) && Prompt(m, e) && forall t :: LastSlot(m, t)
    ensures LastSlot(Step(m, e), th)
  {
    hide FirstMark;
    assert LastSlot(m, th);
    if e.End? && Holds(m, e.th) {
      assert LastSlot(m, e.th) && Marked(m, m.last[e.th]);
    }
  }

  /** Under that discipline the machine never looks idle while a job runs, whatever marks are left behind. */
  lemma {:induction false} PromptNeverMisses(trace: seq<Marks>, events: seq<Event>, i: nat)
    requires Run(trace, events) && i < |trace| && forall j | 0 <= j < i :: Prompt(trace[j], events[j])
    ensures Covered(trace[i]) && forall th :: LastSlot(trace[i], th)
    ensures forall now :: Fresh(trace[i].running, trace[i].next, now) <= Busy(trace[i], now)
    ensures forall now, j | j in trace[i].running && AllInTime(trace[i], now) :: Busy(trace[i], now) > 0
  {
    hide Step;
    hide Prompt;
    hide Busy;
    if i > 0 {
      PromptNeverMisses(trace, events, i - 1);
      var m := trace[i - 1];
      assert trace[i - 1 + 1] == Step(m, events[i - 1]) && Prompt(m, events[i - 1]);
      forall th ensures LastSlot(trace[i], th) {
        PromptStays(m, events[i - 1], th);
      }
      hide LastSlot;
      PromptCovers(m, events[i - 1]);
      CoverStepIff(m, events[i - 1]);
    }
    forall now ensures Fresh(trace[i].running, trace[i].next, now) <= Busy(trace[i], now) {
      CoveredIsCounted(trace[i], now);
    }
    forall now, j | j in trace[i].running && AllInTime(trace[i], now) ensures Busy(trace[i], now) > 0 {
      FreshPositive(trace[i].running, trace[i].next, now);
    }
  }

  // ----- Runs that miss a job -----

  function TraceOf(m: Marks, events: seq<Event>): (trace: seq<Marks>)
    ensures |trace| == |events| + 1 && trace[0] == m
    ensures forall i | 0 <= i < |events| :: trace[i + 1] == Step(trace[i], events[i])
    decreases |events|
  {
    if events == [] then [m] else
    var n := |events| - 1;
    var before := TraceOf(m, events[..n]);
    before + [Step(before[n], events[n])]
  }

  function Idle(n: nat): Marks {
    Marks(seq(n, _ => 0), map[], map[], map[], 0)
  }

  /**
   * A job is parked, and the next request its thread serves was not admitted: its request_end clears the parked job's
   * mark. The coordinator's loop has it that the mark stays until it is stale.
   */
  lemma ParkedJobIsMissed(n: nat, th: Thread, t: int)
    requires n > 0 && t != 0
    ensures var events := [Take(th, t), End(th, None)];
      var m := TraceOf(Idle(n), events)[2];
      Run(TraceOf(Idle(n), events), events) && m.running == map[0 := Job(t, th, 1)] && Busy(m, t) == 0
  {
    var events := [Take(th, t), End(th, None)];
    var zeros: seq<int> := seq(n, _ => 0);
    var m1 := TraceOf(Idle(n), events)[1];
    assert m1.marks == zeros[0 := t];
    assert TraceOf(Idle(n), events)[2].marks == zeros;
    NoneCounted(zeros, t);
  }

  lemma {:induction false} NoneCounted(marks: seq<int>, now: int)
    requires forall i | 0 <= i < |marks| :: marks[i] == 0
    ensures CountMarks(Heal(marks, now)) == 0
  {
    CountIsSize(Heal(marks, now));
    assert forall t | t in Heal(marks, now) :: t == 0;
    assert MarkTimes(Heal(marks, now)) == multiset{};
  }

  /** A request that ends more than 900 s after its admission clears the mark of the job that has its slot by then. */
  lemma LateEndMissesAnother(n: nat, a: Thread, b: Thread, t: int)
    requires a != b && t > 0 && n > 0
    ensures var events := [Take(a, t), Take(b, t + 901), End(a, Some(0))];
      var m := TraceOf(Idle(n), events)[3];
      Run(TraceOf(Idle(n), events), events) && m.running == map[1 := Job(t + 901, b, 1)] && Busy(m, t + 901) == 0
  {
    var events := [Take(a, t), Take(b, t + 901), End(a, Some(0))];
    var trace := TraceOf(Idle(n), events);
    var zeros: seq<int> := seq(n, _ => 0);
    assert trace[1].marks == zeros[0 := t] && trace[1].mySlot == map[a := 1];
    assert trace[2].marks == zeros[0 := t + 901] && trace[2].mySlot == map[a := 1, b := 1];
    assert trace[2].running == map[0 := Job(t, a, 1), 1 := Job(t + 901, b, 1)];
    assert trace[3].marks == zeros;
    NoneCounted(zeros, t + 901);
  }

  // ----- One job more than there are slots -----

  /** Threads 0 to n each consume a ticket; then all but the last end their requests. */
  function Crowd(n: nat, t: int): seq<Event> {
    seq(n + 1, (i: nat) => Take(i, t)) + seq(n, (i: nat) => End(i, Some(i)))
  }

  /** Threads up to i have consumed, and of these the first e have ended. */
  ghost predicate Crowded(m: Marks, n: nat, t: int, i: nat, e: nat) {
    && |m.marks| == n && m.next == i
    && (forall k | 0 <= k < n :: m.marks[k] == if e <= k < i then t else 0)
    && (forall th: nat :: th in m.mySlot <==> th < i)
    && (forall th: nat | th < i :: m.mySlot[th] == if e <= th < n then th + 1 else 0)
    && (forall th: nat :: th in m.last <==> th < i)
    && (forall th: nat | th < i :: m.last[th] == th)
    && (forall j: nat :: j in m.running <==> e <= j < i)
    && (forall j: nat | e <= j < i :: m.running[j] == Job(t, j, if j < n then j + 1 else 0))
  }

  lemma CrowdTakes(m: Marks, n: nat, t: int, i: nat)
    requires Crowded(m, n, t, i, 0) && i <= n && t != 0
    ensures Crowded(Step(m, Take(i, t)), n, t, i + 1, 0)
    ensures AllInTime(m, t) && !Occupied(m, i)
  {
    var k := FirstMark(m.marks, t);
    assert k == i;
  }

  lemma CrowdEnds(m: Marks, n: nat, t: int, e: nat)
    requires Crowded(m, n, t, n + 1, e) && e < n
    ensures Crowded(Step(m, End(e, Some(e))), n, t, n + 1, e + 1)
    ensures Disciplined(m, End(e, Some(e)))
  {
  }

  lemma {:induction false} CrowdAfter(n: nat, t: int, s: nat)
    requires t != 0 && s <= 2 * n + 1
    ensures var m := TraceOf(Idle(n), Crowd(n, t))[s];
      if s <= n then Crowded(m, n, t, s, 0) else Crowded(m, n, t, n + 1, s - n - 1)
  {
    hide Crowded;
    hide Step;
    var trace := TraceOf(Idle(n), Crowd(n, t));
    if s == 0 {
      IdleIsEmpty(n, t);
    } else {
      CrowdAfter(n, t, s - 1);
      assert trace[s - 1 + 1] == Step(trace[s - 1], Crowd(n, t)[s - 1]);
      if s - 1 <= n {
        CrowdTakes(trace[s - 1], n, t, s - 1);
      } else {
        CrowdEnds(trace[s - 1], n, t, s - n - 2);
      }
    }
  }

  lemma IdleIsEmpty(n: nat, t: int)
    ensures Crowded(Idle(n), n, t, 0, 0)
  {
  }

  lemma CrowdSize(m: Marks, n: nat, t: int, i: nat)
    requires Crowded(m, n, t, i, 0)
    ensures |m.running| == i
  {
    SizeUpTo(m.running, i);
  }

  lemma {:induction false} SizeUpTo(running: map<nat, Job>, i: nat)
    requires forall j: nat :: j in running <==> j < i
    ensures |running| == i
  {
    if i > 0 {
      OneLess(running, running - {i - 1}, i - 1);
      SizeUpTo(running - {i - 1}, i - 1);
    } else {
      assert running == map[];
    }
  }

  /**
   * With as many slots as the table has, one job more than that is admitted without a mark: every step is disciplined
   * but for the room, and once the others have ended the machine answers "not busy" while it runs.
   */
  lemma FullTableHidesAJob(n: nat, t: int)
    requires t != 0
    ensures var events := Crowd(n, t);
      var trace := TraceOf(Idle(n), events);
      && Run(trace, events)
      && (forall s | 0 <= s < |events| && s != n :: Disciplined(trace[s], events[s]))
      && !Occupied(trace[n], n) && AllInTime(trace[n], t) && |trace[n].running| == |trace[n].marks| == n
      && trace[2 * n + 1].running.Keys == {n} && Busy(trace[2 * n + 1], t) == 0
  {
    hide Crowded;
    hide Step;
    hide Disciplined;
    hide AllInTime;
    var events := Crowd(n, t);
    var trace := TraceOf(Idle(n), events);
    forall s | 0 <= s < |events| && s != n ensures Disciplined(trace[s], events[s]) {
      CrowdAfter(n, t, s);
      if s < n {
        CrowdTakesInOrder(trace[s], n, t, s);
      } else {
        CrowdEnds(trace[s], n, t, s - n - 1);
      }
    }
    CrowdAfter(n, t, n);
    CrowdTakes(trace[n], n, t, n);
    CrowdSize(trace[n], n, t, n);
    CrowdAfter(n, t, 2 * n + 1);
    LastIsMissed(trace[2 * n + 1], n, t);
    SlotCount(trace[n], n, t);
  }

  lemma SlotCount(m: Marks, n: nat, t: int)
    requires Crowded(m, n, t, n, 0)
    ensures |m.marks| == n
  {
  }

  lemma CrowdTakesInOrder(m: Marks, n: nat, t: int, i: nat)
    requires Crowded(m, n, t, i, 0) && i < n && t != 0
    ensures Disciplined(m, Take(i, t))
  {
    CrowdTakes(m, n, t, i);
    CrowdSize(m, n, t, i);
  }

  lemma LastIsMissed(m: Marks, n: nat, t: int)
    requires Crowded(m, n, t, n + 1, n)
    ensures m.running.Keys == {n} && Busy(m, t) == 0
  {
    NoneCounted(m.marks, t);
  }

  /** The table as it is: 64 slots, 65 jobs. */
  lemma SixtyFifthJobIsMissed(t: int)
    requires t != 0
    ensures var trace := TraceOf(Idle(INFLIGHT_SLOTS), Crowd(INFLIGHT_SLOTS, t));
      trace[129].running.Keys == {64} && Busy(trace[129], t) == 0
  {
    hide Busy;
    FullTableHidesAJob(INFLIGHT_SLOTS, t);
  }
}
