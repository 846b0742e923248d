/**
 * When the chat history of client/src/Chat.tsx reaches the disk: a debounced write with a ceiling on the wait,
 * over every run of changes, timer firings and passing time.
 */
module ChatStore {

  import opened Arithmetic
  import opened ChatState
  import opened Options

  const DEBOUNCE: nat := 400

  const MAX_WAIT: nat := 2000

  /**
   * Times are milliseconds. `changes` holds when each change was made, `saved` how many of them the last write
   * covered; `due` is the armed timer.
   */
  datatype Clock = Clock(now: nat, lastWrite: nat, due: Option<nat>, changes: seq<nat>, saved: nat)

  /** A write may be refused: a full or blocked storage throws, and the code carries on. */
  datatype Tick =
    | Change              // the table changed: the effect drops the armed timer and arms a new one
    | Fire(ok: bool)      // the armed timer runs, and its write succeeds or not
    | Close(ok: bool)     // the window closes or the page is left: write at once
    | Pass(until: nat)    // time passes

  function Opened(now: nat): Clock {
    Clock(now, 0, None, [], 0)
  }

  /** The delay armed when `waited` ms have gone by since the last write; a plain debounce has no ceiling. */
  function Delay(waited: int, ceiling: bool): nat {
    Max(0, if ceiling then Min(DEBOUNCE, MAX_WAIT - waited) else DEBOUNCE)
  }

  /** A write that fails is remembered as a write all the same. */
  function Written(s: Clock, ok: bool): Clock {
    s.(lastWrite := s.now, saved := if ok then |s.changes| else s.saved)
  }

  function Ticked(s: Clock, t: Tick, ceiling: bool): Clock {
    match t
    case Change => s.(due := Some(s.now + Delay(s.now - s.lastWrite, ceiling)), changes := s.changes + [s.now])
    case Fire(ok) => Written(s, ok).(due := None)
    case Close(ok) => Written(s, ok)
    case Pass(until) => s.(now := until)
  }

  /** The clock is monotone, and a due timer fires before the clock moves past it. */
  predicate Possible(s: Clock, t: Tick) {
    match t
    case Fire(_) => s.due == Some(s.now)
    case Pass(until) => s.now <= until && (s.due.Some? ==> until <= s.due.value)
    case _ => true
  }

  function After(s: Clock, ts: seq<Tick>, ceiling: bool): Clock {
    if ts == [] then s else Ticked(After(s, ts[..|ts| - 1], ceiling), ts[|ts| - 1], ceiling)
  }

  predicate Happens(s: Clock, ts: seq<Tick>, ceiling: bool) {
    ts == [] || (Happens(s, ts[..|ts| - 1], ceiling) && Possible(After(s, ts[..|ts| - 1], ceiling), ts[|ts| - 1]))
  }

  lemma StepOn(s: Clock, ts: seq<Tick>, t: Tick, ceiling: bool)
    ensures After(s, ts + [t], ceiling) == Ticked(After(s, ts, ceiling), t, ceiling)
    ensures Happens(s, ts + [t], ceiling) <==> Happens(s, ts, ceiling) && Possible(After(s, ts, ceiling), t)
  {
    hide Ticked;
    hide Possible;
    assert (ts + [t])[..|ts|] == ts;
  }

  /** An armed timer fires when its time comes, whatever its write meets; until then time may pass as it likes. */
  lemma TimerComes(s: Clock, until: nat, ok: bool, ceiling: bool)
    requires s.due.Some? && s.now <= until <= s.due.value
    ensures Happens(s, [Pass(until)], ceiling) && Happens(s, [Pass(s.due.value), Fire(ok)], ceiling)
  {
    StepOn(s, [], Pass(until), ceiling);
    StepOn(s, [], Pass(s.due.value), ceiling);
    StepOn(s, [Pass(s.due.value)], Fire(ok), ceiling);
    assert [] + [Pass(until)] == [Pass(until)] && [] + [Pass(s.due.value)] == [Pass(s.due.value)];
    assert [Pass(s.due.value)] + [Fire(ok)] == [Pass(s.due.value), Fire(ok)];
  }

  /** No change is unsaved for more than two seconds. */
  predicate Fresh(s: Clock) {
    s.saved < |s.changes| ==> s.now <= s.changes[s.saved] + MAX_WAIT
  }

  /** A change that is not on disk has a timer, and the timer is due in time. */
  ghost predicate OnTime(s: Clock) {
    && s.saved <= |s.changes| && s.lastWrite <= s.now
    && (forall i | 0 <= i < |s.changes| :: s.changes[i] <= s.now)
    && (forall i, j | 0 <= i < j < |s.changes| :: s.changes[i] <= s.changes[j])
    && (forall i | s.saved <= i < |s.changes| :: s.lastWrite <= s.changes[i])
    && (s.due.Some? ==> s.now <= s.due.value)
    && (s.saved < |s.changes| ==>
          s.due.Some? && s.due.value <= Max(s.changes[s.saved], s.lastWrite + MAX_WAIT))
  }

  /** A write fails with a change to save: any change for the timer, an earlier one for a write without it. */
  predicate Loses(s: Clock, t: Tick) {
    match t
    case Fire(ok) => !ok && s.saved < |s.changes|
    case Close(ok) => !ok && s.saved < |s.changes| && s.changes[s.saved] < s.now
    case _ => false
  }

  lemma OnTimeStep(s: Clock, t: Tick)
    requires OnTime(s) && Possible(s, t)
    ensures OnTime(Ticked(s, t, true)) <==> !Loses(s, t)
  {
    var later := Ticked(s, t, true);
    if t.Change? {
      assert forall i | 0 <= i < |s.changes| :: later.changes[i] == s.changes[i];
    }
    if t.Close? && Loses(s, t) {
      assert later.lastWrite > later.changes[s.saved];
    }
  }

  /** No write of the run fails with something to save. */
  predicate WritesSucceed(s: Clock, ts: seq<Tick>) {
    ts == [] || (WritesSucceed(s, ts[..|ts| - 1]) && !Loses(After(s, ts[..|ts| - 1], true), ts[|ts| - 1]))
  }

  lemma {:induction false} StaysOnTime(s: Clock, ts: seq<Tick>)
    requires OnTime(s) && Happens(s, ts, true) && WritesSucceed(s, ts)
    ensures OnTime(After(s, ts, true))
  {
    if ts != [] {
      StaysOnTime(s, ts[..|ts| - 1]);
      OnTimeStep(After(s, ts[..|ts| - 1], true), ts[|ts| - 1]);
    }
  }

  /**
   * Bounded staleness: with d the first unsaved change and w the last write, the time never passes max(d, w + 2000)
   * while d is unsaved; so no change is ever older than two seconds and still not on disk.
   */
  lemma BoundedStaleness(start: nat, ts: seq<Tick>)
    requires Happens(Opened(start), ts, true) && WritesSucceed(Opened(start), ts)
    ensures var s := After(Opened(start), ts, true);
      && s.saved <= |s.changes| && Fresh(s)
      && (s.saved < |s.changes| ==> s.now <= Max(s.changes[s.saved], s.lastWrite + MAX_WAIT))
      && (forall k | 0 <= k < |s.changes| && s.now > s.changes[k] + MAX_WAIT :: k < s.saved)
  {
    hide After;
    StaysOnTime(Opened(start), ts);
    assert OnTime(After(Opened(start), ts, true));
  }

  // ----- Writes that fail -----

  /** A run in which no further write is tried. */
  predicate NoWrite(ts: seq<Tick>) {
    forall i | 0 <= i < |ts| :: ts[i].Change? || ts[i].Pass?
  }

  /** Nothing arms a timer after a failed one: the next change may be as far away as the user likes. */
  lemma NotRetried(s: Clock)
    requires OnTime(s) && s.due == Some(s.now) && s.saved < |s.changes|
    ensures var late, wait := Ticked(s, Fire(false), true), [Pass(s.changes[s.saved] + MAX_WAIT + 1)];
      late.due == None && Happens(late, wait, true) && NoWrite(wait) && !Fresh(After(late, wait, true))
  {
    var late, pass := Ticked(s, Fire(false), true), Pass(s.changes[s.saved] + MAX_WAIT + 1);
    StepOn(late, [], pass, true);
    assert [] + [pass] == [pass];
    assert After(late, [], true) == late;
  }

  /** n changes, 400 ms apart, from now on. */
  function Flurry(now: nat, n: nat): seq<Tick> {
    if n == 0 then [Change] else Flurry(now, n - 1) + [Pass(now + n * DEBOUNCE), Change]
  }

  ghost predicate InFlurry(s: Clock, from: Clock, n: nat) {
    && s.now == from.now + n * DEBOUNCE && s.lastWrite == from.now && s.saved == from.saved
    && |s.changes| > |from.changes| && s.changes[..|from.changes|] == from.changes
    && s.due == Some(s.now + DEBOUNCE)
  }

  /** A failed write resets the wait, and the changes after it put the next one off for two seconds more. */
  lemma {:induction false} FlurryHappens(from: Clock, n: nat)
    requires from.lastWrite == from.now && n < 5
    ensures Happens(from, Flurry(from.now, n), true) && NoWrite(Flurry(from.now, n))
    ensures InFlurry(After(from, Flurry(from.now, n), true), from, n)
  {
    hide After;
    hide Happens;
    if n == 0 {
      Nothing(from);
      StepOn(from, [], Change, true);
      assert [] + [Change] == [Change];
    } else {
      FlurryHappens(from, n - 1);
      var before, pass := Flurry(from.now, n - 1), Pass(from.now + n * DEBOUNCE);
      StepOn(from, before, pass, true);
      StepOn(from, before + [pass], Change, true);
      assert before + [pass] + [Change] == Flurry(from.now, n);
    }
  }

  lemma Nothing(s: Clock)
    ensures After(s, [], true) == s && Happens(s, [], true)
  {
  }

  lemma PutOff(s: Clock)
    requires OnTime(s) && Loses(s, Close(false))
    ensures var late, wait := Ticked(s, Close(false), true), Flurry(s.now, 4) + [Pass(s.now + MAX_WAIT)];
      Happens(late, wait, true) && NoWrite(wait) && !Fresh(After(late, wait, true))
  {
    hide After;
    hide Happens;
    var late, end := Ticked(s, Close(false), true), Pass(s.now + MAX_WAIT);
    FlurryHappens(late, 4);
    StepOn(late, Flurry(s.now, 4), end, true);
    var at := After(late, Flurry(s.now, 4), true);
    assert at.changes[..|s.changes|][s.saved] == s.changes[s.saved];
  }

  /** With no write tried, none fails. */
  lemma {:induction false} NoneFails(s: Clock, ts: seq<Tick>)
    requires NoWrite(ts)
    ensures WritesSucceed(s, ts)
  {
    hide After;
    if ts != [] {
      assert forall i | 0 <= i < |ts| - 1 :: ts[..|ts| - 1][i] == ts[i];
      NoneFails(s, ts[..|ts| - 1]);
    }
  }

  /**
   * The bound survives a step exactly when the step is not such a failed write: after any other step it holds through
   * every run whose writes succeed, and after one of these some run of changes and waiting breaks it.
   */
  lemma BoundSurvivesIff(s: Clock, t: Tick)
    requires OnTime(s) && Possible(s, t)
    ensures var later := Ticked(s, t, true);
      !Loses(s, t) <==>
      forall ts: seq<Tick> | Happens(later, ts, true) && WritesSucceed(later, ts) :: Fresh(After(later, ts, true))
  {
    hide After;
    hide Happens;
    hide WritesSucceed;
    var later := Ticked(s, t, true);
    OnTimeStep(s, t);
    if !Loses(s, t) {
      forall ts: seq<Tick> | Happens(later, ts, true) && WritesSucceed(later, ts)
        ensures Fresh(After(later, ts, true))
      {
        StaysOnTime(later, ts);
        assert OnTime(After(later, ts, true));
      }
    } else {
      var wait := if t.Fire? then [Pass(s.changes[s.saved] + MAX_WAIT + 1)]
                  else Flurry(s.now, 4) + [Pass(s.now + MAX_WAIT)];
      if t.Fire? {
        NotRetried(s);
      } else {
        PutOff(s);
      }
      NoneFails(later, wait);
    }
  }

  // ----- Why the ceiling is there -----

  /** One change, then n more, each just inside the debounce. */
  function Typing(start: nat, n: nat): seq<Tick> {
    if n == 0 then [Change] else Typing(start, n - 1) + [Pass(start + n * (DEBOUNCE - 1)), Change]
  }

  /** What a run of such changes has come to. */
  ghost predicate StillTyping(s: Clock, start: nat, n: nat) {
    && s.saved == 0 && |s.changes| == n + 1 && s.changes[0] == start
    && s.now == start + n * (DEBOUNCE - 1) && s.due == Some(s.now + DEBOUNCE)
  }

  lemma OneMoreChange(s: Clock, start: nat, n: nat)
    requires StillTyping(s, start, n)
    ensures var pass := Pass(start + (n + 1) * (DEBOUNCE - 1));
      && Possible(s, pass) && Possible(Ticked(s, pass, false), Change)
      && StillTyping(Ticked(Ticked(s, pass, false), Change, false), start, n + 1)
  {
  }

  lemma FirstChange(start: nat)
    ensures Possible(Opened(start), Change) && StillTyping(Ticked(Opened(start), Change, false), start, 0)
    ensures After(Opened(start), [], false) == Opened(start) && Happens(Opened(start), [], false)
  {
  }

  /** A plain debounce lets the first of them wait as long as the typing goes on. */
  lemma {:induction false} PlainDebounceHasNoBound(start: nat, n: nat)
    ensures Happens(Opened(start), Typing(start, n), false)
    ensures StillTyping(After(Opened(start), Typing(start, n), false), start, n)
  {
    hide After;
    hide Happens;
    hide StillTyping;
    hide Ticked;
    hide Possible;
    if n == 0 {
      FirstChange(start);
      StepOn(Opened(start), [], Change, false);
      assert [] + [Change] == [Change];
    } else {
      PlainDebounceHasNoBound(start, n - 1);
      var before, pass := Typing(start, n - 1), Pass(start + n * (DEBOUNCE - 1));
      OneMoreChange(After(Opened(start), before, false), start, n - 1);
      StepOn(Opened(start), before, pass, false);
      StepOn(Opened(start), before + [pass], Change, false);
      assert before + [pass] + [Change] == Typing(start, n);
    }
  }

  // ----- The effect and its timer -----

  class Store {
    var lastWrite: nat
    var timer: Option<nat>
    /** What the page has changed so far, and how much of it the disk holds. */
    var made: seq<nat>
    var stored: nat

    constructor (ghost now: nat)
      ensures Abs(now) == Opened(now)
    {
      lastWrite, timer, made, stored := 0, None, [], 0;
    }

    ghost function Abs(now: nat): Clock
      reads this
    {
      Clock(now, lastWrite, timer, made, stored)
    }

    /** The effect on `convos`: clear the previous timer, arm the next. */
    method OnChange(now: nat)
      modifies this
      ensures Abs(now) == Ticked(old(Abs(now)), Change, true)
    {
      made := made + [now];
      timer := None;
      var waited := now - lastWrite;
      timer := Some(now + Max(0, Min(DEBOUNCE, MAX_WAIT - waited)));
    }

    /** flushStore, with whether the storage takes the write. */
    method Flush(now: nat, ok: bool)
      modifies `lastWrite, `stored
      ensures Abs(now) == Ticked(old(Abs(now)), Close(ok), true)
    {
      lastWrite := now;
      if ok {
        stored := |made|;
      }
    }

    method TimerFires(now: nat, ok: bool)
      requires timer == Some(now)
      modifies this
      ensures Abs(now) == Ticked(old(Abs(now)), Fire(ok), true)
    {
      timer := None;
      Flush(now, ok);
    }
  }

  // ----- Reading history back -----

  /** settleTail: the longest prefix that does not end in a reply never written, without text or error. */
  method SettleTail(msgs: seq<Msg>) returns (out: seq<Msg>)
    ensures out <= msgs
    ensures out != [] ==> var m := out[|out| - 1]; m.role == User || m.text != "" || m.error.Some?
    ensures forall i | |out| <= i < |msgs| ::
              msgs[i].role == Assistant && msgs[i].text == "" && msgs[i].error == None
  {
    out := msgs;
    while |out| > 0
      invariant out <= msgs
      invariant forall i | |out| <= i < |msgs| ::
                  msgs[i].role == Assistant && msgs[i].text == "" && msgs[i].error == None
    {
      var last := out[|out| - 1];
      if last.role != Assistant || last.text != "" || last.error.Some? {
        break;
      }
      out := out[..|out| - 1];
    }
  }
}
