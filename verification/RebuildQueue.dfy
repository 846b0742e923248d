/**
 * The serialized rebuilds of client/src/App.tsx: a chain of promises in which every link waits for the one before,
 * skips itself when it is no longer the newest, and is caught so that the chain survives it.
 */
module RebuildQueue {

  import opened Options

  /** Link k of the chain: the promise handed back to the caller. */
  datatype Job = Queued | Running | Skipped | Succeeded | Failed {
    predicate Settled() {
      Skipped? || Succeeded? || Failed?
    }
  }

  /** A job that started, and how many had been submitted then. */
  datatype Started = Started(job: nat, submitted: nat)

  /** `tails[k]`: the caught link k has been fulfilled, which is what link k + 1 waits for. */
  datatype Chain = Chain(jobs: seq<Job>, tails: seq<bool>, log: seq<Started>)

  const EMPTY: Chain := Chain([], [], [])

  datatype Step =
    | Submit
    | Wake(k: nat)               // the callback of link k runs
    | Settle(k: nat, ok: bool)   // its job ends
    | Pass(k: nat)               // its catch runs

  predicate Ready(c: Chain, k: nat) {
    k < |c.jobs| == |c.tails| && c.jobs[k].Queued? && (k == 0 || c.tails[k - 1])
  }

  /** A link that failed is passed on only because it is caught. */
  predicate Passes(c: Chain, k: nat, caught: bool) {
    k < |c.jobs| == |c.tails| && c.jobs[k].Settled() && !c.tails[k] && (caught || !c.jobs[k].Failed?)
  }

  predicate Enabled(c: Chain, s: Step, caught: bool) {
    match s
    case Submit => true
    case Wake(k) => Ready(c, k)
    case Settle(k, _) => k < |c.jobs| && c.jobs[k].Running?
    case Pass(k) => Passes(c, k, caught)
  }

  function Take(c: Chain, s: Step, caught: bool): Chain
    requires Enabled(c, s, caught)
  {
    match s
    case Submit => Chain(c.jobs + [Queued], c.tails + [false], c.log)
    case Wake(k) =>
      if k + 1 == |c.jobs| then c.(jobs := c.jobs[k := Running], log := c.log + [Started(k, |c.jobs|)])
      else c.(jobs := c.jobs[k := Skipped])
    case Settle(k, ok) => c.(jobs := c.jobs[k := if ok then Succeeded else Failed])
    case Pass(k) => c.(tails := c.tails[k := true])
  }

  /** The state after a run, None when some step of it was not enabled. */
  function Run(steps: seq<Step>, caught: bool): Option<Chain> {
    if steps == [] then Some(EMPTY) else
    var before, s := Run(steps[..|steps| - 1], caught), steps[|steps| - 1];
    if before.Some? && Enabled(before.value, s, caught) then Some(Take(before.value, s, caught)) else None
  }

  /** Any enabled step continues a run; a run does nothing else. */
  lemma RunContinues(steps: seq<Step>, s: Step, caught: bool)
    ensures Run(steps + [s], caught).Some? <==>
            Run(steps, caught).Some? && Enabled(Run(steps, caught).value, s, caught)
    ensures Run(steps + [s], caught).Some? ==>
            Run(steps + [s], caught).value == Take(Run(steps, caught).value, s, caught)
  {
    assert (steps + [s])[..|steps|] == steps;
  }

  // ----- What every run keeps -----

  ghost predicate Linked(c: Chain) {
    && |c.jobs| == |c.tails|
    && (forall k | 0 <= k < |c.jobs| && c.tails[k] :: c.jobs[k].Settled())
    && (forall j, k | 0 <= j < k < |c.jobs| && !c.jobs[k].Queued? :: c.tails[j])
  }

  /** A started job was the newest at that moment, and each starts after all that started before it. */
  ghost predicate Logged(c: Chain) {
    && (forall i | 0 <= i < |c.log| ::
          c.log[i].job + 1 == c.log[i].submitted <= |c.jobs| && !c.jobs[c.log[i].job].Queued?)
    && (forall i, j | 0 <= i < j < |c.log| :: c.log[i].job < c.log[j].job)
    && (forall k | 0 <= k < |c.jobs| && (c.jobs[k].Running? || c.jobs[k].Succeeded? || c.jobs[k].Failed?) ::
          InLog(c.log, k))
  }

  ghost predicate InLog(log: seq<Started>, k: nat) {
    exists i :: 0 <= i < |log| && log[i].job == k
  }

  /** The newest job is never skipped. */
  ghost predicate NewestKept(c: Chain) {
    |c.jobs| > 0 ==> !c.jobs[|c.jobs| - 1].Skipped?
  }

  lemma LinkedStep(c: Chain, s: Step, caught: bool)
    requires Linked(c) && Enabled(c, s, caught)
    ensures Linked(Take(c, s, caught))
  {
    var d := Take(c, s, caught);
    match s
    case Wake(k) =>
      forall j | 0 <= j < k ensures c.tails[j] {
        if j < k - 1 {
          assert !c.jobs[k - 1].Queued?;
        }
      }
    case _ =>
  }

  lemma LoggedStep(c: Chain, s: Step, caught: bool)
    requires Linked(c) && Logged(c) && NewestKept(c) && Enabled(c, s, caught)
    ensures Logged(Take(c, s, caught)) && NewestKept(Take(c, s, caught))
  {
    hide Linked;
    hide InLog;
    LinkedHas(c);
    KeepsLog(c, Take(c, s, caught));
    if s.Wake? {
      LoggedWake(c, s.k, caught);
    }
  }

  lemma LoggedWake(c: Chain, k: nat, caught: bool)
    requires Linked(c) && Logged(c) && NewestKept(c) && Enabled(c, Wake(k), caught)
    ensures Logged(Take(c, Wake(k), caught)) && NewestKept(Take(c, Wake(k), caught))
  {
    hide Linked;
    hide InLog;
    var d := Take(c, Wake(k), caught);
    forall i | 0 <= i < |c.log| ensures c.log[i].job < k {
      LinkedOrder(c, k, c.log[i].job);
    }
    KeepsLog(c, d);
    if k + 1 == |c.jobs| {
      LastInLog(c.log, Started(k, |c.jobs|));
    }
  }

  lemma LastInLog(log: seq<Started>, last: Started)
    ensures InLog(log + [last], last.job)
  {
    assert (log + [last])[|log|] == last;
  }

  lemma LinkedHas(c: Chain)
    requires Linked(c)
    ensures |c.jobs| == |c.tails|
  {
  }

  /** Nothing at or after a queued link has run. */
  lemma LinkedOrder(c: Chain, k: nat, j: nat)
    requires Linked(c) && k < |c.jobs| && j < |c.jobs| && c.jobs[k].Queued? && !c.jobs[j].Queued?
    ensures j < k
  {
  }

  /** Entries of a longer log that are the shorter log's. */
  lemma KeepsLog(c: Chain, d: Chain)
    requires c.log <= d.log
    ensures forall k: nat | InLog(c.log, k) :: InLog(d.log, k)
  {
    forall k: nat | InLog(c.log, k) ensures InLog(d.log, k) {
      var i :| 0 <= i < |c.log| && c.log[i].job == k;
      assert d.log[i].job == k;
    }
  }

  lemma {:induction false} AlwaysLinked(steps: seq<Step>, caught: bool)
    requires Run(steps, caught).Some?
    ensures var c := Run(steps, caught).value; Linked(c) && Logged(c) && NewestKept(c)
  {
    if steps != [] {
      var before := steps[..|steps| - 1];
      AlwaysLinked(before, caught);
      LinkedStep(Run(before, caught).value, steps[|steps| - 1], caught);
      LoggedStep(Run(before, caught).value, steps[|steps| - 1], caught);
    }
  }

  /**
   * In every run, jobs never overlap; the jobs that start do so in increasing order, and each was the newest
   * submitted when it started.
   */
  lemma NeverOverlap(steps: seq<Step>, caught: bool, j: nat, k: nat)
    requires Run(steps, caught).Some?
    requires var c := Run(steps, caught).value;
      j < |c.jobs| && k < |c.jobs| && c.jobs[j].Running? && c.jobs[k].Running?
    ensures j == k
  {
    hide Run;
    AlwaysLinked(steps, caught);
  }

  lemma StartsAreNewestAndOrdered(steps: seq<Step>, caught: bool)
    requires Run(steps, caught).Some?
    ensures var log := Run(steps, caught).value.log;
      && (forall i | 0 <= i < |log| :: log[i].job + 1 == log[i].submitted)
      && (forall i, j | 0 <= i < j < |log| :: log[i].job < log[j].job)
  {
    hide Run;
    AlwaysLinked(steps, caught);
  }

  // ----- Progress -----

  /** Nothing is left to do but to submit. */
  ghost predicate Quiet(c: Chain, caught: bool) {
    forall s: Step | Enabled(c, s, caught) :: s.Submit?
  }

  lemma {:induction false} QuietIsPassed(c: Chain, k: nat)
    requires Linked(c) && Quiet(c, true) && k < |c.jobs|
    ensures c.tails[k]
    decreases k
  {
    if k > 0 {
      QuietIsPassed(c, k - 1);
    }
    assert !Enabled(c, Wake(k), true);
    assert !Enabled(c, Settle(k, true), true);
    assert !Enabled(c, Pass(k), true);
  }

  /** When nothing is left to do, however many jobs failed, every link has settled and the last submitted job ran. */
  lemma LastSubmittedRuns(steps: seq<Step>)
    requires Run(steps, true).Some? && Quiet(Run(steps, true).value, true)
    ensures var c := Run(steps, true).value;
      && (forall k | 0 <= k < |c.jobs| :: c.jobs[k].Settled())
      && (|c.jobs| > 0 ==> (c.jobs[|c.jobs| - 1].Succeeded? || c.jobs[|c.jobs| - 1].Failed?)
                           && InLog(c.log, |c.jobs| - 1))
  {
    hide Run;
    AlwaysLinked(steps, true);
    var c := Run(steps, true).value;
    hide Quiet;
    forall k | 0 <= k < |c.jobs| ensures c.jobs[k].Settled() {
      QuietIsPassed(c, k);
    }
  }

  /** The steps still due: three for a queued link, two for a running one, one for a settled one not passed on. */
  function Due(jobs: seq<Job>, tails: seq<bool>): nat
    requires |jobs| == |tails|
  {
    if jobs == [] then 0 else
    var n := |jobs| - 1;
    Due(jobs[..n], tails[..n])
    + if jobs[n].Queued? then 3 else if jobs[n].Running? then 2 else if tails[n] then 0 else 1
  }

  lemma {:induction false} DueAfter(jobs: seq<Job>, tails: seq<bool>, k: nat, job: Job, tail: bool)
    requires k < |jobs| == |tails|
    requires jobs[k].Queued? ==> !job.Queued?
    requires jobs[k].Running? ==> job.Settled()
    requires jobs[k].Settled() ==> job == jobs[k] && !tails[k] && tail
    ensures Due(jobs[k := job], tails[k := tail]) < Due(jobs, tails)
    decreases |jobs|
  {
    var n := |jobs| - 1;
    if k < n {
      DueAfter(jobs[..n], tails[..n], k, job, tail);
      assert jobs[k := job][..n] == jobs[..n][k := job] && tails[k := tail][..n] == tails[..n][k := tail];
    } else {
      assert jobs[k := job][..n] == jobs[..n] && tails[k := tail][..n] == tails[..n];
    }
  }

  /** Between submissions the chain only moves forward, so once jobs end it comes to rest. */
  lemma StepsRunOut(c: Chain, s: Step, caught: bool)
    requires Linked(c) && Enabled(c, s, caught) && !s.Submit?
    ensures var d := Take(c, s, caught);
      |d.jobs| == |d.tails| && Due(d.jobs, d.tails) < Due(c.jobs, c.tails)
  {
    var d := Take(c, s, caught);
    var k := s.k;
    assert d.jobs == c.jobs[k := d.jobs[k]] && d.tails == c.tails[k := d.tails[k]];
    DueAfter(c.jobs, c.tails, k, d.jobs[k], d.tails[k]);
  }

  // ----- What the catch is for -----

  /** Link k failed and was not passed on, and nothing after it has run. */
  ghost predicate Stuck(c: Chain, k: nat) {
    k < |c.jobs| == |c.tails| && c.jobs[k].Failed? && !c.tails[k] && forall j | k < j < |c.jobs| :: c.jobs[j].Queued?
  }

  lemma StuckStep(c: Chain, s: Step, k: nat)
    requires Linked(c) && Stuck(c, k) && Enabled(c, s, false)
    ensures Stuck(Take(c, s, false), k)
  {
  }

  lemma {:induction false} FailedIsStuck(steps: seq<Step>, k: nat)
    requires Run(steps, false).Some? && k < |Run(steps, false).value.jobs| && Run(steps, false).value.jobs[k].Failed?
    ensures Stuck(Run(steps, false).value, k)
  {
    var n := |steps| - 1;
    AlwaysLinked(steps[..n], false);
    var c := Run(steps[..n], false).value;
    assert k < |c.jobs|;
    if c.jobs[k].Failed? {
      FailedIsStuck(steps[..n], k);
      StuckStep(c, steps[n], k);
    } else {
      JustFailed(c, steps[n], k);
    }
  }

  lemma JustFailed(c: Chain, s: Step, k: nat)
    requires Linked(c) && k < |c.jobs| && !c.jobs[k].Failed? && Enabled(c, s, false)
    requires var d := Take(c, s, false); k < |d.jobs| && d.jobs[k].Failed?
    ensures Stuck(Take(c, s, false), k)
  {
    assert c.jobs[k].Running? && !c.tails[k];
  }

  /** Without the catch, one failed job leaves every later one queued for ever, whatever happens next. */
  lemma {:induction false} UncaughtFailureWedges(steps: seq<Step>, later: seq<Step>, k: nat)
    requires Run(steps, false).Some? && Run(steps + later, false).Some?
    requires k < |Run(steps, false).value.jobs| && Run(steps, false).value.jobs[k].Failed?
    ensures Stuck(Run(steps + later, false).value, k)
    decreases |later|
  {
    hide Stuck;
    if later == [] {
      assert steps + later == steps;
      FailedIsStuck(steps, k);
    } else {
      var n := |later| - 1;
      assert (steps + later)[..|steps| + n] == steps + later[..n];
      UncaughtFailureWedges(steps, later[..n], k);
      AlwaysLinked(steps + later[..n], false);
      StuckStep(Run(steps + later[..n], false).value, later[n], k);
    }
  }

  // ----- The two refs -----

  /** switchSeq and switchChain: the number of the newest pick, and the links of the chain. */
  class Switches {
    var switchSeq: nat
    var jobs: seq<Job>
    var tails: seq<bool>
    ghost var log: seq<Started>

    ghost predicate Valid()
      reads this
    {
      switchSeq == |jobs| == |tails|
    }

    ghost function Abs(): Chain
      reads this
    {
      Chain(jobs, tails, log)
    }

    constructor ()
      ensures Valid() && Abs() == EMPTY
    {
      switchSeq, jobs, tails, log := 0, [], [], [];
    }

    /** queueRebuild. */
    method Queue() returns (seqNo: nat)
      requires Valid()
      modifies this
      ensures Valid() && Abs() == Take(old(Abs()), Submit, true) && seqNo == old(switchSeq) + 1
    {
      switchSeq := switchSeq + 1;
      seqNo := switchSeq;
      jobs := jobs + [Queued];
      tails := tails + [false];
    }

    /** The callback of the link with that number. */
    method Callback(seqNo: nat) returns (run: bool)
      requires Valid() && seqNo >= 1 && Enabled(Abs(), Wake(seqNo - 1), true)
      modifies this
      ensures Valid() && Abs() == Take(old(Abs()), Wake(seqNo - 1), true)
      ensures run <==> seqNo == switchSeq
      ensures jobs[seqNo - 1] == if run then Running else Skipped
    {
      if seqNo != switchSeq {
        jobs := jobs[seqNo - 1 := Skipped];
        return false;
      }
      log := log + [Started(seqNo - 1, |jobs|)];
      jobs := jobs[seqNo - 1 := Running];
      return true;
    }

    method JobEnds(seqNo: nat, ok: bool)
      requires Valid() && seqNo >= 1 && Enabled(Abs(), Settle(seqNo - 1, ok), true)
      modifies `jobs
      ensures Valid() && Abs() == Take(old(Abs()), Settle(seqNo - 1, ok), true)
      ensures jobs[seqNo - 1] == if ok then Succeeded else Failed
    {
      jobs := jobs[seqNo - 1 := if ok then Succeeded else Failed];
    }

    method Caught(seqNo: nat)
      requires Valid() && seqNo >= 1 && Enabled(Abs(), Pass(seqNo - 1), true)
      modifies `tails
      ensures Valid() && Abs() == Take(old(Abs()), Pass(seqNo - 1), true) && tails[seqNo - 1]
    {
      tails := tails[seqNo - 1 := true];
    }
  }
}
