/**
 * The download table of client/src/App.tsx: callers asking for the same file share one task, and when the entry of
 * a finished task goes away. It does in every case but one: a default directory that cannot be found.
 */
module Downloads {

  import opened Options

  type File = string

  /** Where one task is suspended, or how its promise ended. */
  datatype Task = FindingDir | Fetching | Fetched(complete: bool) | Refused {
    predicate Over() {
      Fetched? || Refused?
    }
  }

  /** fetchTasks and activeFetches, with every task ever started, oldest first. */
  datatype Table = Table(fetchTasks: map<File, nat>, activeFetches: set<File>, tasks: seq<Task>, files: seq<File>)

  const EMPTY: Table := Table(map[], {}, [], [])

  datatype Step =
    | Start(file: File, modelDir: bool)         // startDownload, with settings.modelDir set or not
    | DirFound(task: nat)
    | DirFails(task: nat)                       // defaultModelDir rejects
    | FetchEnds(task: nat, complete: bool)      // done, or cancelled or failed: both are caught

  predicate Enabled(t: Table, s: Step) {
    match s
    case Start(_, _) => true
    case DirFound(k) => k < |t.tasks| && t.tasks[k].FindingDir?
    case DirFails(k) => k < |t.tasks| && t.tasks[k].FindingDir?
    case FetchEnds(k, _) => k < |t.tasks| == |t.files| && t.tasks[k].Fetching?
  }

  function Take(t: Table, s: Step): Table
    requires Enabled(t, s)
  {
    match s
    case Start(file, modelDir) =>
      if file == "" || file in t.fetchTasks then t else
      Table(t.fetchTasks[file := |t.tasks|], t.activeFetches + {file},
            t.tasks + [if modelDir then Fetching else FindingDir], t.files + [file])
    case DirFound(k) => t.(tasks := t.tasks[k := Fetching])
    case DirFails(k) => t.(tasks := t.tasks[k := Refused])
    case FetchEnds(k, complete) =>
      Table(t.fetchTasks - {t.files[k]}, t.activeFetches - {t.files[k]}, t.tasks[k := Fetched(complete)], t.files)
  }

  /** The state after a run, None when some step of it was not enabled. */
  function Run(steps: seq<Step>): Option<Table> {
    if steps == [] then Some(EMPTY) else
    var before, s := Run(steps[..|steps| - 1]), steps[|steps| - 1];
    if before.Some? && Enabled(before.value, s) then Some(Take(before.value, s)) else None
  }

  /** Any enabled step continues a run; a run does nothing else. */
  lemma RunContinues(steps: seq<Step>, s: Step)
    ensures Run(steps + [s]).Some? <==> Run(steps).Some? && Enabled(Run(steps).value, s)
    ensures Run(steps + [s]).Some? ==> Run(steps + [s]).value == Take(Run(steps).value, s)
  {
    assert (steps + [s])[..|steps|] == steps;
  }

  /** A task has an entry exactly until its fetch ends; the tables name the same files; no file has two entries. */
  ghost predicate Kept(t: Table) {
    && |t.tasks| == |t.files| && t.activeFetches == t.fetchTasks.Keys && "" !in t.fetchTasks
    && (forall f | f in t.fetchTasks :: t.fetchTasks[f] < |t.files| && t.files[t.fetchTasks[f]] == f)
    && (forall k | 0 <= k < |t.tasks| ::
          !t.tasks[k].Fetched? <==> t.files[k] in t.fetchTasks && t.fetchTasks[t.files[k]] == k)
  }

  lemma KeptStep(t: Table, s: Step)
    requires Kept(t) && Enabled(t, s)
    ensures Kept(Take(t, s))
  {
  }

  lemma {:induction false} AlwaysKept(steps: seq<Step>)
    requires Run(steps).Some?
    ensures Kept(Run(steps).value)
  {
    if steps != [] {
      AlwaysKept(steps[..|steps| - 1]);
      KeptStep(Run(steps[..|steps| - 1]).value, steps[|steps| - 1]);
    }
  }

  /** In every run a file never has two tasks under way. */
  lemma OneTaskPerFile(steps: seq<Step>, j: nat, k: nat)
    requires Run(steps).Some?
    requires var t := Run(steps).value;
      j < |t.tasks| && k < |t.tasks| == |t.files| && t.files[j] == t.files[k]
      && !t.tasks[j].Over() && !t.tasks[k].Over()
    ensures j == k
  {
    hide Run;
    AlwaysKept(steps);
  }

  /** Some task of that file ended because the directory could not be found. */
  ghost predicate WasRefused(t: Table, f: File) {
    exists k :: 0 <= k < |t.tasks| == |t.files| && t.tasks[k].Refused? && t.files[k] == f
  }

  /** A file's entry outlives its task in exactly those runs where looking for its default directory failed. */
  lemma StaleExactlyWhenRefused(steps: seq<Step>, f: File)
    requires Run(steps).Some?
    ensures var t := Run(steps).value;
      (f in t.fetchTasks && t.fetchTasks[f] < |t.tasks| && t.tasks[t.fetchTasks[f]].Over()) <==> WasRefused(t, f)
  {
    hide Run;
    AlwaysKept(steps);
    var t := Run(steps).value;
    if f in t.fetchTasks {
      assert t.files[t.fetchTasks[f]] == f;
    }
  }

  /** When every task is over, the tables are empty exactly when none was refused. */
  lemma TablesEmptyOut(steps: seq<Step>)
    requires Run(steps).Some?
    requires forall k | 0 <= k < |Run(steps).value.tasks| :: Run(steps).value.tasks[k].Over()
    ensures var t := Run(steps).value;
      (t.fetchTasks == map[] && t.activeFetches == {}) <==> forall k | 0 <= k < |t.tasks| :: t.tasks[k].Fetched?
  {
    hide Run;
    AlwaysKept(steps);
    var t := Run(steps).value;
    if forall k | 0 <= k < |t.tasks| :: t.tasks[k].Fetched? {
      assert t.fetchTasks.Keys == {};
    }
  }

  /** The file's entry is a refused task, and no other task of it is under way. */
  ghost predicate Dead(t: Table, f: File) {
    && f in t.fetchTasks && t.fetchTasks[f] < |t.tasks| == |t.files| && t.tasks[t.fetchTasks[f]].Refused?
    && forall k | 0 <= k < |t.tasks| && t.files[k] == f && k != t.fetchTasks[f] :: t.tasks[k].Fetched?
  }

  lemma RefusedIsDead(t: Table, f: File)
    requires Kept(t) && WasRefused(t, f)
    ensures Dead(t, f)
  {
  }

  lemma DeadStep(t: Table, s: Step, f: File)
    requires Kept(t) && Enabled(t, s) && Dead(t, f)
    ensures Dead(Take(t, s), f) && Take(t, s).fetchTasks[f] == t.fetchTasks[f]
  {
  }

  /** From then on every request for the file is answered with the refused task, and no fetch of it ever starts. */
  lemma {:induction false} RefusedForGood(steps: seq<Step>, later: seq<Step>, f: File)
    requires Run(steps).Some? && Run(steps + later).Some? && WasRefused(Run(steps).value, f)
    ensures var t, u := Run(steps).value, Run(steps + later).value;
      Dead(t, f) && Dead(u, f) && u.fetchTasks[f] == t.fetchTasks[f]
    decreases |later|
  {
    hide Kept;
    hide WasRefused;
    hide Take;
    hide Enabled;
    AlwaysKept(steps);
    RefusedIsDead(Run(steps).value, f);
    if later == [] {
      assert steps + later == steps;
    } else {
      var n := |later| - 1;
      assert (steps + later)[..|steps| + n] == steps + later[..n];
      RefusedForGood(steps, later[..n], f);
      AlwaysKept(steps + later[..n]);
      DeadStep(Run(steps + later[..n]).value, later[n], f);
    }
  }

  // ----- The two refs -----

  class Fetches {
    var fetchTasks: map<File, nat>
    var activeFetches: set<File>
    var tasks: seq<Task>
    ghost var files: seq<File>

    ghost function Abs(): Table
      reads this
    {
      Table(fetchTasks, activeFetches, tasks, files)
    }

    constructor ()
      ensures Abs() == EMPTY
    {
      fetchTasks, activeFetches, tasks, files := map[], {}, [], [];
    }

    /** startDownload; None is the promise of `false` that an empty name is answered with. */
    method StartDownload(file: File, modelDir: bool) returns (task: Option<nat>)
      modifies this
      ensures Abs() == Take(old(Abs()), Start(file, modelDir))
      ensures file == "" ==> task == None && Abs() == old(Abs())
      ensures file in old(fetchTasks) && file != "" ==> task == Some(old(fetchTasks[file])) && Abs() == old(Abs())
      ensures file !in old(fetchTasks) && file != "" ==>
        && task == Some(|old(tasks)|) && tasks == old(tasks) + [if modelDir then Fetching else FindingDir]
        && fetchTasks == old(fetchTasks)[file := |old(tasks)|] && activeFetches == old(activeFetches) + {file}
    {
      if file == "" {
        return None;
      }
      if file in fetchTasks {
        return Some(fetchTasks[file]);
      }
      activeFetches := activeFetches + {file};
      tasks := tasks + [if modelDir then Fetching else FindingDir];
      files := files + [file];
      fetchTasks := fetchTasks[file := |tasks| - 1];
      return Some(|tasks| - 1);
    }

    /** The await of the default directory, outside the try block. */
    method AfterDir(task: nat, found: bool)
      requires task < |tasks| && tasks[task].FindingDir?
      modifies `tasks
      ensures Abs() == Take(old(Abs()), if found then DirFound(task) else DirFails(task))
      ensures tasks == old(tasks)[task := if found then Fetching else Refused]
    {
      tasks := tasks[task := if found then Fetching else Refused];
    }

    /** The end of the try block, with its catch and finally. */
    method AfterFetch(task: nat, file: File, complete: bool)
      requires task < |tasks| == |files| && tasks[task].Fetching? && files[task] == file
      modifies this
      ensures Abs() == Take(old(Abs()), FetchEnds(task, complete))
      ensures tasks == old(tasks)[task := Fetched(complete)]
      ensures fetchTasks == old(fetchTasks) - {file} && activeFetches == old(activeFetches) - {file}
    {
      tasks := tasks[task := Fetched(complete)];
      activeFetches := activeFetches - {file};
      fetchTasks := fetchTasks - {file};
    }
  }
}
