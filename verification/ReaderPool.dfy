/** The concurrent file reader (`readRuntimeSourceFiles`): workers that share an
    index counter and an output list, interleaved at every await. */
module ReaderPool {
  import opened Outcomes

  datatype File = File(relativePath: string, source: string)

  /** Between two awaits a worker is about to claim an index, waits for a read, or has returned. */
  datatype Worker = Ready | Reading(index: nat) | Stopped

  /** The paths to read, how each shows relative to the repository, and what
      reading the file at an index yields: `None` when it cannot be read. */
  datatype Job = Job(paths: seq<string>, relative: string -> string, read: nat -> Option<string>)

  /** The shared variables, the workers, and the reads started so far. */
  datatype Pool = Pool(nextIndex: nat, output: seq<Option<File>>, workers: seq<Worker>, started: seq<nat>)

  const FILE_READ_CONCURRENCY := 24

  function WorkerCount(job: Job): nat {
    var wanted := if |job.paths| < 1 then 1 else |job.paths|;
    if wanted < FILE_READ_CONCURRENCY then wanted else FILE_READ_CONCURRENCY
  }

  function StartPool(job: Job): Pool {
    Pool(0, seq(|job.paths|, _ => None), seq(WorkerCount(job), _ => Ready), [])
  }

  predicate IsEnabled(p: Pool, w: nat) {
    w < |p.workers| && !p.workers[w].Stopped?
  }

  predicate IsFinished(p: Pool) {
    forall w | 0 <= w < |p.workers| :: p.workers[w].Stopped?
  }

  function FileAt(job: Job, i: nat): Option<File>
    requires i < |job.paths|
  {
    if job.paths[i] == "" || job.read(i).None? then None
    else Some(File(job.relative(job.paths[i]), job.read(i).value))
  }

  /** One uninterrupted stretch of worker `w`: claiming the next index, or
      finishing a read. */
  function Step(job: Job, p: Pool, w: nat): Pool
    requires IsEnabled(p, w) && |p.output| == |job.paths|
  {
    match p.workers[w]
    case Ready =>
      var index := p.nextIndex;
      var claimed := p.(nextIndex := p.nextIndex + 1);
      if index >= |job.paths| then claimed.(workers := p.workers[w := Stopped])
      else if job.paths[index] == "" then claimed
      else claimed.(workers := p.workers[w := Reading(index)], started := p.started + [index])
    case Reading(index) =>
      var woken := p.(workers := p.workers[w := Ready]);
      if index < |job.paths| && job.read(index).Some?
      then woken.(output := p.output[index := Some(File(job.relative(job.paths[index]), job.read(index).value))])
      else woken
    case Stopped => p
  }

  // ---- what every step keeps -----------------------------------------------------------

  ghost predicate IsBeingRead(p: Pool, i: nat) {
    exists w :: 0 <= w < |p.workers| && p.workers[w] == Reading(i)
  }

  ghost predicate WorkersOk(job: Job, p: Pool) {
    && (forall w | 0 <= w < |p.workers| && p.workers[w].Reading? ::
          p.workers[w].index < |job.paths| && p.workers[w].index < p.nextIndex && job.paths[p.workers[w].index] != "")
    && (forall v, w | 0 <= v < w < |p.workers| && p.workers[v].Reading? && p.workers[w].Reading? ::
          p.workers[v].index != p.workers[w].index)
    && (forall w | 0 <= w < |p.workers| && p.workers[w].Stopped? :: p.nextIndex >= |job.paths|)
  }

  ghost predicate OutputOk(job: Job, p: Pool) {
    && |p.output| == |job.paths|
    && forall i | 0 <= i < |job.paths| ::
         p.output[i] == if i < p.nextIndex && !IsBeingRead(p, i) then FileAt(job, i) else None
  }

  /** The reads started are those of the claimed indices with a path, once each. */
  ghost predicate StartedOk(job: Job, p: Pool) {
    && (forall k | 0 <= k < |p.started| :: p.started[k] < |job.paths| && p.started[k] < p.nextIndex)
    && (forall j, k | 0 <= j < k < |p.started| :: p.started[j] < p.started[k])
    && (forall i | 0 <= i < |job.paths| && i < p.nextIndex :: i in p.started <==> job.paths[i] != "")
  }

  ghost predicate Inv(job: Job, p: Pool) {
    WorkersOk(job, p) && OutputOk(job, p) && StartedOk(job, p) && |p.workers| == WorkerCount(job)
  }

  lemma StartInv(job: Job)
    ensures Inv(job, StartPool(job))
  {
  }

  lemma ClaimKeepsInv(job: Job, p: Pool, w: nat)
    requires Inv(job, p) && IsEnabled(p, w) && p.workers[w].Ready?
    ensures Inv(job, Step(job, p, w))
  {
    var t := Step(job, p, w);
    forall i | 0 <= i < |job.paths|
      ensures t.output[i] == if i < t.nextIndex && !IsBeingRead(t, i) then FileAt(job, i) else None
    {
      if i == p.nextIndex {
        if job.paths[i] != "" { assert t.workers[w] == Reading(i); }
        else { assert !IsBeingRead(t, i); }
      } else {
        SameReaders(p, t, w, i);
      }
    }
  }

  lemma SameReaders(p: Pool, t: Pool, w: nat, i: nat)
    requires w < |p.workers| && |t.workers| == |p.workers|
    requires forall v | 0 <= v < |p.workers| && v != w :: t.workers[v] == p.workers[v]
    requires p.workers[w] != Reading(i) && t.workers[w] != Reading(i)
    ensures IsBeingRead(t, i) <==> IsBeingRead(p, i)
  {
    if IsBeingRead(p, i) {
      var v :| 0 <= v < |p.workers| && p.workers[v] == Reading(i);
      assert t.workers[v] == Reading(i);
    }
    if IsBeingRead(t, i) {
      var v :| 0 <= v < |t.workers| && t.workers[v] == Reading(i);
      assert p.workers[v] == Reading(i);
    }
  }

  lemma FinishKeepsInv(job: Job, p: Pool, w: nat)
    requires Inv(job, p) && IsEnabled(p, w) && p.workers[w].Reading?
    ensures Inv(job, Step(job, p, w))
  {
    var t := Step(job, p, w);
    var index := p.workers[w].index;
    forall i | 0 <= i < |job.paths|
      ensures t.output[i] == if i < t.nextIndex && !IsBeingRead(t, i) then FileAt(job, i) else None
    {
      if i == index {
        assert IsBeingRead(p, i);
        forall v | 0 <= v < |t.workers| ensures t.workers[v] != Reading(i) {
          assert v < w ==> t.workers[v] == p.workers[v];
          assert w < v ==> t.workers[v] == p.workers[v];
        }
      } else {
        SameReaders(p, t, w, i);
      }
    }
  }

  lemma StepKeepsInv(job: Job, p: Pool, w: nat)
    requires Inv(job, p) && IsEnabled(p, w)
    ensures Inv(job, Step(job, p, w))
  {
    if p.workers[w].Ready? { ClaimKeepsInv(job, p, w); } else { FinishKeepsInv(job, p, w); }
  }

  // ---- termination ---------------------------------------------------------------------

  function Effort(w: Worker): nat {
    match w
    case Ready => 1
    case Reading(_) => 2
    case Stopped => 0
  }

  function TotalEffort(workers: seq<Worker>): nat {
    if workers == [] then 0 else Effort(workers[0]) + TotalEffort(workers[1..])
  }

  /** How many more steps the pool can take at most. */
  function StepsLeft(job: Job, p: Pool): nat {
    (if p.nextIndex < |job.paths| then 3 * (|job.paths| - p.nextIndex) else 0) + TotalEffort(p.workers)
  }

  lemma {:induction false} EffortUpdate(workers: seq<Worker>, w: nat, next: Worker)
    requires w < |workers|
    ensures TotalEffort(workers[w := next]) == TotalEffort(workers) - Effort(workers[w]) + Effort(next)
  {
    if w == 0 {
      assert workers[w := next][1..] == workers[1..];
    } else {
      assert workers[w := next][1..] == workers[1..][w - 1 := next];
      EffortUpdate(workers[1..], w - 1, next);
    }
  }

  lemma StepMakesProgress(job: Job, p: Pool, w: nat)
    requires IsEnabled(p, w) && |p.output| == |job.paths|
    ensures StepsLeft(job, Step(job, p, w)) < StepsLeft(job, p)
  {
    var t := Step(job, p, w);
    EffortUpdate(p.workers, w, t.workers[w]);
    assert t.workers == p.workers[w := t.workers[w]];
  }

  // ---- the result ----------------------------------------------------------------------

  /** Reading the files one after the other, in order, and keeping those that could be read. */
  function ReadInOrder(job: Job, n: nat): seq<File>
    requires n <= |job.paths|
  {
    if n == 0 then []
    else ReadInOrder(job, n - 1) + match FileAt(job, n - 1) case None => [] case Some(file) => [file]
  }

  predicate IsReadable(job: Job, i: nat) {
    i < |job.paths| && job.paths[i] != "" && job.read(i).Some?
  }

  /** How many of the first `n` paths can be read. */
  function ReadableBefore(job: Job, n: nat): nat {
    if n == 0 then 0 else ReadableBefore(job, n - 1) + if IsReadable(job, n - 1) then 1 else 0
  }

  /** A file stands where the number of readable ones before it says, under its path relative
      to the repository and with what was read; and there are no others. */
  lemma {:induction false} FileStandsAt(job: Job, n: nat, i: nat)
    requires n <= |job.paths|
    ensures |ReadInOrder(job, n)| == ReadableBefore(job, n)
    ensures i < n && IsReadable(job, i) ==>
              && ReadableBefore(job, i) < ReadableBefore(job, n)
              && ReadInOrder(job, n)[ReadableBefore(job, i)] == File(job.relative(job.paths[i]), job.read(i).value)
  {
    if n > 0 {
      FileStandsAt(job, n - 1, i);
      assert IsReadable(job, n - 1) <==> FileAt(job, n - 1).Some?;
    }
  }

  function Present(output: seq<Option<File>>): seq<File> {
    if output == [] then []
    else Present(output[..|output| - 1]) + match output[|output| - 1] case None => [] case Some(file) => [file]
  }

  lemma {:induction false} PresentIsInOrder(job: Job, output: seq<Option<File>>)
    requires |output| <= |job.paths| && forall i | 0 <= i < |output| :: output[i] == FileAt(job, i)
    ensures Present(output) == ReadInOrder(job, |output|)
  {
    if output != [] { PresentIsInOrder(job, output[..|output| - 1]); }
  }

  lemma FinishedIsInOrder(job: Job, p: Pool)
    requires Inv(job, p) && IsFinished(p)
    ensures Present(p.output) == ReadInOrder(job, |job.paths|)
    ensures forall i | 0 <= i < |job.paths| :: i in p.started <==> job.paths[i] != ""
  {
    assert p.workers[0].Stopped?;
    forall i | 0 <= i < |job.paths| ensures p.output[i] == FileAt(job, i) {
      assert !IsBeingRead(p, i);
    }
    PresentIsInOrder(job, p.output);
  }

  // ---- all interleavings ---------------------------------------------------------------

  /** The pool after the workers took their steps in the order of `schedule`. */
  ghost function RunSchedule(job: Job, schedule: seq<nat>): (r: Option<Pool>)
    ensures r.Some? ==> Inv(job, r.value)
  {
    if schedule == [] then StartInv(job); Some(StartPool(job))
    else
      var before := RunSchedule(job, schedule[..|schedule| - 1]);
      var w := schedule[|schedule| - 1];
      if before.None? || !IsEnabled(before.value, w) then None
      else StepKeepsInv(job, before.value, w); Some(Step(job, before.value, w))
  }

  lemma {:induction false} StartEffort(n: nat)
    ensures TotalEffort(seq(n, _ => Ready)) == n
  {
    if n > 0 {
      assert seq(n, _ => Ready)[1..] == seq(n - 1, _ => Ready);
      StartEffort(n - 1);
    }
  }

  lemma {:induction false} SchedulesAreShort(job: Job, schedule: seq<nat>)
    requires RunSchedule(job, schedule).Some?
    ensures |schedule| + StepsLeft(job, RunSchedule(job, schedule).value) <= 3 * |job.paths| + WorkerCount(job)
  {
    if schedule == [] {
      StartEffort(WorkerCount(job));
    } else {
      var before := schedule[..|schedule| - 1];
      SchedulesAreShort(job, before);
      StepMakesProgress(job, RunSchedule(job, before).value, schedule[|schedule| - 1]);
    }
  }

  /** Under every interleaving: no index is read twice, the pool takes at most
      three steps a path and one a worker, and once no worker can step the output
      is what reading in order gives, whatever the interleaving was. */
  lemma EveryScheduleReadsInOrder(job: Job, schedule: seq<nat>)
    requires RunSchedule(job, schedule).Some?
    ensures var p := RunSchedule(job, schedule).value;
            && (forall j, k | 0 <= j < k < |p.started| :: p.started[j] != p.started[k])
            && |schedule| <= 3 * |job.paths| + WorkerCount(job)
            && ((forall w :: !IsEnabled(p, w)) ==>
                  Present(p.output) == ReadInOrder(job, |job.paths|) &&
                  forall i | 0 <= i < |job.paths| :: i in p.started <==> job.paths[i] != "")
  {
    var p := RunSchedule(job, schedule).value;
    SchedulesAreShort(job, schedule);
    if forall w :: !IsEnabled(p, w) {
      forall w | 0 <= w < |p.workers| ensures p.workers[w].Stopped? { assert !IsEnabled(p, w); }
      FinishedIsInOrder(job, p);
    }
  }

  // ---- the pool as it runs -------------------------------------------------------------

  /** The shared counter and output array, and where each worker stands. */
  class WorkerPool {
    const job: Job
    var nextIndex: nat
    const output: array<Option<File>>
    var workers: seq<Worker>
    ghost var started: seq<nat>

    ghost function View(): Pool
      reads this, output
    {
      Pool(nextIndex, output[..], workers, started)
    }

    constructor (job: Job)
      ensures this.job == job && fresh(output) && output.Length == |job.paths|
      ensures View() == StartPool(job)
      ensures |workers| == if |job.paths| == 0 then 1 else if |job.paths| < 24 then |job.paths| else 24
    {
      this.job := job;
      nextIndex, workers, started := 0, seq(WorkerCount(job), _ => Ready), [];
      output := new Option<File>[|job.paths|](_ => None);
      new;
      assert output[..] == seq(|job.paths|, _ => None);
    }

    method Resume(w: nat)
      requires output.Length == |job.paths| && IsEnabled(View(), w)
      modifies this, output
      ensures View() == Step(job, old(View()), w)
    {
      match workers[w]
      case Reading(index) =>
        workers := workers[w := Ready];
        if index < output.Length && job.read(index).Some? {
          output[index] := Some(File(job.relative(job.paths[index]), job.read(index).value));
        }
      case Ready =>
        var index := nextIndex;
        nextIndex := nextIndex + 1;
        if index >= |job.paths| {
          workers := workers[w := Stopped];
        } else if job.paths[index] != "" {
          workers := workers[w := Reading(index)];
          started := started + [index];
        }
    }
  }

  /** Resumes workers in any order until all have returned. */
  method ReadRuntimeSourceFiles(job: Job) returns (files: seq<File>)
    ensures files == ReadInOrder(job, |job.paths|)
  {
    var pool := new WorkerPool(job);
    StartInv(job);
    while exists w | 0 <= w < |pool.workers| :: !pool.workers[w].Stopped?
      invariant fresh(pool) && fresh(pool.output) && pool.job == job && Inv(job, pool.View())
      decreases StepsLeft(job, pool.View())
    {
      var w :| 0 <= w < |pool.workers| && !pool.workers[w].Stopped?;
      StepKeepsInv(job, pool.View(), w);
      StepMakesProgress(job, pool.View(), w);
      pool.Resume(w);
    }
    FinishedIsInOrder(job, pool.View());
    files := Present(pool.output[..]);
  }
}
