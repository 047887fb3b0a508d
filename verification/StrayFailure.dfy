/**
 Concrete runs with one job and one worker, in which an unguarded statement meets
 a job that is no longer assigned, or tears a post: a move that does not lower the
 job's measure, a second ingestion of one job, an attempt that was never claimed,
 and a complete job on a failed run.
 */
module StrayFailure {
  import opened Wrappers
  import opened Tables
  import opened Protocol
  import opened Accounting
  import opened Agreement
  import opened Termination

  const WORKER: Name := "w"
  const KEY: KeyId := 7
  const READY := Runner(Some(KEY), {}, false)

  /** The state of a run with job 1 on run 1. */
  function At(job: Job, run: Run, c: Counts, reaper: Reaper, post: Option<Post>): Sys {
    Sys(Tables(map[1 := job], map[1 := run], map[WORKER := READY]), map[1 := c], reaper, post)
  }

  const QUEUED := NewJob(1, None, None, 0)
  const CLAIMED := Assign(QUEUED, WORKER, 1)
  const SCANNED := Reaping([Stuck(1, 0)], 0)
  const POST := Post(1, None, Checked)

  // ---- single steps, from any state of this shape ------------------------------

  lemma ClaimIt(m: int, job: Job, run: Run, c: Counts, reaper: Reaper, now: int)
    requires job.state == Queued
    ensures
      var s, a := At(job, run, c, reaper, None), Claim(WORKER, [1], now);
      Possible(s, a)
      && Apply(m, s, a) == At(Assign(job, WORKER, now), run, c.(claims := c.claims + 1), reaper, None)
  {
    var s, a := At(job, run, c, reaper, None), Claim(WORKER, [1], now);
    var s', e := Apply(m, s, a), At(Assign(job, WORKER, now), run, c.(claims := c.claims + 1), reaper, None);
    assert s'.t.jobs == e.t.jobs && s'.log == e.log;
  }

  lemma CheckIt(m: int, job: Job, run: Run, c: Counts, reaper: Reaper)
    requires job.state == Assigned && job.assignedTo == Some(WORKER) && job.run == 1
    ensures
      var s, a := At(job, run, c, reaper, None), PostCheck(1, KEY, None);
      Possible(s, a) && Apply(m, s, a) == At(job, run, c, reaper, Some(POST))
  {
  }

  lemma MarkIt(m: int, job: Job, run: Run, c: Counts, reaper: Reaper)
    requires job.run == 1
    ensures
      var s := At(job, run, c, reaper, Some(POST));
      Possible(s, PostMark)
      && Apply(m, s, PostMark) == At(job, run.(status := RunRunning), c, reaper, Some(POST.(stage := RunMarked)))
  {
    var s := At(job, run, c, reaper, Some(POST));
    assert MarkRunning(s.t, 1) == map[1 := run.(status := RunRunning)];
  }

  lemma EndIt(m: int, job: Job, run: Run, c: Counts, reaper: Reaper, now: int)
    requires job.run == 1
    ensures
      var s := At(job, run, c, reaper, Some(POST.(stage := RunMarked)));
      Possible(s, PostEndRun(now))
      && Apply(m, s, PostEndRun(now)) == At(job, Run(RunComplete, Some(now)), c, reaper, Some(POST.(stage := RunEnded)))
  {
    var s := At(job, run, c, reaper, Some(POST.(stage := RunMarked)));
    assert SetRun(s.t.runs, 1, RunComplete, Some(now)) == map[1 := Run(RunComplete, Some(now))];
  }

  lemma FinishIt(m: int, job: Job, run: Run, c: Counts, reaper: Reaper, now: int)
    ensures
      var s := At(job, run, c, reaper, Some(POST.(stage := RunEnded)));
      Possible(s, PostFinish(now))
      && Apply(m, s, PostFinish(now))
         == At(job.(state := Complete, completedAt := Some(now), error := None), run,
               c.(ingests := c.ingests + 1), reaper, None)
  {
    var s := At(job, run, c, reaper, Some(POST.(stage := RunEnded)));
    var s' := Apply(m, s, PostFinish(now));
    var e := At(job.(state := Complete, completedAt := Some(now), error := None), run,
                c.(ingests := c.ingests + 1), reaper, None);
    assert s'.t.jobs == e.t.jobs && s'.log == e.log;
  }

  lemma FailIt(job: Job, run: Run, c: Counts, post: Option<Post>, now: int)
    requires job.run == 1
    ensures
      var s := At(job, run, c, SCANNED, post);
      Possible(s, ReaperDecide(now))
      && Apply(0, s, ReaperDecide(now))
         == At(job.(state := Failed, completedAt := Some(now), error := Some("stuck")),
               Run(RunError, Some(now)), c.(fails := c.fails + 1), Reaping([], 0), post)
  {
    var s := At(job, run, c, SCANNED, post);
    var s' := Apply(0, s, ReaperDecide(now));
    var e := At(job.(state := Failed, completedAt := Some(now), error := Some("stuck")),
                Run(RunError, Some(now)), c.(fails := c.fails + 1), Reaping([], 0), post);
    assert SCANNED.todo[1..] == [];
    assert s'.t.jobs == e.t.jobs && s'.t.runs == e.t.runs && s'.log == e.log;
  }

  lemma RequeueIt(job: Job, run: Run, c: Counts, post: Option<Post>, now: int)
    requires job.state == Assigned
    ensures
      var s := At(job, run, c, SCANNED, post);
      Possible(s, ReaperDecide(now))
      && Apply(1, s, ReaperDecide(now))
         == At(Release(job).(retries := job.retries + 1), run, c, Reaping([], 1), post)
  {
    var s := At(job, run, c, SCANNED, post);
    assert Requeue(s.t, 1).jobs == map[1 := Release(job).(retries := job.retries + 1)];
    assert SCANNED.todo[1..] == [];
  }

  lemma OperatorRequeuesIt(m: int, job: Job, run: Run, c: Counts, reaper: Reaper, now: int)
    requires job.state == Failed && job.run == 1
    ensures
      var s := At(job, run, c, reaper, None);
      Possible(s, AdminRequeue(1, now))
      && Apply(m, s, AdminRequeue(1, now))
         == At(Release(job).(completedAt := None, error := None, queuedAt := now), Run(RunQueued, None),
               c.(manual := c.manual + 1), reaper, None)
  {
    var s := At(job, run, c, reaper, None);
    var s' := Apply(m, s, AdminRequeue(1, now));
    var e := At(Release(job).(completedAt := None, error := None, queuedAt := now), Run(RunQueued, None),
                c.(manual := c.manual + 1), reaper, None);
    assert s'.t.jobs == e.t.jobs && s'.t.runs == e.t.runs && s'.log == e.log;
  }

  // ---- the stories -----------------------------------------------------------------

  /** A worker registers and a job is dispatched. */
  lemma Dispatched(m: int) returns (run: seq<Action>)
    ensures Legal(m, INIT, run)
    ensures Exec(m, INIT, run) == At(QUEUED, Run(RunQueued, None), NO_COUNTS, Idle, None)
  {
    Append(m, INIT, [], PutRunner(WORKER, READY));
    run := [] + [PutRunner(WORKER, READY)];
    Append(m, INIT, run, Dispatch(1, 1, None, None, 0));
    run := run + [Dispatch(1, 1, None, None, 0)];
  }

  lemma ScanIt(m: int, run: Run, c: Counts)
    ensures
      var s, a := At(CLAIMED, run, c, Idle, None), ReaperScan([1], 100);
      Possible(s, a) && Apply(m, s, a) == At(CLAIMED, run, c, SCANNED, None)
  {
    assert Apply(m, At(CLAIMED, run, c, Idle, None), ReaperScan([1], 100)).reaper == SCANNED;
  }

  /** The worker claims the job; the reaper finds it stuck. */
  lemma Opening(m: int) returns (run: seq<Action>)
    ensures Legal(m, INIT, run)
    ensures Exec(m, INIT, run) == At(CLAIMED, Run(RunQueued, None), Counts(1, 0, 0, 0, 0), SCANNED, None)
  {
    run := Dispatched(m);
    ClaimIt(m, QUEUED, Run(RunQueued, None), NO_COUNTS, Idle, 1);
    Append(m, INIT, run, Claim(WORKER, [1], 1));
    run := run + [Claim(WORKER, [1], 1)];
    ScanIt(m, Run(RunQueued, None), Counts(1, 0, 0, 0, 0));
    Append(m, INIT, run, ReaperScan([1], 100));
    run := run + [ReaperScan([1], 100)];
  }

  /** A post from its checks to the point where only the job is left to update. */
  lemma PostUpToRun(m: int, before: seq<Action>, job: Job, r: Run, c: Counts, reaper: Reaper, now: int)
      returns (run: seq<Action>)
    requires Legal(m, INIT, before) && Exec(m, INIT, before) == At(job, r, c, reaper, None)
    requires job.state == Assigned && job.assignedTo == Some(WORKER) && job.run == 1
    ensures Legal(m, INIT, run)
    ensures Exec(m, INIT, run) == At(job, Run(RunComplete, Some(now)), c, reaper, Some(POST.(stage := RunEnded)))
  {
    CheckIt(m, job, r, c, reaper);
    Append(m, INIT, before, PostCheck(1, KEY, None));
    run := before + [PostCheck(1, KEY, None)];
    MarkIt(m, job, r, c, reaper);
    Append(m, INIT, run, PostMark);
    run := run + [PostMark];
    EndIt(m, job, r.(status := RunRunning), c, reaper, now);
    Append(m, INIT, run, PostEndRun(now));
    run := run + [PostEndRun(now)];
  }

  const DONE := CLAIMED.(state := Complete, completedAt := Some(102), error := None)

  /** The result comes in while the reaper still has the job on its list. */
  lemma ResultAfterScan() returns (run: seq<Action>)
    ensures Legal(0, INIT, run)
    ensures Exec(0, INIT, run) == At(DONE, Run(RunComplete, Some(101)), Counts(1, 0, 0, 1, 0), SCANNED, None)
  {
    run := Opening(0);
    run := PostUpToRun(0, run, CLAIMED, Run(RunQueued, None), Counts(1, 0, 0, 0, 0), SCANNED, 101);
    FinishIt(0, CLAIMED, Run(RunComplete, Some(101)), Counts(1, 0, 0, 0, 0), SCANNED, 102);
    Append(0, INIT, run, PostFinish(102));
    run := run + [PostFinish(102)];
  }

  /** The reaper's decision then moves the job, and its measure does not fall. */
  lemma MeasureStalls() returns (run: seq<Action>)
    ensures Legal(0, INIT, run) && Possible(Exec(0, INIT, run), ReaperDecide(103))
    ensures
      var s := Exec(0, INIT, run);
      var s' := Apply(0, s, ReaperDecide(103));
      && Moves(0, s, ReaperDecide(103), 1) && Revives(0, s, ReaperDecide(103), 1)
      && Measure(0, s'.t.jobs[1]) == Measure(0, s.t.jobs[1])
  {
    run := ResultAfterScan();
    StallsAt(Run(RunComplete, Some(101)), Counts(1, 0, 0, 1, 0));
  }

  lemma StallsAt(run: Run, c: Counts)
    ensures
      var s := At(DONE, run, c, SCANNED, None);
      && Possible(s, ReaperDecide(103))
      && Moves(0, s, ReaperDecide(103), 1) && Revives(0, s, ReaperDecide(103), 1)
      && Measure(0, Apply(0, s, ReaperDecide(103)).t.jobs[1]) == Measure(0, s.t.jobs[1])
  {
    var s := At(DONE, run, c, SCANNED, None);
    FailIt(DONE, run, c, None, 103);
    assert Strays(0, s, ReaperDecide(103), 1, Ended);
    RevivalKeepsMeasure(0, s, ReaperDecide(103), 1);
  }

  /** The failure lands after the result: an operator requeues the job, and its
      result is ingested a second time. */
  lemma DoubleIngestion() returns (run: seq<Action>)
    ensures Legal(0, INIT, run)
    ensures 1 in Exec(0, INIT, run).log && Exec(0, INIT, run).log[1].ingests == 2
    ensures !GuardedRun(0, INIT, run)
  {
    run := ResultAfterScan();
    FailIt(DONE, Run(RunComplete, Some(101)), Counts(1, 0, 0, 1, 0), None, 103);
    Append(0, INIT, run, ReaperDecide(103));
    run := run + [ReaperDecide(103)];
    var failed := DONE.(state := Failed, completedAt := Some(103), error := Some("stuck"));
    OperatorRequeuesIt(0, failed, Run(RunError, Some(103)), Counts(1, 0, 0, 1, 1), Reaping([], 0), 104);
    Append(0, INIT, run, AdminRequeue(1, 104));
    run := run + [AdminRequeue(1, 104)];
    var again := Release(failed).(completedAt := None, error := None, queuedAt := 104);
    ClaimIt(0, again, Run(RunQueued, None), Counts(1, 1, 0, 1, 1), Reaping([], 0), 105);
    Append(0, INIT, run, Claim(WORKER, [1], 105));
    run := run + [Claim(WORKER, [1], 105)];
    var taken := Assign(again, WORKER, 105);
    run := PostUpToRun(0, run, taken, Run(RunQueued, None), Counts(2, 1, 0, 1, 1), Reaping([], 0), 106);
    FinishIt(0, taken, Run(RunComplete, Some(106)), Counts(2, 1, 0, 1, 1), Reaping([], 0), 107);
    Append(0, INIT, run, PostFinish(107));
    run := run + [PostFinish(107)];
    NotIngestedOnce(run);
  }

  lemma NotIngestedOnce(run: seq<Action>)
    requires Legal(0, INIT, run) && 1 in Exec(0, INIT, run).t.jobs && 1 in Exec(0, INIT, run).log
    requires Exec(0, INIT, run).log[1].ingests == 2
    ensures !GuardedRun(0, INIT, run)
  {
    AtMostOnceExactly(0, run);
    assert !JobInOrder(Exec(0, INIT, run), 1);
  }

  /** The reaper requeues the job inside the post: the finish overwrites a queued
      job, and one attempt is counted that nobody claimed. */
  lemma RequeueInsidePost() returns (run: seq<Action>)
    ensures Legal(1, INIT, run)
    ensures
      var s := Exec(1, INIT, run);
      && s.post.None? && 1 in s.t.jobs && 1 in s.log && s.t.jobs[1].state == Complete
      && s.log[1].claims == 1 && s.t.jobs[1].retries == 1 && !AttemptsBalance(s.t.jobs[1], s.log[1])
  {
    var c, waiting := Counts(1, 0, 0, 0, 0), Run(RunQueued, None);
    run := Opening(1);
    run := PostUpToRun(1, run, CLAIMED, waiting, c, SCANNED, 101);
    RequeueIt(CLAIMED, Run(RunComplete, Some(101)), c, Some(POST.(stage := RunEnded)), 102);
    Append(1, INIT, run, ReaperDecide(102));
    run := run + [ReaperDecide(102)];
    FinishIt(1, Release(CLAIMED).(retries := 1), Run(RunComplete, Some(101)), c, Reaping([], 1), 103);
    Append(1, INIT, run, PostFinish(103));
    run := run + [PostFinish(103)];
  }

  /** The reaper fails the job between the post's two last writes: it meets an
      assigned job, and leaves a complete job on a run in error. */
  lemma FailureInsidePost() returns (run: seq<Action>)
    ensures Legal(0, INIT, run)
    ensures
      var s := Exec(0, INIT, run);
      && s.post.None? && 1 in s.t.jobs && s.t.jobs[1].state == Complete
      && 1 in s.t.runs && s.t.runs[1].status == RunError && s.t.jobs[1].run == 1 && !Visible(s)
  {
    var c, waiting := Counts(1, 0, 0, 0, 0), Run(RunQueued, None);
    run := Opening(0);
    run := PostUpToRun(0, run, CLAIMED, waiting, c, SCANNED, 101);
    FailIt(CLAIMED, Run(RunComplete, Some(101)), c, Some(POST.(stage := RunEnded)), 102);
    Append(0, INIT, run, ReaperDecide(102));
    run := run + [ReaperDecide(102)];
    var failed := CLAIMED.(state := Failed, completedAt := Some(102), error := Some("stuck"));
    FinishIt(0, failed, Run(RunError, Some(102)), c.(fails := 1), Reaping([], 0), 103);
    Append(0, INIT, run, PostFinish(103));
    run := run + [PostFinish(103)];
    var s := Exec(0, INIT, run);
    assert !Posting(s, 1) && !StatusAgrees(s.t, 1);
  }
}
