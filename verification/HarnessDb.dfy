/**
 The three tables as an object whose methods run the statements, and the
 handlers that combine several of them. Each method is proved against the
 function of module Tables that names its effect.
 */
module HarnessDb {
  import opened Wrappers
  import opened Tables

  class Database {
    var jobs: map<JobId, Job>
    var runs: map<RunId, Run>
    var runners: map<Name, Runner>

    function State(): Tables
      reads this
    {
      Tables(jobs, runs, runners)
    }

    constructor ()
      ensures State() == Tables(map[], map[], map[])
    {
      jobs, runs, runners := map[], map[], map[];
    }

    // ---- runs --------------------------------------------------------------

    method InsertRun(run: RunId, row: Run)
      modifies this`runs
      ensures runs == old(runs)[run := row]
    {
      runs := runs[run := row];
    }

    method UpdateRunStatus(run: RunId, status: RunStatus, finishedAt: Option<int>)
      modifies this`runs
      ensures finishedAt.Some? ==> runs == SetRun(old(runs), run, status, finishedAt)
      ensures finishedAt.None? ==>
                runs == if run in old(runs) then old(runs)[run := old(runs)[run].(status := status)] else old(runs)
    {
      if run in runs {
        runs := runs[run := Run(status, if finishedAt.Some? then finishedAt else runs[run].finishedAt)];
      }
    }

    // ---- runner_jobs -------------------------------------------------------

    method QueueRunnerJob(id: JobId, run: RunId, pin: Option<Name>, tag: Option<Tag>, now: int)
      modifies this`jobs
      ensures jobs == old(jobs)[id := NewJob(run, pin, tag, now)]
    {
      jobs := jobs[id := NewJob(run, pin, tag, now)];
    }

    /** ORDER BY time, LIMIT limit if there is one. */
    method OldestFirst(s: set<JobId>, limit: Option<int>, time: Job -> int) returns (ids: seq<JobId>)
      requires s <= jobs.Keys
      ensures forall i :: 0 <= i < |ids| ==> ids[i] in s
      ensures InOrder(jobs, ids, time)
      ensures limit.Some? ==> |ids| <= (if limit.value <= 0 then 0 else limit.value)
      ensures forall j :: j in s && j !in ids ==>
                && limit.Some? && |ids| >= limit.value
                && forall i :: 0 <= i < |ids| ==> time(jobs[ids[i]]) <= time(jobs[j])
    {
      var rest := s;
      ids := [];
      while (limit.None? || |ids| < limit.value) && rest != {}
        invariant rest <= s && forall j :: j in s <==> j in rest || j in ids
        invariant forall i :: 0 <= i < |ids| ==> ids[i] !in rest
        invariant InOrder(jobs, ids, time)
        invariant forall i, j :: 0 <= i < |ids| && j in rest ==> time(jobs[ids[i]]) <= time(jobs[j])
        invariant limit.Some? ==> |ids| <= (if limit.value <= 0 then 0 else limit.value)
        decreases |rest|
      {
        var j := Oldest(rest, time);
        PushKeepsOrder(jobs, ids, time, j);
        ids, rest := ids + [j], rest - {j};
      }
    }

    method Oldest(s: set<JobId>, time: Job -> int) returns (j: JobId)
      requires s != {} && s <= jobs.Keys
      ensures j in s && forall k :: k in s ==> time(jobs[j]) <= time(jobs[k])
    {
      OldestExists(jobs, s, time);
      j :| j in s && forall k :: k in s ==> time(jobs[j]) <= time(jobs[k]);
    }

    /** SELECT ... ORDER BY queued_at LIMIT capacity. */
    method SelectCandidates(name: Name, tags: set<Tag>, capacity: int) returns (ids: seq<JobId>)
      ensures IsCandidateList(jobs, name, tags, capacity, ids) && OldestMeant(jobs, name, tags, capacity, ids)
    {
      ids := OldestFirst((set j | j in jobs && Eligible(jobs[j], name, tags)), Some(capacity), QueueTime);
      CandidatesAreMeant(jobs, name, tags, capacity, ids);
    }

    /** The claim: candidates first, then one conditional UPDATE each. Run with
        nothing in between, every candidate is claimed: the oldest queued jobs that
        are meant for the claimer. */
    method ClaimRunnerJobs(name: Name, tags: set<Tag>, capacity: int, now: int)
      returns (claimed: seq<(JobId, Job)>, ghost ids: seq<JobId>)
      modifies this`jobs
      ensures IsCandidateList(old(jobs), name, tags, capacity, ids)
      ensures jobs == AssignAll(old(jobs), (set j | j in ids), name, now)
      ensures |claimed| == |ids|
      ensures forall i :: 0 <= i < |ids| ==> claimed[i] == (ids[i], Assign(old(jobs)[ids[i]], name, now))
      ensures OldestMeant(old(jobs), name, tags, capacity, ids)
    {
      if capacity <= 0 {
        claimed, ids := [], [];
        assert jobs == AssignAll(jobs, {}, name, now);
        CandidatesAreMeant(jobs, name, tags, capacity, ids);
        return;
      }
      var candidates := SelectCandidates(name, tags, capacity);
      ids := candidates;
      claimed := [];
      var n := 0;
      while n < |candidates|
        invariant 0 <= n <= |candidates| && |claimed| == n
        invariant jobs.Keys == old(jobs).Keys
        invariant forall j :: j in jobs ==>
                    jobs[j] == if j in ids[..n] then Assign(old(jobs)[j], name, now) else old(jobs)[j]
        invariant forall i :: 0 <= i < n ==> claimed[i] == (ids[i], Assign(old(jobs)[ids[i]], name, now))
      {
        var id := candidates[n];
        assert id !in ids[..n];
        if jobs[id].state == Queued {   // rowcount == 1
          jobs := jobs[id := Assign(jobs[id], name, now)];
          claimed := claimed + [(id, jobs[id])];
        }
        n := n + 1;
        assert ids[..n] == ids[..n - 1] + [id];
      }
      assert ids[..n] == ids;
    }

    method CompleteRunnerJob(id: JobId, error: Option<string>, now: int)
      modifies this`jobs
      ensures State() == Finish(old(State()), id, error, now)
    {
      if id in jobs {
        jobs := jobs[id := jobs[id].(state := if error.None? then Complete else Errored,
                                     completedAt := Some(now), error := error)];
      }
    }

    /** SELECT ... ORDER BY assigned_at. */
    method FindStuckRunnerJobs(cutoff: int) returns (stuck: seq<Stuck>)
      ensures IsScan(jobs, cutoff, stuck)
      ensures forall j :: j in jobs ==>
        ((jobs[j].state == Assigned && jobs[j].assignedAt.Some? && jobs[j].assignedAt.value < cutoff)
         <==> exists i :: 0 <= i < |stuck| && stuck[i].id == j)
    {
      var rows := jobs;
      var ids := OldestFirst((set j | j in jobs && IsStuck(jobs[j], cutoff)), None, AssignmentTime);
      stuck := seq(|ids|, i requires 0 <= i < |ids| && ids[i] in rows => Stuck(ids[i], rows[ids[i]].retries));
      forall j | j in jobs && IsStuck(jobs[j], cutoff)
        ensures exists i :: 0 <= i < |stuck| && stuck[i].id == j
      {
        assert j in ids;
        var i :| 0 <= i < |ids| && ids[i] == j;
        assert stuck[i].id == j;
      }
    }

    method RequeueRunnerJob(id: JobId)
      modifies this`jobs
      ensures State() == Requeue(old(State()), id)
    {
      if id in jobs && jobs[id].state == Assigned {
        jobs := jobs[id := Release(jobs[id]).(retries := jobs[id].retries + 1)];
      }
    }

    method FailRunnerJob(id: JobId, msg: string, now: int)
      modifies this`jobs, this`runs
      ensures State() == Fail(old(State()), id, msg, now)
    {
      if id in jobs {
        jobs := jobs[id := jobs[id].(state := Failed, completedAt := Some(now), error := Some(msg))];
        UpdateRunStatus(jobs[id].run, RunError, Some(now));
      }
    }

    /** A failed job is back in the queue, with its retries and its run, which is
        queued too; every other row is as before. Anything else changes nothing. */
    method ManuallyRequeueFailedJob(id: JobId, now: int) returns (done: bool)
      modifies this`jobs, this`runs
      ensures State() == ManualRequeue(old(State()), id, now)
      ensures done <==> id in old(jobs) && old(jobs)[id].state == Failed
      ensures !done ==> State() == old(State())
      ensures done ==>
        && jobs.Keys == old(jobs).Keys && runs.Keys == old(runs).Keys
        && jobs[id].state == Queued && jobs[id].assignedTo.None? && jobs[id].assignedAt.None?
        && jobs[id].completedAt.None? && jobs[id].error.None? && jobs[id].queuedAt == now
        && jobs[id].retries == old(jobs)[id].retries && jobs[id].run == old(jobs)[id].run
        && jobs[id].pin == old(jobs)[id].pin && jobs[id].tag == old(jobs)[id].tag
        && (jobs[id].run in runs ==> runs[jobs[id].run].status == RunQueued && runs[jobs[id].run].finishedAt.None?)
        && (forall j :: j in jobs && j != id ==> jobs[j] == old(jobs)[j])
        && (forall r :: r in runs && r != jobs[id].run ==> runs[r] == old(runs)[r])
    {
      done := id in jobs && jobs[id].state == Failed;
      if done {
        jobs := jobs[id := Release(jobs[id]).(completedAt := None, error := None, queuedAt := now)];
        if jobs[id].run in runs {
          runs := runs[jobs[id].run := Run(RunQueued, None)];
        }
      }
    }

    // ---- runners -----------------------------------------------------------

    /** The name is gone, and nobody holds a job under it: each job it held is
        queued again with its retries, every other row is as before, and the number
        returned is that of the rows that changed. */
    method DeleteRunner(name: Name) returns (requeued: nat)
      modifies this`jobs, this`runners
      ensures State() == DropRunner(old(State()), name)
      ensures name !in runners
      ensures forall n :: n != name && n in old(runners) ==> n in runners && runners[n] == old(runners)[n]
      ensures jobs.Keys == old(jobs).Keys && forall j :: j in jobs ==> !HeldBy(jobs[j], name)
      ensures forall j :: j in jobs && jobs[j] != old(jobs)[j] ==>
        && old(jobs)[j].state == Assigned && old(jobs)[j].assignedTo == Some(name)
        && jobs[j].state == Queued && jobs[j].assignedTo.None? && jobs[j].assignedAt.None?
        && jobs[j].retries == old(jobs)[j].retries && jobs[j].run == old(jobs)[j].run
        && jobs[j].queuedAt == old(jobs)[j].queuedAt
      ensures requeued == |set j | j in jobs && jobs[j] != old(jobs)[j]|
    {
      var held := set j | j in jobs && HeldBy(jobs[j], name);
      requeued := |held|;
      jobs := map j | j in jobs :: if HeldBy(jobs[j], name) then Release(jobs[j]) else jobs[j];
      runners := runners - {name};
      assert held == set j | j in jobs && jobs[j] != old(jobs)[j];
    }

    /** check_runner_binding and get_runner_bound_key: the key of the row, if any. */
    method BoundKey(name: Name) returns (key: Option<KeyId>)
      ensures key == if name in runners then runners[name].key else None
    {
      key := if name in runners then runners[name].key else None;
    }

    /** upsert_runner; `expected` is None when the caller checked nothing. The
        UPDATE keeps the key when it is given none, and keeps `draining`. */
    method UpsertRunner(name: Name, tags: set<Tag>, key: Option<KeyId>, expected: Option<Option<KeyId>>)
        returns (conflict: bool)
      modifies this`runners
      ensures conflict <==> (name in old(runners) && expected.Some?
                && old(runners)[name].key.Some? && old(runners)[name].key != expected.value)
      ensures conflict ==> runners == old(runners)
      ensures !conflict ==>
        && runners.Keys == old(runners).Keys + {name} && runners - {name} == old(runners) - {name}
        && runners[name].tags == tags
        && (key.Some? ==> runners[name].key == key)
        && (key.None? ==> runners[name].key == if name in old(runners) then old(runners)[name].key else None)
        && (runners[name].draining <==> name in old(runners) && old(runners)[name].draining)
    {
      if name !in runners {
        runners := runners[name := Runner(key, tags, false)];
        return false;
      }
      var row := runners[name];
      if expected.Some? && row.key.Some? && row.key != expected.value {
        return true;
      }
      runners := runners[name := Runner(if key.Some? then key else row.key, tags, row.draining)];
      conflict := false;
    }
  }

  /** Distinct rows, the oldest first. */
  predicate InOrder(jobs: map<JobId, Job>, ids: seq<JobId>, time: Job -> int) {
    && (forall i :: 0 <= i < |ids| ==> ids[i] in jobs)
    && forall i, k :: 0 <= i < k < |ids| ==> ids[i] != ids[k] && time(jobs[ids[i]]) <= time(jobs[ids[k]])
  }

  lemma PushKeepsOrder(jobs: map<JobId, Job>, ids: seq<JobId>, time: Job -> int, j: JobId)
    requires InOrder(jobs, ids, time) && j in jobs && j !in ids
    requires forall i :: 0 <= i < |ids| ==> time(jobs[ids[i]]) <= time(jobs[j])
    ensures InOrder(jobs, ids + [j], time)
  {
  }

  function QueueTime(job: Job): int { job.queuedAt }

  function AssignmentTime(job: Job): int { if job.assignedAt.Some? then job.assignedAt.value else 0 }

  lemma OldestExists(jobs: map<JobId, Job>, s: set<JobId>, time: Job -> int)
    requires s != {} && s <= jobs.Keys
    ensures exists j :: j in s && forall k :: k in s ==> time(jobs[j]) <= time(jobs[k])
    decreases |s|
  {
    var a :| a in s;
    if s == {a} {
    } else {
      OldestExists(jobs, s - {a}, time);
      var b :| b in s - {a} && forall k :: k in s - {a} ==> time(jobs[b]) <= time(jobs[k]);
      var j := if time(jobs[a]) <= time(jobs[b]) then a else b;
      assert forall k :: k in s ==> time(jobs[j]) <= time(jobs[k]);
    }
  }

  // ---- harness/worker_dispatch.py, web/routes/runner.py -------------------

  /** queue_remote_run: the run row is inserted as given and then set to
      `queued`, unless the caller named an existing run. */
  method QueueRemoteRun(db: Database, id: JobId, newRun: RunId, runId: Option<RunId>,
                        pin: Option<Name>, tag: Option<Tag>, now: int) returns (run: RunId)
    modifies db`jobs, db`runs
    ensures run == if runId.Some? then runId.value else newRun
    ensures runId.None? ==> db.State() == QueueRemote(old(db.State()), id, newRun, pin, tag, now)
    ensures id in db.jobs && db.jobs[id].run == run && db.jobs[id].pin == pin && db.jobs[id].tag == tag
    ensures db.jobs[id].state == Queued && db.jobs[id].queuedAt == now && db.jobs[id].retries == 0
    ensures db.jobs[id].assignedTo.None? && db.jobs[id].assignedAt.None?
    ensures db.jobs[id].completedAt.None? && db.jobs[id].error.None?
    ensures db.jobs.Keys == old(db.jobs).Keys + {id} && db.jobs - {id} == old(db.jobs) - {id}
    ensures runId.None? ==>
      run in db.runs && db.runs[run] == Run(RunQueued, None) && db.runs - {run} == old(db.runs) - {run}
    ensures runId.Some? ==> db.runs == old(db.runs)
  {
    if runId.Some? {
      run := runId.value;
    } else {
      run := newRun;
      db.InsertRun(run, Run(RunQueued, None));
      db.UpdateRunStatus(run, RunQueued, None);
    }
    db.QueueRunnerJob(id, run, pin, tag, now);
  }

  /** POST /register, run with nothing in between; `releasable` is the judgement
      on the key the name is bound to. Refused exactly when the name belongs to
      another key that may not be released; otherwise the name ends up bound to
      the caller's key, draining or not as before. */
  method RunnerRegister(db: Database, name: Name, tags: set<Tag>, key: KeyId, releasable: KeyId -> bool)
    returns (response: Response)
    modifies db`runners
    ensures
      var bound := if name in old(db.runners) then old(db.runners)[name].key else None;
      && (response == Unprocessable422 <==> name == "")
      && (response == Conflict409 <==>
            name != "" && bound.Some? && bound.value != key && !releasable(bound.value))
      && (response == Ok200 || db.State() == old(db.State()))
      && (response != Ok200 ==> response == Unprocessable422 || response == Conflict409)
    ensures response == Ok200 ==>
      && name in db.runners && db.runners[name].key == Some(key) && db.runners[name].tags == tags
      && (db.runners[name].draining <==> name in old(db.runners) && old(db.runners)[name].draining)
      && db.runners - {name} == old(db.runners) - {name}
  {
    if name == "" {
      return Unprocessable422;
    }
    var existing := db.BoundKey(name);
    var bound := db.BoundKey(name);
    if bound.Some? && bound.value != key {
      if !releasable(bound.value) {
        return Conflict409;
      }
    }
    var conflict := db.UpsertRunner(name, tags, Some(key), Some(existing));
    response := if conflict then Conflict409 else Ok200;
  }

  /** POST /results, run with nothing in between; `oversized` tells whether some
      screenshot is over the limit. */
  method RunnerResults(db: Database, id: JobId, key: KeyId, error: Option<string>, oversized: bool, now: int)
    returns (response: Response)
    modifies db`jobs, db`runs
    ensures
      var checked := ResultsResponse(old(db.State()), id, key);
      response == if oversized && (checked == Ok200 || checked == BadRequest400) then TooLarge413 else checked
    ensures db.State() == if response == Ok200 then Results(old(db.State()), id, key, error, now) else old(db.State())
  {
    if id !in db.jobs {
      return NotFound404;
    }
    var job := db.jobs[id];
    if job.state != Assigned {
      return Conflict409;
    }
    var owner := if job.assignedTo.Some? then job.assignedTo.value else "";
    if owner !in db.runners || db.runners[owner].key != Some(key) {
      return Forbidden403;
    }
    if oversized {
      return TooLarge413;
    }
    response := IngestRunnerResults(db, id, error, now);
  }

  /** ingest_runner_results, as far as the three tables go. It trusts its caller
      to have checked the job's state. */
  method IngestRunnerResults(db: Database, id: JobId, error: Option<string>, now: int)
    returns (response: Response)
    requires id in db.jobs
    modifies db`jobs, db`runs
    ensures old(db.jobs)[id].run in old(db.runs) <==> response == Ok200
    ensures response == Ok200 || (response == BadRequest400 && db.State() == old(db.State()))
    ensures response == Ok200 ==>
              db.State() == Finish(old(db.State()).(runs := SetRun(old(db.runs), old(db.jobs)[id].run,
                                                                   if error.None? then RunComplete else RunError,
                                                                   Some(now))), id, error, now)
  {
    var run := db.jobs[id].run;
    if run !in db.runs {
      return BadRequest400;
    }
    db.UpdateRunStatus(run, RunRunning, None);
    db.UpdateRunStatus(run, if error.None? then RunComplete else RunError, Some(now));
    db.CompleteRunnerJob(id, error, now);
    response := Ok200;
  }

  /** What an undisturbed reaper pass makes of one row. */
  function Reaped(job: Job, cutoff: int, maxRetries: int, now: int): Job {
    if !IsStuck(job, cutoff) then job
    else if job.retries >= maxRetries then job.(state := Failed, completedAt := Some(now), error := Some("stuck"))
    else Release(job).(retries := job.retries + 1)
  }

  /** `rows` is an answer of the stuck-job scan: longest assigned first. */
  ghost predicate IsScan(jobs: map<JobId, Job>, cutoff: int, rows: seq<Stuck>) {
    && (forall i :: 0 <= i < |rows| ==>
          && rows[i].id in jobs && IsStuck(jobs[rows[i].id], cutoff)
          && rows[i].retries == jobs[rows[i].id].retries)
    && (forall i, k :: 0 <= i < k < |rows| ==> rows[i].id != rows[k].id)
    && (forall i, k :: 0 <= i < k < |rows| ==>
          jobs[rows[i].id].assignedAt.value <= jobs[rows[k].id].assignedAt.value)
  }

  /** How many scanned rows have budget left. */
  function Requeues(rows: seq<Stuck>, maxRetries: int): nat
    decreases rows
  {
    if rows == [] then 0
    else Requeues(rows[..|rows| - 1], maxRetries) + if rows[|rows| - 1].retries < maxRetries then 1 else 0
  }

  lemma {:induction false} SomeRequeued(rows: seq<Stuck>, maxRetries: int)
    ensures Requeues(rows, maxRetries) > 0 <==> exists i :: 0 <= i < |rows| && rows[i].retries < maxRetries
    decreases rows
  {
    if rows == [] {
    } else {
      SomeRequeued(rows[..|rows| - 1], maxRetries);
    }
  }

  lemma ReapListKeys(t: Tables, maxRetries: int, rows: seq<Stuck>, now: int)
    ensures ReapList(t, maxRetries, rows, now).jobs.Keys == t.jobs.Keys
    decreases rows
  {
    if rows == [] {
    } else {
      ReapListKeys(t, maxRetries, rows[..|rows| - 1], now);
    }
  }

  /** The reaper's loop over its scan touches the scanned rows, each once. */
  lemma {:induction false} ReapListRows(t: Tables, cutoff: int, maxRetries: int, rows: seq<Stuck>, now: int, j: JobId)
    requires IsScan(t.jobs, cutoff, rows) && j in t.jobs
    ensures
      var t' := ReapList(t, maxRetries, rows, now);
      && t'.jobs.Keys == t.jobs.Keys
      && t'.jobs[j] == if exists i :: 0 <= i < |rows| && rows[i].id == j
                       then Reaped(t.jobs[j], cutoff, maxRetries, now) else t.jobs[j]
    decreases rows
  {
    if rows == [] {
    } else {
      var n := |rows| - 1;
      ReapListRows(t, cutoff, maxRetries, rows[..n], now, j);
      ReapListRows(t, cutoff, maxRetries, rows[..n], now, rows[n].id);
      assert forall i :: 0 <= i < n ==> rows[..n][i] == rows[i];
    }
  }

  /** And over a complete scan it treats every row as it should. */
  lemma AllReaped(t: Tables, cutoff: int, maxRetries: int, rows: seq<Stuck>, now: int)
    requires IsScan(t.jobs, cutoff, rows)
    requires forall j :: j in t.jobs && IsStuck(t.jobs[j], cutoff) ==> exists i :: 0 <= i < |rows| && rows[i].id == j
    ensures ReapList(t, maxRetries, rows, now).jobs.Keys == t.jobs.Keys
    ensures forall j :: j in t.jobs ==>
              ReapList(t, maxRetries, rows, now).jobs[j] == Reaped(t.jobs[j], cutoff, maxRetries, now)
  {
    ReapListKeys(t, maxRetries, rows, now);
    forall j | j in t.jobs
      ensures ReapList(t, maxRetries, rows, now).jobs[j] == Reaped(t.jobs[j], cutoff, maxRetries, now)
    {
      ReapListRows(t, cutoff, maxRetries, rows, now, j);
    }
  }

  /** reap_stuck_jobs, run with nothing in between: every job assigned before
      the cutoff goes back to the queue with one more retry, or fails once its
      budget is spent; every other job keeps its row. */
  method ReapStuckJobs(db: Database, cutoff: int, maxRetries: int, now: int)
    returns (scanned: nat, requeued: nat, failed: nat, ghost rows: seq<Stuck>)
    modifies db`jobs, db`runs
    ensures IsScan(old(db.jobs), cutoff, rows) && scanned == |rows| == requeued + failed
    ensures db.State() == ReapList(old(db.State()), maxRetries, rows, now)
    ensures db.jobs.Keys == old(db.jobs).Keys
    ensures forall j :: j in db.jobs ==> db.jobs[j] == Reaped(old(db.jobs)[j], cutoff, maxRetries, now)
    ensures requeued == Requeues(rows, maxRetries)
    ensures requeued > 0 <==> exists i :: 0 <= i < |rows| && rows[i].retries < maxRetries
  {
    var stuck := db.FindStuckRunnerJobs(cutoff);
    rows, scanned, requeued, failed := stuck, |stuck|, 0, 0;
    var n := 0;
    while n < |stuck|
      invariant 0 <= n <= |stuck| && requeued + failed == n
      invariant db.State() == ReapList(old(db.State()), maxRetries, stuck[..n], now)
      invariant requeued == Requeues(stuck[..n], maxRetries)
    {
      var row := stuck[n];
      if row.retries >= maxRetries {
        db.FailRunnerJob(row.id, "stuck", now);
        failed := failed + 1;
      } else {
        db.RequeueRunnerJob(row.id);
        requeued := requeued + 1;
      }
      n := n + 1;
      assert stuck[..n][..n - 1] == stuck[..n - 1];
    }
    assert stuck[..n] == stuck;
    AllReaped(old(db.State()), cutoff, maxRetries, rows, now);
    SomeRequeued(rows, maxRetries);
  }
}
