/**
 The three linked tables of the remote-job protocol (`runner_jobs`, `runs`,
 `runners`) and, as pure functions, the SQL statements that change them.
 The methods of module HarnessDb are proved against these functions, and the
 state machine of module Protocol is built from them.

 Identifiers are opaque; instants are microseconds (their textual form and its
 order are the subject of module Timestamps).
 */
module Tables {
  import opened Wrappers

  type JobId = nat
  type RunId = nat
  type KeyId = nat
  type Name = string
  type Tag = string

  /** `complete` and `error` come from results, `failed` from the reaper. */
  datatype JobState = Queued | Assigned | Complete | Errored | Failed
  {
    /** The two states only an ingested result leads to. */
    predicate Finished() { Complete? || Errored? }
  }

  datatype Job = Job(
    run: RunId,
    pin: Option<Name>,          // runner_name
    tag: Option<Tag>,           // target_tag
    state: JobState,
    queuedAt: int,
    assignedTo: Option<Name>,
    assignedAt: Option<int>,
    completedAt: Option<int>,
    error: Option<string>,
    retries: nat                // retry_count
  )

  datatype RunStatus = RunPending | RunQueued | RunRunning | RunComplete | RunError

  datatype Run = Run(status: RunStatus, finishedAt: Option<int>)

  datatype Runner = Runner(key: Option<KeyId>, tags: set<Tag>, draining: bool)

  datatype Tables = Tables(
    jobs: map<JobId, Job>,
    runs: map<RunId, Run>,
    runners: map<Name, Runner>
  )

  /** What a handler answers; only Ok200 comes with a change of the tables. */
  datatype Response = Ok200 | BadRequest400 | Forbidden403 | NotFound404 | Conflict409 | TooLarge413 | Unprocessable422

  // ---- claim_runner_jobs -------------------------------------------------

  /** The WHERE clause of the candidate SELECT. */
  predicate Eligible(job: Job, name: Name, tags: set<Tag>) {
    && job.state == Queued
    && (|| job.pin == Some(name)
        || (job.pin.None? && job.tag.None?)
        || (job.pin.None? && job.tag.Some? && job.tag.value in tags))
  }

  /** Who a job is for: the runner it names; if it names none, every runner with
      its tag; if it has no tag either, every runner. */
  predicate MeantFor(job: Job, name: Name, tags: set<Tag>) {
    match job.pin
    case Some(runner) => runner == name
    case None => match job.tag case Some(tag) => tag in tags case None => true
  }

  /** `ids` is an answer of the candidate SELECT: the `capacity` oldest eligible
      jobs, oldest first. Jobs queued at the same instant may come in any order. */
  ghost predicate IsCandidateList(jobs: map<JobId, Job>, name: Name, tags: set<Tag>,
                                  capacity: int, ids: seq<JobId>)
  {
    && (forall i :: 0 <= i < |ids| ==> ids[i] in jobs && Eligible(jobs[ids[i]], name, tags))
    && (forall i, k :: 0 <= i < k < |ids| ==> ids[i] != ids[k])
    && (forall i, k :: 0 <= i < k < |ids| ==> jobs[ids[i]].queuedAt <= jobs[ids[k]].queuedAt)
    && |ids| <= (if capacity <= 0 then 0 else capacity)
    && (forall j :: j in jobs && Eligible(jobs[j], name, tags) && j !in ids ==>
          && |ids| >= capacity
          && forall i :: 0 <= i < |ids| ==> jobs[ids[i]].queuedAt <= jobs[j].queuedAt)
  }

  /** Every job chosen is queued and meant for the runner, and one that is left out
      is so because `capacity` others were chosen, none of them queued later. */
  ghost predicate OldestMeant(jobs: map<JobId, Job>, name: Name, tags: set<Tag>, capacity: int, ids: seq<JobId>) {
    && (forall j :: j in ids ==> j in jobs && jobs[j].state == Queued && MeantFor(jobs[j], name, tags))
    && (forall i, k :: 0 <= i < k < |ids| ==> ids[i] != ids[k])
    && |ids| <= (if capacity <= 0 then 0 else capacity)
    && (forall j :: j in jobs && jobs[j].state == Queued && MeantFor(jobs[j], name, tags) && j !in ids ==>
          |ids| >= capacity && forall k :: k in ids ==> jobs[k].queuedAt <= jobs[j].queuedAt)
  }

  lemma CandidatesAreMeant(jobs: map<JobId, Job>, name: Name, tags: set<Tag>, capacity: int, ids: seq<JobId>)
    requires IsCandidateList(jobs, name, tags, capacity, ids)
    ensures OldestMeant(jobs, name, tags, capacity, ids)
  {
    assert forall j :: j in jobs ==>
        (Eligible(jobs[j], name, tags) <==> jobs[j].state == Queued && MeantFor(jobs[j], name, tags));
  }

  function Assign(job: Job, name: Name, now: int): Job {
    job.(state := Assigned, assignedTo := Some(name), assignedAt := Some(now))
  }

  /** The conditional UPDATE, for every id in turn. */
  function AssignAll(jobs: map<JobId, Job>, ids: set<JobId>, name: Name, now: int): map<JobId, Job> {
    map j | j in jobs :: if j in ids && jobs[j].state == Queued then Assign(jobs[j], name, now) else jobs[j]
  }

  // ---- single-row updates; an UPDATE of a missing row changes nothing ----

  function SetRun(runs: map<RunId, Run>, run: RunId, status: RunStatus, finishedAt: Option<int>): map<RunId, Run> {
    if run in runs then runs[run := Run(status, finishedAt)] else runs
  }

  function Release(job: Job): Job {
    job.(state := Queued, assignedTo := None, assignedAt := None)
  }

  /** requeue_runner_job: guarded on state='assigned'. */
  function Requeue(t: Tables, id: JobId): Tables {
    if id in t.jobs && t.jobs[id].state == Assigned then
      t.(jobs := t.jobs[id := Release(t.jobs[id]).(retries := t.jobs[id].retries + 1)])
    else t
  }

  /** fail_runner_job: no guard on the state. */
  function Fail(t: Tables, id: JobId, msg: string, now: int): Tables {
    if id in t.jobs then
      t.(jobs := t.jobs[id := t.jobs[id].(state := Failed, completedAt := Some(now), error := Some(msg))],
         runs := SetRun(t.runs, t.jobs[id].run, RunError, Some(now)))
    else t
  }

  /** manually_requeue_failed_job: guarded on state='failed', keeps retry_count. */
  function ManualRequeue(t: Tables, id: JobId, now: int): Tables {
    if id in t.jobs && t.jobs[id].state == Failed then
      t.(jobs := t.jobs[id := Release(t.jobs[id]).(completedAt := None, error := None, queuedAt := now)],
         runs := SetRun(t.runs, t.jobs[id].run, RunQueued, None))
    else t
  }

  /** complete_runner_job: no guard on the state. */
  function Finish(t: Tables, id: JobId, error: Option<string>, now: int): Tables {
    if id in t.jobs then
      t.(jobs := t.jobs[id := t.jobs[id].(state := if error.None? then Complete else Errored,
                                          completedAt := Some(now), error := error)])
    else t
  }

  /** delete_runner: one transaction over both tables. */
  function DropRunner(t: Tables, name: Name): Tables {
    t.(jobs := map j | j in t.jobs :: if HeldBy(t.jobs[j], name) then Release(t.jobs[j]) else t.jobs[j],
       runners := t.runners - {name})
  }

  predicate HeldBy(job: Job, name: Name) {
    job.state == Assigned && job.assignedTo == Some(name)
  }

  // ---- handlers ----------------------------------------------------------

  /** queue_remote_run without a caller-supplied run id: a new run in `queued`
      and a new job on it. */
  function QueueRemote(t: Tables, id: JobId, run: RunId, pin: Option<Name>, tag: Option<Tag>, now: int): Tables {
    t.(runs := t.runs[run := Run(RunQueued, None)],
       jobs := t.jobs[id := NewJob(run, pin, tag, now)])
  }

  function NewJob(run: RunId, pin: Option<Name>, tag: Option<Tag>, now: int): Job {
    Job(run, pin, tag, Queued, now, None, None, None, None, 0)
  }

  /** The checks of POST /results, in the order the handler makes them. */
  function ResultsResponse(t: Tables, id: JobId, key: KeyId): Response {
    if id !in t.jobs then NotFound404
    else if t.jobs[id].state != Assigned then Conflict409
    else
      var owner := if t.jobs[id].assignedTo.Some? then t.jobs[id].assignedTo.value else "";
      if owner !in t.runners || t.runners[owner].key != Some(key) then Forbidden403
      else if t.jobs[id].run !in t.runs then BadRequest400
      else Ok200
  }

  /** POST /results: the checks, then ingest_runner_results. */
  function Results(t: Tables, id: JobId, key: KeyId, error: Option<string>, now: int): Tables {
    if ResultsResponse(t, id, key) == Ok200 then
      Finish(t.(runs := SetRun(t.runs, t.jobs[id].run,
                               if error.None? then RunComplete else RunError, Some(now))),
             id, error, now)
    else t
  }

  /** One decision of the reaper, taken on the retry count its scan saw. */
  function ReapOne(t: Tables, maxRetries: int, id: JobId, seenRetries: nat, now: int): Tables {
    if seenRetries >= maxRetries then Fail(t, id, "stuck", now) else Requeue(t, id)
  }

  /** Rows the reaper's scan returns. */
  predicate IsStuck(job: Job, cutoff: int) {
    job.state == Assigned && job.assignedAt.Some? && job.assignedAt.value < cutoff
  }

  /** A row of the scan: the id, and the retry count the reaper decides on. */
  datatype Stuck = Stuck(id: JobId, retries: nat)

  /** The reaper's loop over a list of scanned rows. */
  function ReapList(t: Tables, maxRetries: int, rows: seq<Stuck>, now: int): Tables
    decreases rows
  {
    if rows == [] then t
    else ReapOne(ReapList(t, maxRetries, rows[..|rows| - 1], now), maxRetries,
                 rows[|rows| - 1].id, rows[|rows| - 1].retries, now)
  }
}
