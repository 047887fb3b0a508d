# Verified model of the remote-job protocol and its surroundings

The harness hands application checks to remote workers through a queue in its
database, ingests what they send back, and alerts on changes. This project
models the parts of that machinery where the order of events matters and proves
what they promise, for every input and every run.

| files | what they model |
|---|---|
| `Tables`, `Effects`, `HarnessDb` | the tables `runner_jobs`, `runs`, `runners`: each SQL statement as a pure function, how the statements undo each other, and an object whose methods run the statements and the handlers built from them |
| `Protocol` | the job protocol as a state machine over all actors: dispatch, claim, result posts (late, repeated, replayed, from any key), the stuck-job reaper, runner deletion, operator requeue |
| `Agreement`, `Accounting`, `Termination`, `Ownership` | what holds of it over every run: the three tables agree, results are ingested once and attempts are conserved, jobs come to an end, only the claimer's results are taken |
| `StrayFailure` | concrete runs that break these promises |
| `ClaimRace` | claimers whose candidate SELECT and conditional UPDATEs interleave |
| `Binding` | concurrent registrations of one runner name |
| `LongPoll`, `Notices`, `PollAnswers`, `FifoLoop`, `LateStart`, `EmptyHanded` | long-poll handlers, the asyncio event they wait on, its scheduled clears; when work is announced and what a handler comes back with; the first-in-first-out loop that runs them; two runs that lose a wake-up |
| `Outbox` | the worker's on-disk queue of results that could not be posted |
| `RateLimit` | the sliding-window limiter against the plain log of hits |
| `Resolver`, `Texts`, `Trees`, `Staging`, `Chaining` | `$VAR` substitution on characters and JSON trees, the same said by a grammar of names and by places in a tree, and the two-pass resolution that chains captures from test to test |
| `KeyFile`, `KeyCalls` | first-boot publication of the key file by racing processes, and that each call comes back with the key |
| `Timestamps` | ISO timestamps compared as text |
| `Maintenance` | weekly, fixed and cron maintenance windows |
| `Staleness` | stale-run alerts and their dedup table |
| `Alerts` | the alert state machine of local runs and of ingested results |

In the protocol steps are database transactions. A request handler without an `await` keeps the
event loop to itself, but the reaper, a plain function on an `AsyncIOScheduler`,
runs in a thread of its own and may act between any two transactions of a
handler. Result posts and long-poll claims, whose handlers make several, are
split accordingly; the handlers with one writing transaction are single steps.

Identifiers are opaque (uuids are assumed fresh). Instants are integers:
microseconds in the protocol and in `Timestamps`, local wall-clock microseconds
for weekly windows. The limiter's clock is real-valued. Libraries, HTTP and the
network appear only through what they can answer: a reply code, a next-fire
function, an executor of tests.

## What turned out to be conditional

Where a promise of the code or of its comments does not hold in general, the
model keeps the code as it is, exhibits the failing case and proves the exact
condition.

- **At-most-once ingestion and conservation.** `fail_runner_job` and
  `complete_runner_job` have no guard on the job's state, and the reaper works on
  a snapshot: a result may be ingested between its scan and its decision, and a
  decision may fall inside a post. `StrayFailure.DoubleIngestion` ingests one job
  twice; `StrayFailure.RequeueInsidePost` counts an attempt nobody claimed.
  `Accounting.AtMostOnceExactly`: ingestions, attempts and failures balance for
  all jobs if and only if each of these statements met a job that was assigned.
  `Accounting.OwedIsCounted` gives the amount: each of them that met anything
  else upsets one account by one. For the reaper's decisions the condition is
  the guard `requeue_runner_job` has; for a post it is that the reaper did not
  decide on its job meanwhile (`Accounting.PostMeetsAssignedExactly`).
- **Agreement of the three tables.** `StrayFailure.FailureInsidePost` leaves a
  complete job on a run in error, although the failure met an assigned job.
  `Agreement.AgreementIsExact`: the tables agree in every state of a run, jobs
  with a post under way apart, if and only if the reaper never fails a job
  between the run update and the job update of a successful post for it.
- **Finished jobs stay finished** if and only if the reaper never fails one
  (`Accounting.FinishedForeverExactly`).
- **The measure of a job** falls on every worker or reaper step that moves the
  job if and only if the step does not overwrite a job that had ended
  (`Termination.MeasureFallsExactly`; `StrayFailure.MeasureStalls` is a run where
  it does not). Jobs come to an end all the same: `Termination.TrafficIsBounded`
  bounds the moves of a job in every run, without a condition.
- **No lost wake-up.** The handler's claim and its wait look adjacent, but
  `asyncio.wait_for` runs the wait in a task of its own before Python 3.12, and
  the Dockerfile pins 3.11. On a first-in-first-out loop, a clear that is pending
  when the handler blocks runs before that task: `LateStart.WakeupCanBeLost`.
  With eager registration a handler can be left behind too, when the reaper fails
  its only candidate between its look and its claim:
  `EmptyHanded.WakeupLostWithEagerRegistration`. `LongPoll.NeverLostExactly`: a
  run loses no wake-up if and only if no wait task starts with work for it that
  nobody is about to announce, after the event was cleared since it blocked (or
  its candidates had gone when it blocked) and with no notification since; and,
  in the eager mode, no handler registers on a clear event with such work after
  its candidates had gone. `FifoLoop.LoopNeverLosesExactly` says the same of the
  loop. Two conditions that are simple to check follow. No clear and no other
  handler's resumption runs while a wait task has yet to start
  (`LongPoll.CalmRunsLoseNothing`); on the loop, none is scheduled when a handler
  blocks (`FifoLoop.FifoLosesNothing`). Both ask of the reaper to fail no queued
  job, and with eager registration that alone is enough
  (`LongPoll.NoWakeupIsEverLost`).
- **Runner binding.** The final write compares with the key read first, not with
  the key that was judged. `Binding.MoveIsJustifiedExactly`: a register that takes
  a name from key k has found k releasable if and only if the name was bound to k
  at its last check; an unjustified takeover is an A-B-A of the row, as in
  `Binding.JudgementCanBeStale`. If nobody else touches the row between the read
  and the write, every takeover is justified (`Binding.QuietMoveIsJustified`).
- **Two-pass resolution.** The second pass reads again what the first one wrote: a
  capture reference followed by text that extends its name
  (`Staging.NameIsExtended`), a reference inside a secret's value
  (`Staging.SecretIsReadAgain`), a `$` that becomes a reference, and a lone
  reference before a final newline. `Staging.SafeIsExact` is the exact condition
  over all captures, for any secrets, and `Chaining.StagedTreeIsExact` says the
  same of whole definitions.
- **Weekly windows.** Looking at today and yesterday is complete for durations
  up to a day; for longer ones exactly under the condition of
  `Maintenance.CompletenessIsExact`.
- **The two alert paths.** `ingest_runner_results` says it behaves like
  `run_app`. It does, except for crashed tests and renewed certificates:
  `Alerts.PathsAgreeExactly`. A status other than pass, fail and error can
  resolve an alert while the test stays recorded as failing:
  `Alerts.ResolveIsTruthfulExactly`.
- **Stale alerts.** Every finished run clears the dedup row, but one that ends in
  an error does not count as completed: `Staleness.ErrorRunReopensAlert`. An
  overdue pair is alerted again before `realert` has passed if and only if some
  run of it ended in between (`Staleness.EarlyAlertExactly`).
- **Key file.** On a file system without hard links, a crash of the writer
  before the last character makes every later start fail
  (`KeyFile.AbandonedForever`), and nothing else does:
  `KeyFile.CrashAbandonsExactly`, and `KeyFile.AbandonedExactly` over whole runs.

Two comments in the code disagree with the code; the model follows the code. The
one at `harness/worker_dispatch.py:168` says that `insert_run` hard-codes
`pending`, but it inserts the status it is given. `runner_heartbeat` says an
operator's drain survives a change from unhealthy to healthy, but lines 593-595
set the runner online; nothing is claimed about it.

## Model

| member | source | states |
|---|---|---|
| Protocol.RunKeepsInv | harness/worker_dispatch.py:133-377 | over every run: a queued job has no assignee, an assigned job names an existing runner, retries stay within the budget and are used up on failure, the reaper's snapshot is current, and a post is for a job not finished |
| Protocol.StepKeepsInv | harness/db/_runner_jobs.py:15-256 | the same for each single step, reaper steps inside a post included |
| Protocol.PassIsReapList | harness/worker_dispatch.py:346-368 | n decision steps in a row do what n rounds of the reaper's loop do |
| Protocol.WholePass | harness/worker_dispatch.py:344-374 | a pass with nothing in between does what the loop does with the rows of its scan, each with the retry count it had there, and leaves the reaper idle |
| Protocol.PostIsResults | harness/worker_dispatch.py:214-289 | the steps of a post, with nothing in between, do what the handler does as a whole |
| Agreement.StepAgreesExactly | harness/worker_dispatch.py:284-289 | one step keeps job and run statuses in agreement if and only if it does not fail the job of a successful post between its last two writes |
| Agreement.AgreementIsExact | harness/worker_dispatch.py:223-289 | the three tables agree in every state of a run, jobs with a post under way apart, if and only if no step of the run does that |
| Agreement.ReachableAgreement | harness/db/_runner_jobs.py:57-68 | in every state reached by such a run: no assignee and no assignment time on a queued job, an existing runner on an assigned one, and a run that is queued, complete or in error exactly as the job's state says |
| Agreement.SuppliedRunIsExact | harness/worker_dispatch.py:160-177 | with a caller-supplied run id invariant and agreement survive if and only if that run exists, is queued and has no job |
| Accounting.StepMovesOwed | harness/db/_runner_jobs.py:57-84 | a step breaks one of three promises about a job (attempts balance, ingested once, failures stand) exactly when an unguarded statement meets the job in the one state that promise is about, and then by one |
| Accounting.OwedIsCounted | harness/db/_runner_jobs.py:190-256 | over every run each account of a job moves by exactly the number of such meetings |
| Accounting.PromisesAreExact | web/routes/runner.py:412-427 | for every run and job: claims + (1 if queued) = 1 + retries + operator requeues + deletions if and only if no unguarded statement met the job queued; one ingestion if finished and none otherwise if and only if none met it finished; failures = operator requeues + (1 if failed) if and only if none met it failed |
| Accounting.AtMostOnceExactly | harness/db/_runner_jobs.py:71-84 | all three hold for all jobs if and only if every unguarded statement of the run met an assigned job |
| Accounting.FinishedLeftOnlyByFail | harness/db/_runner_jobs.py:207-225 | the row of a finished job is changed by a step if and only if that step is a reaper failure of that very job |
| Accounting.FinishedForeverExactly | harness/worker_dispatch.py:284-289 | over every run, finished rows never change if and only if no decision fails a finished job |
| Accounting.LaterPostsAreRefused | web/routes/runner.py:412-420 | from the moment a job is finished every post for it gets 409 and its row stays as it is, over every run in which the reaper does not fail it |
| Accounting.UninterruptedPassIsGuarded | harness/worker_dispatch.py:346-368 | a reaper pass that nothing interleaves with meets only assigned jobs |
| Accounting.PostMeetsAssignedExactly | web/routes/runner.py:412-460 | from its checks to its last statement a post meets its job assigned if and only if the reaper did not decide on that job in between |
| StrayFailure.DoubleIngestion | harness/db/_runner_jobs.py:212-216 | a run in which one job is ingested twice because a failure lands after its result |
| StrayFailure.RequeueInsidePost | harness/db/_runner_jobs.py:71-84 | a run in which a requeue inside a post leaves a complete job with an attempt nobody claimed |
| StrayFailure.FailureInsidePost | harness/worker_dispatch.py:284-289 | a run in which a failure between a post's last two writes leaves a complete job on a run in error |
| Ownership.AssignedSinceClaim | harness/db/_runner_jobs.py:57-62 | in every reachable state an assigned job was handed out by a claim of its assignee at its assignment time, and its row has not changed since |
| Ownership.ResultsOnlyFromTheClaimer | web/routes/runner.py:421-427 | a post passes its checks only with a key bound to the runner whose claim began the present attempt |
| Termination.MeasureFallsExactly | harness/worker_dispatch.py:348-368 | when a worker or reaper step moves a job, 2*(budget - retries) + rank(state) falls if and only if the step does not overwrite a job that had ended |
| Termination.TrafficLaw | harness/worker_dispatch.py:348-368 | over every run the moves of a job are at most what its measure lost, plus two per operator requeue, one per deletion and one per overwrite after its end |
| Termination.TrafficIsBounded | harness/worker_dispatch.py:348-368 | in every run workers and the reaper move a job at most 2*budget + 3 times, plus three times per operator requeue and once per deletion: without an operator no run keeps it going for ever |
| Termination.RetriesNeverFall | harness/db/_runner_jobs.py:190-205 | over every run a job's retry count never falls and stays within the budget |
| StrayFailure.MeasureStalls | harness/db/_runner_jobs.py:207-225 | a run whose last step moves a finished job without lowering its measure |
| Termination.AdminRaisesMeasure | web/routes/admin_runners.py:204-272 | an operator requeue buys a job exactly two more moves, deleting its runner exactly one |
| Effects.DispatchReaches | harness/db/_runner_jobs.py:15-55 | a job queued with a runner name or a tag is claimed by a runner it is meant for, unless older or equally old jobs fill its capacity, and by no other; alone in the queue, exactly by those |
| Effects.RequeueUndoesClaim | harness/db/_runner_jobs.py:190-205 | a requeue takes a claim back completely, at the price of one retry |
| Effects.DeleteUndoesClaims | harness/db/_runners.py:168-181 | deleting a runner takes back all its claims, retries untouched |
| Effects.ManualRequeueUndoesFail | harness/db/_runner_jobs.py:207-256 | an operator requeue takes a failure back: job and run are queued again, with the retries kept and the queue time renewed |
| HarnessDb.Database.OldestFirst | harness/db/_runner_jobs.py:45-55 | ORDER BY a time with an optional LIMIT: distinct rows, oldest first, and none left out is older than one chosen |
| HarnessDb.Database.SelectCandidates | harness/db/_runner_jobs.py:41-55 | the answer is the `capacity` oldest queued jobs meant for the runner: those that name it, those with no name and one of its tags, those with neither; oldest first, and no such job left out is older than one chosen |
| HarnessDb.Database.ClaimRunnerJobs | harness/db/_runner_jobs.py:34-69 | run alone, exactly these jobs become assigned to the claimer and are returned, in order; a queued job meant for it is left out only when `capacity` others, none queued later, were taken |
| HarnessDb.Database.FindStuckRunnerJobs | harness/db/_runner_jobs.py:176-188 | returns each job assigned before the cutoff once, longest assigned first, with its retry count, and no other |
| HarnessDb.Database.ManuallyRequeueFailedJob | harness/db/_runner_jobs.py:227-256 | done exactly for a failed job: it is queued without assignee, result or error, with its retries, its run is queued, and every other row is as before; otherwise nothing changes |
| HarnessDb.Database.DeleteRunner | harness/db/_runners.py:168-181 | the name is gone and nobody holds a job under it; a row that changed was assigned to it and is queued without assignee, with its retries; the number returned is that of the changed rows |
| HarnessDb.Database.UpsertRunner | harness/db/_runners.py:24-85 | refused exactly when the row has another key than the one checked; otherwise the key is set or kept, draining is kept, other rows are untouched |
| HarnessDb.QueueRemoteRun | harness/worker_dispatch.py:160-177 | the new job is queued with the given run, runner name and tag and nothing else set, on a new queued run or on the caller's; every other row is kept |
| HarnessDb.RunnerRegister | web/routes/runner.py:236-288 | refused exactly when the name belongs to another key that may not be released; otherwise bound to the caller's key |
| HarnessDb.RunnerResults | web/routes/runner.py:412-460 | run alone, the response and the new tables, for unknown jobs, jobs not assigned, foreign keys, oversized screenshots, lost runs and accepted results |
| HarnessDb.IngestRunnerResults | harness/worker_dispatch.py:214-289 | run and job end in the same final state; a missing run changes nothing |
| HarnessDb.ReapStuckJobs | harness/worker_dispatch.py:327-377 | run alone, each job assigned before the cutoff is requeued with one more retry, or failed once its budget is spent; every other row is kept; the counts add up |
| HarnessDb.ReapListRows | harness/worker_dispatch.py:346-368 | the loop touches the scanned rows, each exactly once |
| ClaimRace.ExclusiveClaim | harness/db/_runner_jobs.py:43-69 | however claimers and others interleave, every queued-to-assigned transition is in the answer of exactly one claimer, and answers contain nothing else |
| ClaimRace.TransitionsAreHits | harness/db/_runner_jobs.py:57-62 | a job becomes assigned exactly in an UPDATE with rowcount 1 |
| ClaimRace.AnswerIsWins | harness/db/_runner_jobs.py:55-69 | over every interleaving a claimer works through its candidates in order, one an update, and its answer grows by exactly those still queued when it comes to them |
| ClaimRace.ClaimAlone | harness/db/_runner_jobs.py:43-69 | with nothing in between, the SELECT and the updates do what the claim as a whole does: all candidates are assigned and are the answer |
| Binding.MovesOnlyByReader | harness/db/_runners.py:72-84 | a name leaves key k for another key only through the write of a register that read k, and only towards its own key |
| Binding.MoveIsJustifiedExactly | web/routes/runner.py:247-288 | in every run such a register has found k releasable, at its judgement, if and only if the name was bound to k when it made its last check; the row holds k at its read and at its write |
| Binding.QuietMoveIsJustified | harness/db/_runners.py:45-84 | if nobody writes or deletes the row between a register's read and its write, it has found the key it takes the name from releasable |
| Binding.AloneIsConsistent | web/routes/runner.py:247-262 | without interleaving the checks see one binding, and the request is refused exactly when that key is foreign and not releasable |
| Binding.WholeRegister | web/routes/runner.py:247-288 | a register with nothing in between, after any run, is refused exactly then, and otherwise binds the name to the caller's key and changes no other row |
| Binding.NameIsFreed | web/routes/runner.py:98-105 | deleting the runner, dropping its key and disabling it each free the name for every caller, and change no other name's refusals |
| Binding.JudgementCanBeStale | harness/db/_runners.py:72-84 | a concrete run in which a name is taken from a key nobody judged |
| LongPoll.QueuedOnlyWithNotice | harness/worker_dispatch.py:171-178 | a job becomes queued only in a step that notifies, or in a reaper pass that still owes its notification |
| Notices.NoticeExactly | harness/worker_dispatch.py:171-178 | a handler's action notifies if and only if it queues a job |
| Notices.PassNotifiesExactly | harness/worker_dispatch.py:346-371 | an undisturbed pass of the reaper notifies if and only if some row of its scan had budget left |
| Notices.ClearsBalance | harness/worker_dispatch.py:48-65 | over every run, the clears run and those still due are as many as the notifications made on the event loop; the reaper's thread schedules none |
| LongPoll.WakeupsLostExactly | web/routes/runner.py:663-717 | one step loses a wake-up if and only if it registers a waiter, or starts its wait task, with the event clear and unannounced work queued |
| LongPoll.NeverLostIffStrandFree | web/routes/runner.py:663-717 | the same over whole runs of the event loop |
| LongPoll.NeverLostExactly | web/routes/runner.py:663-717 | for every run from boot, in either mode, no wake-up is lost if and only if no wait task that the schedule made miss its announcement starts, and no eager handler whose candidates had all gone registers on a clear event, with unowed work for it |
| LongPoll.StepKeepsKnown | harness/worker_dispatch.py:48-65 | which wait tasks these are is known from the schedule: for those in the set the event is clear, and the others have missed no work that is not announced |
| LongPoll.CalmRunsLoseNothing | web/routes/runner.py:663-717 | in either mode no wake-up is lost in a run in which no clear and no resumption runs while a wait task has yet to start, and the reaper fails no queued job |
| LongPoll.NoWakeupIsEverLost | harness/worker_dispatch.py:48-65 | with eager registration, in every state of such a run, on any schedule, a blocked handler has no eligible queued job, unless the reaper is about to notify |
| PollAnswers.LeavesExactly | web/routes/runner.py:665-716 | a step ends a handler if and only if it is its timeout, its expired deadline, the finding that its key is dead, or assigns a queued job to its runner; its request never changes |
| PollAnswers.WhyItLeft | web/routes/runner.py:665-716 | over every run, whoever is gone left in one of these steps |
| PollAnswers.WakeLeadsToClaim | web/routes/runner.py:696-716 | in every state a run reaches, a woken handler whose turn it is, with a live key and work for it, can run up to its claim, which assigns it exactly the oldest jobs meant for it up to its capacity, and it leaves with them |
| PollAnswers.EnterLeadsToClaim | web/routes/runner.py:628-696 | the same for a new request |
| PollAnswers.LoopComesFree | web/routes/runner.py:665-696 | whoever holds the loop releases it within four steps of its own, and no waiting handler changes meanwhile: a woken handler has its turn |
| FifoLoop.LoopNeverLosesExactly | harness/worker_dispatch.py:52-60 | the exact condition holds of the runs of a loop that runs callbacks first in first out |
| FifoLoop.FifoLosesNothing | harness/worker_dispatch.py:52-60 | with the deferred registration of Python 3.11, on that loop, no wake-up is lost in any run from boot in which handlers block only when no clear is pending and no other handler's resumption is scheduled, and the reaper fails no queued job |
| LateStart.WakeupCanBeLost | web/routes/runner.py:709-717 | a concrete run of that loop, with a clear pending when the handler blocks, that leaves the handler beside a job it could take |
| EmptyHanded.WakeupLostWithEagerRegistration | harness/db/_runner_jobs.py:43-62 | a concrete run, with eager registration, in which the reaper fails a handler's only candidate and the handler waits beside a second job |
| Outbox.ReadUndoesRender | worker/worker.py:409-411 | reading the file back gives the entries that were written, on characters |
| Outbox.ReadByLines | worker/worker.py:396-398 | what any text reads as, line by line: a break adds nothing, and a line counts, terminated or not, unless it is blank |
| Outbox.ReadGivesEntries | worker/worker.py:396-398 | whatever text the file holds, what is read from it can be written back |
| Outbox.JsonObjectIsEntry | worker/worker.py:408-408 | a JSON object as json.dumps prints it is one non-blank line |
| Outbox.Outbox.AppendEntry | worker/worker.py:382-413 | the entry is last, the oldest are evicted while the queue is full; with a capacity below one it raises and changes nothing |
| Outbox.Outbox.FlushOne | worker/worker.py:416-473 | a well-formed head leaves the queue if and only if the code is 200-299 or 400-499, which counts as progress; any other code or a network error leaves the file as it was; a malformed head is discarded without being posted |
| Outbox.Outbox.SubmitResults | worker/worker.py:210-270 | the payload is kept, as the last entry, exactly on a network error or a code 500-599 (and a capacity of at least one); a success replays at most one entry; any other code leaves the file as it was |
| Outbox.Conservation | worker/worker.py:392-473 | over any sequence of calls: queued before + appended = delivered, refused, malformed and evicted + still queued, in this order |
| Outbox.LeftForCause | worker/worker.py:401-473 | over any sequence of calls, an entry that left was the head when it was posted and answered 200-299, or 400-499, or found malformed; or it was among the oldest when an append met a full queue |
| Outbox.Bounded | worker/worker.py:401-406 | the queue never exceeds its capacity, or what it was found with |
| Outbox.OwnEntriesParse | worker/worker.py:431-440 | a worker that starts with its own entries never discards one as malformed |
| Outbox.EvictionMeansFull | worker/worker.py:401-406 | an entry is evicted only by an append that leaves the queue exactly full |
| RateLimit.SlidingWindowLimiter.Prune | web/ratelimit.py:30-39 | drops the expired front of the key's queue, and the key when nothing is left |
| RateLimit.SlidingWindowLimiter.Sweep | web/ratelimit.py:41-44 | the same for every key |
| RateLimit.SlidingWindowLimiter.Hit | web/ratelimit.py:46-61 | the hit is logged; queues stay non-empty, sorted and in step with the log; tracked keys stay within the limit; a key is evicted only when one is due |
| RateLimit.SlidingWindowLimiter.MakeRoom | web/ratelimit.py:54-60 | sweeping comes first; the key evicted after it has the oldest latest hit |
| RateLimit.SlidingWindowLimiter.IsLimited | web/ratelimit.py:67-70 | true exactly when `max_events` logged hits since the key's last eviction lie in (now - window, now] |
| RateLimit.SlidingWindowLimiter.RetryAfter | web/ratelimit.py:72-80 | 0 exactly when not limited; otherwise past the instant the key stops being limited, by at most one second |
| RateLimit.SlidingWindowLimiter.Len | web/ratelimit.py:63-65 | never more than `max_keys` |
| RateLimit.SlidingWindowLimiter.Reset | web/ratelimit.py:82-84 | forgets every key |
| RateLimit.CountAfterSorted | web/ratelimit.py:34-37 | in a sorted log, m hits lie after a cutoff exactly when the m-th last one does |
| RateLimit.WindowIsQueue | web/ratelimit.py:30-39 | a pruned queue is exactly the part of the log inside the window |
| RateLimit.NeverOvercounts | web/ratelimit.py:67-70 | the limiter never counts more than the plain log of all hits, and counts exactly that for a key never evicted |
| RateLimit.LimitedUntil | web/ratelimit.py:76-80 | without new hits a limited key stays so until exactly when its `max_events`-th youngest hit leaves the window |
| RateLimit.WaitIsTight | web/ratelimit.py:72-80 | the computed wait is correct and tight; a non-positive `max_events` is an error |
| RateLimit.SweepKeepsLive | web/ratelimit.py:41-44 | a sweep keeps exactly the keys whose latest hit is in the window |
| Resolver.AfterRef | harness/config.py:18-23 | a reference splits the text into `$`, its name and the rest |
| Resolver.RefLenBound | harness/config.py:18-23 | a reference name holds neither `$` nor a newline, and there is one exactly at an identifier start |
| Texts.RefIsLongestName | harness/config.py:23-23 | what is matched after a `$` is the longest prefix in the grammar IDENTIFIER or IDENTIFIER#TAG, if there is any |
| Texts.WholeIsOneName | harness/config.py:18-18 | the whole-string pattern matches exactly `$NAME`, with or without a final newline |
| Texts.LookupOrder | harness/config.py:32-59 | a non-empty secret comes before the environment; a name with a tag is looked up as it stands and then without the tag |
| Texts.ReadingIsUnique | harness/config.py:23-23 | a text reads in one way as names and plain characters: no name starts at a plain `$`, and a name goes on as long as it can |
| Texts.TextLaw | harness/config.py:197-230 | a text resolves to its reading with every name that is found replaced; a name that is not found is an error, or stays when not strict; only `$NAME` before a final newline is looked up with the newline |
| Trees.ResolvedEverywhere | harness/config.py:208-213 | at every path of a tree the result has what the source has there, each string resolved, atoms, keys and shape unchanged; and resolution fails if and only if the string at some path does |
| Trees.PlacesDecide | harness/config.py:208-213 | no other tree is so at every path |
| Staging.StagedText | harness/config.py:197-230 | for safe text, resolving with seeded capture names and then with the captures equals resolving once with the captures in place |
| Staging.SafeIsExact | harness/runner.py:147-163 | the two passes agree for all captures if and only if the text is safe, a condition on the text and the first pass |
| Staging.ScanCompares | harness/config.py:18-23 | the second scan finds at least the captures in at most the other text, and exactly these if and only if the text is safe |
| Staging.UnsafeDiffers | harness/config.py:222-230 | for text that is not safe, long enough captures give different results |
| Staging.InsertedScan | harness/config.py:222-230 | in an inserted value the second scan finds extra references exactly when one starts inside it, read together with what follows |
| Staging.SecretIsReadAgain | harness/runner.py:180-185 | a secret `a$b` becomes `a1` once a test captures `b` as `1` |
| Staging.NameIsExtended | harness/runner.py:180-185 | `$A$B` with a capture of A next to a secret B is an error in the second pass |
| Staging.BoundLookup | harness/config.py:32-59 | a name is a seeded capture, its own or through its `#` fallback, or is looked up alike in both ways |
| Chaining.StagedTree | harness/config.py:208-216 | whole definitions whose strings are all safe resolve the same in two passes and in one |
| Chaining.StagedTreeIsExact | harness/runner.py:147-163 | the two passes agree on a definition for all captures if and only if every string in it is safe |
| Chaining.RunSequential | harness/runner.py:147-202 | test n runs on a definition that holds, at every path, the text of the source resolved in two passes with the captures of the tests before it, and for safe text resolved once with these captures in place of secrets of the same name; or it is not run, exactly when some string does not resolve. A setup error exactly when some string of the definition does not resolve or its resolved URLs are refused |
| Chaining.LatestCapture | harness/runner.py:201-202 | a name stands for what the last test that captured it found |
| Chaining.CaptureNamesExactly | harness/runner.py:147-151 | the names seeded are the keys under `extract` of some test, and no others |
| Chaining.ExtractsKept | harness/config.py:208-210 | resolution keeps keys, so a test captures under the names it announced |
| KeyFile.RoundTrip | harness/secrets_store.py:113-114 | decoding undoes encoding for every byte string |
| KeyFile.JunkIsSkipped | harness/secrets_store.py:58-63 | characters outside the two alphabets make no difference, wherever they are |
| KeyFile.PrefixIsShort | harness/secrets_store.py:58-63 | no proper prefix of an encoding decodes to as many bytes |
| KeyFile.OnlyTheWholeFileIsAKey | harness/secrets_store.py:58-63 | of all prefixes of a 32-byte key's file only the whole file yields a key, and it yields that key |
| KeyFile.DecodeKey | harness/secrets_store.py:58-63 | an accepted key has 32 bytes |
| KeyFile.StepKeepsKeyInv | harness/secrets_store.py:66-138 | every step of every process keeps file and processes consistent and never changes a readable key |
| KeyFile.PublishedForever | harness/secrets_store.py:104-138 | a key that was readable once is the file's key for ever |
| KeyFile.KeyAgreement | harness/secrets_store.py:66-138 | any number of processes racing through check, link, exclusive create, partial writes, crashes and reads: all that return, then or later, hold the same key |
| KeyFile.LinkedFilesAreComplete | harness/secrets_store.py:117-129 | with hard links no half-written file is ever visible and the corrupt-file error cannot be raised |
| KeyFile.CrashAbandonsExactly | harness/secrets_store.py:89-101 | a crash leaves an unreadable file nobody is writing if and only if it hits the fallback's writer before the last character |
| KeyFile.AbandonedForever | harness/secrets_store.py:66-86 | such a file stays unreadable and no process returns any more |
| KeyFile.AbandonedExactly | harness/secrets_store.py:89-138 | over every run the file ends up so if and only if it was so at the start or some crash cut a writer of the fallback short |
| KeyCalls.AloneOnKeyFile | harness/secrets_store.py:66-106 | a call run alone on a file that holds a key returns that key and leaves the file |
| KeyCalls.AloneByLink | harness/secrets_store.py:104-129 | run alone in an empty directory, with links, it returns its own key and leaves it in the file |
| KeyCalls.AloneByFallback | harness/secrets_store.py:89-138 | the same without links, however the text is cut into writes |
| KeyCalls.CanMove | harness/secrets_store.py:66-138 | a process under way always has a step that is neither a crash nor the timeout |
| KeyCalls.EveryoneReturns | harness/secrets_store.py:66-138 | on every schedule in which no crash cuts a writer short and every process under way moves in every round, a process that neither crashes nor times out returns the key in the file, after a number of rounds fixed by where it and the file are |
| Timestamps.TextOrderIsTimeOrder | harness/worker_dispatch.py:343-345 | for all valid UTC instants the order of the texts is the order of time, with and without a fraction, and equal texts are equal instants |
| Timestamps.TextScanIsExact | harness/db/_runner_jobs.py:176-188 | comparing the stored text with the cutoff's text selects a job exactly when the time line says it is stuck |
| Timestamps.PadOrder | harness/db/_runner_jobs.py:181-187 | zero-padded numbers of one width compare as text the way they compare as numbers |
| Timestamps.MicrosByFields | harness/worker_dispatch.py:343-344 | the time line orders instants by year, month, day and clock, through the leap-year rules |
| Timestamps.NextInstant | harness/worker_dispatch.py:343-344 | from any instant to the next, across seconds, days, month ends and leap years, the time line goes up by exactly one |
| Timestamps.IsoShape | harness/worker_dispatch.py:343-345 | a stored text has 25 characters, or 32 with a fraction, and ends in +00:00 |
| Maintenance.WeeklyWindowActive | harness/maintenance.py:102-169 | true exactly when today's or yesterday's window is open; never true without an open window; never false with one under the condition below |
| Maintenance.LengthLaw | harness/maintenance.py:154-164 | a window stays open for its duration, or else until the clock next shows its end time |
| Maintenance.CompletenessIsExact | harness/maintenance.py:143-169 | looking at two days misses no moment if and only if the windows end by the end of the day after they open, or the target days leave no gap |
| Maintenance.TwoDaysSuffice | harness/maintenance.py:143-169 | under that condition an open window of any day implies that today's or yesterday's is open |
| Maintenance.UpToADayIsExact | harness/maintenance.py:154-164 | every end-time window, wrapping midnight or not, and every duration up to 1440 minutes satisfies it |
| Maintenance.MissedMoment | harness/maintenance.py:143-169 | otherwise midnight of the second day after is inside a window and is missed |
| Maintenance.CronWindowActive | harness/maintenance.py:79-99 | the loop ends and returns true exactly when some firing f has now - duration < f <= now |
| Maintenance.WindowActive | harness/maintenance.py:238-261 | one window, which may carry several kinds: open by any of them |
| Maintenance.IsInMaintenance | harness/maintenance.py:193-263 | what is named is an enabled, matching, open window; it is the first such one and None means there is none, when every weekly window is decidable |
| Staleness.StaleDatabase.GetAppLastFinishedAt | harness/db/_app_state.py:120-127 | the latest finish among completed runs |
| Staleness.LastFinishedIsMax | harness/db/_app_state.py:120-127 | no completed run of the pair finished later |
| Staleness.LastFinishedIsRecorded | harness/db/_app_state.py:120-127 | and one completed run finished then |
| Staleness.StaleDatabase.CheckPair | harness/staleness.py:77-97 | an alert is raised and marked exactly when the pair is not muted, overdue and not recently alerted |
| Staleness.StaleDatabase.FindStaleApps | harness/staleness.py:49-98 | the check's alerts and marks are those of visiting, in order, every declared environment of every app |
| Staleness.AlertsAreApart | harness/staleness.py:87-92 | two alerts for a pair with no finished run in between are at least `realert` apart, whatever the clock does in between (for a negative setting, while it does not run backwards) |
| Staleness.RateBound | harness/staleness.py:87-92 | a closed interval of length L without a finished run holds at most floor(L / realert) + 1 alerts for a pair |
| Staleness.AlertMeansOverdue | harness/staleness.py:81-86 | each alert is raised with the age of every completed run of the pair above the threshold |
| Staleness.EarlyAlertExactly | harness/staleness.py:77-92 | an unmuted visit of an overdue pair, less than `realert` after its last alert, alerts again if and only if a run of the pair ended in between |
| Staleness.AlertsExactly | harness/staleness.py:77-97 | over any history a visit alerts if and only if the pair is not muted, has completed runs that are all older than the threshold, and its last alert, if any, is at least `realert` ago or was followed by the end of a run of the pair |
| Staleness.MarkExactly | harness/db/_app_state.py:92-118 | after an alert the dedup row holds its time until a run of the pair ends, and is absent from then on |
| Staleness.CompletionSilences | harness/staleness.py:81-86 | whatever happens after a completed run, no visit alerts for the pair until the threshold has passed from that run |
| Alerts.AppStates.RunAppLoop | harness/runner.py:211-284 | the local loop records and alerts as its per-outcome rule says, over every result list and start state |
| Alerts.AppStates.IngestLoop | harness/worker_dispatch.py:228-282 | the same for the ingest loop; it leaves the same states as the local loop |
| Alerts.PathsAgreeExactly | harness/worker_dispatch.py:197-200 | the two paths send the same alerts if and only if no test crashed that was not recorded as failing and no certificate counts as renewed |
| Alerts.OrdinaryResultsAgree | harness/runner.py:239-284 | for results that are neither crashes nor TLS results the paths always agree, for any status |
| Alerts.AlertsExactly | harness/runner.py:20-26 | on either path FAIL is sent exactly for a result `fail` or `error`, or a crash a worker reports, of a test not recorded as failing; RESOLVE exactly for any other result of one that is, or a renewed certificate; never two alerts |
| Alerts.AlertsAreChanges | harness/runner.py:253-266 | for results pass, fail and error, FAIL is sent exactly when the record turns failing and RESOLVE exactly when it stops to be |
| Alerts.FailsAreSeparated | harness/runner.py:20-26 | over any history of local results, remote results, crashes, renewals and baseline approvals, between two FAIL alerts for a test a passing state was recorded for it |
| Alerts.ResolveIsTruthfulExactly | harness/runner.py:20-26 | RESOLVE is only said of tests now recorded as passing exactly for the statuses pass, fail and error |

## Left out

- HTTP, authentication, scopes, sessions, CSRF, audit rows, screenshots, webhooks and alert delivery: only table effects, messages and response classes are modelled.
- SQLite itself: a statement is atomic and a connection block is one transaction. A handler that dies between its transactions is not modelled.
- HarnessDb.Database.UpdateRunStatus: the `started_at` column, which nothing modelled here reads.
- Two reapers at once: `Protocol` has a single one, as the scheduler runs it.
- Retention pruning: it can remove a run that a failed job still points to, so it is not a step of `Protocol`.
- Draining and version checks: a runner's status is read once when a long poll starts, so a claim may follow a drain; `Protocol` therefore lets any registered runner claim, which includes every claim the code allows.
- LongPoll.NoWakeupIsEverLost: stated for eager registration only, because with the deferred registration it fails; LongPoll.NeverLostExactly covers both.
- LateStart.WakeupCanBeLost: says nothing of how long the handler then sleeps, which the requested wait of at most 60 seconds bounds; that the reaper thread sets the event without waking the selector is a delay and not modelled.
- HarnessDb.Database.ClaimRunnerJobs: candidates queued at the same instant come in any order, as SQL leaves it open.
- HarnessDb.ReapStuckJobs: it is the pass run alone, as ClaimRunnerJobs and RunnerResults are; texts of error messages are abstracted to a constant.
- Outbox: overlapping calls, because `outbox_flush_one` awaits between reading and rewriting the file; I/O errors; the order between a payload that is posted directly and those queued.
- RateLimit: the lock makes each call one step; floating-point rounding is not modelled; the clock does not go back; `max_keys` is at least 1.
- Staging.SafeIsExact: capture names are identifiers; a name no plain `$NAME` can spell is not covered.
- Resolver: values are strings, as secrets, environment and captures are; `None` stands for a ConfigError whatever its text.
- Chaining.RunSequential: the execution of a test is a function of its position and its resolved definition, and captures only names its `extract:` announces; retries, timeouts and the parallel branch are not modelled.
- KeyFile: permissions, missing directories and unlinking of the temporary file; the file is never deleted; the key derived from the raw key.
- Maintenance.WeeklyWindowActive: parsing of day names, times and zones; names in `_matches_target` are taken as already stripped and lower-cased; the database's own pre-filter of windows.
- Maintenance.CronWindowActive: cron matching is a next-fire function over whole seconds; the rewriting of day-of-week fields is not modelled.
- Staleness: runs that fail to start or are failed by the reaper, which neither count as completed nor clear the dedup row.
- Alerts: `since` times, stored results, suppression during maintenance; the extraction of certificate data from step logs, whose outcome is an input. Renewal notices and error messages are told apart by kind, not by wording.
- The worker's capacity accounting in its poll loop, heartbeats and volume checks: they would only add easy members.
- Slugs, version comparison, redaction, exports, metrics, analytics and the front end: no hard state to speak of.
