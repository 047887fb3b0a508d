/**
 At-most-once ingestion and the conservation of attempts, over whole runs. Two
 statements change a job's state without looking at it: fail_runner_job and
 complete_runner_job. This module shows that they are the only ways to upset the
 books, and by how much.
 */
module Accounting {
  import opened Wrappers
  import opened Tables
  import opened Protocol

  /** The step runs one of the two statements without a guard, on job j. */
  predicate Overwrites(maxRetries: int, s: Sys, a: Action, j: JobId) {
    || (a.ReaperDecide? && Fails(maxRetries, s) && s.reaper.todo[0].id == j)
    || (a.PostFinish? && Posting(s, j))
  }

  /** What such a step can find when it does not find the job assigned. */
  datatype Found = InQueue | Ended | GivenUp

  predicate Finds(state: JobState, f: Found) {
    match f
    case InQueue => state.Queued?
    case Ended => state.Finished()
    case GivenUp => state.Failed?
  }

  // ---- three promises about a job's history, and three accounts ---------------

  /** Each way into the queue was claimed once: claims + (1 if queued) = 1 +
      retries + operator requeues + deletions. */
  predicate AttemptsBalance(job: Job, c: Counts) {
    c.claims + (if job.state.Queued? then 1 else 0) == 1 + job.retries + c.manual + c.deletes
  }

  /** A result was ingested once if the job is finished, and never otherwise. */
  predicate IngestedOnce(job: Job, c: Counts) {
    c.ingests == if job.state.Finished() then 1 else 0
  }

  /** Each failure stands, or an operator undid it. */
  predicate FailuresStand(job: Job, c: Counts) {
    c.fails == c.manual + if job.state.Failed? then 1 else 0
  }

  function Deficit(job: Job, c: Counts, f: Found): int {
    match f
    case InQueue => 1 + job.retries + c.manual + c.deletes - c.claims - (if job.state.Queued? then 1 else 0)
    case Ended => c.ingests - (if job.state.Finished() then 1 else 0)
    case GivenUp => c.fails - c.manual - (if job.state.Failed? then 1 else 0)
  }

  /** By how much a promise is broken for job j; 0 while there is no such job. */
  function Owed(s: Sys, j: JobId, f: Found): int {
    if j in s.t.jobs && j in s.log then Deficit(s.t.jobs[j], s.log[j], f) else 0
  }

  predicate Strays(maxRetries: int, s: Sys, a: Action, j: JobId, f: Found) {
    j in s.t.jobs && Overwrites(maxRetries, s, a, j) && Finds(s.t.jobs[j].state, f)
  }

  lemma ClaimKeepsOwed(maxRetries: int, s: Sys, a: Action, j: JobId, f: Found)
    requires s.log.Keys == s.t.jobs.Keys && Possible(s, a) && a.Claim?
    ensures Owed(Apply(maxRetries, s, a), j, f) == Owed(s, j, f)
  {
  }

  lemma OperatorKeepsOwed(maxRetries: int, s: Sys, a: Action, j: JobId, f: Found)
    requires s.log.Keys == s.t.jobs.Keys && Possible(s, a) && (a.DeleteRunner? || a.AdminRequeue?)
    ensures Owed(Apply(maxRetries, s, a), j, f) == Owed(s, j, f)
  {
  }

  lemma DecisionMovesOwed(maxRetries: int, s: Sys, a: Action, j: JobId, f: Found)
    requires s.log.Keys == s.t.jobs.Keys && Possible(s, a) && a.ReaperDecide?
    ensures Owed(Decide(maxRetries, s, a.now), j, f)
            == Owed(s, j, f) + if Strays(maxRetries, s, a, j, f) then 1 else 0
  {
    if j != s.reaper.todo[0].id {
      assert j in s.t.jobs ==> Decide(maxRetries, s, a.now).t.jobs[j] == s.t.jobs[j];
    }
  }

  lemma FinishMovesOwed(maxRetries: int, s: Sys, a: Action, j: JobId, f: Found)
    requires s.log.Keys == s.t.jobs.Keys && Possible(s, a) && a.PostFinish?
    ensures Owed(FinishPost(s, s.post.value, a.now), j, f)
            == Owed(s, j, f) + if Strays(maxRetries, s, a, j, f) then 1 else 0
  {
  }

  lemma OthersKeepOwed(maxRetries: int, s: Sys, a: Action, j: JobId, f: Found)
    requires s.log.Keys == s.t.jobs.Keys && Possible(s, a)
    requires !a.Claim? && !a.DeleteRunner? && !a.AdminRequeue? && !a.ReaperDecide? && !a.PostFinish?
    ensures Owed(Apply(maxRetries, s, a), j, f) == Owed(s, j, f)
  {
  }

  /** A step breaks a promise for a job exactly when it overwrites the job in the
      one state that promise is about, and then by one. */
  lemma StepMovesOwed(maxRetries: int, s: Sys, a: Action, j: JobId, f: Found)
    requires s.log.Keys == s.t.jobs.Keys && Possible(s, a)
    ensures Owed(Apply(maxRetries, s, a), j, f)
            == Owed(s, j, f) + if Strays(maxRetries, s, a, j, f) then 1 else 0
  {
    if a.Claim? {
      ClaimKeepsOwed(maxRetries, s, a, j, f);
    } else if a.DeleteRunner? || a.AdminRequeue? {
      OperatorKeepsOwed(maxRetries, s, a, j, f);
    } else if a.ReaperDecide? {
      DecisionMovesOwed(maxRetries, s, a, j, f);
    } else if a.PostFinish? {
      FinishMovesOwed(maxRetries, s, a, j, f);
    } else {
      OthersKeepOwed(maxRetries, s, a, j, f);
    }
  }

  /** How often an overwriting step of the run finds job j like that. */
  ghost function StrayCount(maxRetries: int, s: Sys, run: seq<Action>, j: JobId, f: Found): nat
    requires Legal(maxRetries, s, run)
    decreases run
  {
    if run == [] then 0
    else (if Strays(maxRetries, s, run[0], j, f) then 1 else 0)
         + StrayCount(maxRetries, Apply(maxRetries, s, run[0]), run[1..], j, f)
  }

  /** The law of conservation: over any run each account of a job moves by exactly
      the number of overwriting steps that found it in the account's state. */
  lemma {:induction false} OwedIsCounted(maxRetries: int, s: Sys, run: seq<Action>, j: JobId, f: Found)
    requires Inv(maxRetries, s) && Legal(maxRetries, s, run)
    ensures Owed(Exec(maxRetries, s, run), j, f) == Owed(s, j, f) + StrayCount(maxRetries, s, run, j, f)
    decreases run
  {
    if run == [] {
    } else {
      StepMovesOwed(maxRetries, s, run[0], j, f);
      StepKeepsInv(maxRetries, s, run[0]);
      OwedIsCounted(maxRetries, Apply(maxRetries, s, run[0]), run[1..], j, f);
    }
  }

  /** Over every run and for every job, each promise is kept if and only if no
      overwriting step found the job in the one state that breaks it. */
  lemma PromisesAreExact(maxRetries: int, run: seq<Action>, j: JobId)
    requires Legal(maxRetries, INIT, run) && j in Exec(maxRetries, INIT, run).t.jobs
    ensures j in Exec(maxRetries, INIT, run).log
    ensures
      var s := Exec(maxRetries, INIT, run);
      var job, c := s.t.jobs[j], s.log[j];
      && (AttemptsBalance(job, c) <==> StrayCount(maxRetries, INIT, run, j, InQueue) == 0)
      && (IngestedOnce(job, c) <==> StrayCount(maxRetries, INIT, run, j, Ended) == 0)
      && (FailuresStand(job, c) <==> StrayCount(maxRetries, INIT, run, j, GivenUp) == 0)
  {
    RunKeepsInv(maxRetries, INIT, run);
    OwedIsCounted(maxRetries, INIT, run, j, InQueue);
    OwedIsCounted(maxRetries, INIT, run, j, Ended);
    OwedIsCounted(maxRetries, INIT, run, j, GivenUp);
  }

  /** Every overwriting step meets an assigned job: the state check that
      requeue_runner_job makes and the other two statements do not. */
  predicate Guarded(maxRetries: int, s: Sys, a: Action) {
    forall j :: j in s.t.jobs && Overwrites(maxRetries, s, a, j) ==> s.t.jobs[j].state == Assigned
  }

  ghost predicate GuardedRun(maxRetries: int, s: Sys, run: seq<Action>)
    requires Legal(maxRetries, s, run)
    decreases run
  {
    run == [] ||
    (Guarded(maxRetries, s, run[0]) && GuardedRun(maxRetries, Apply(maxRetries, s, run[0]), run[1..]))
  }

  lemma {:induction false} GuardedHasNoStray(maxRetries: int, s: Sys, run: seq<Action>, j: JobId, f: Found)
    requires Legal(maxRetries, s, run) && GuardedRun(maxRetries, s, run)
    ensures StrayCount(maxRetries, s, run, j, f) == 0
    decreases run
  {
    if run == [] {
    } else {
      GuardedHasNoStray(maxRetries, Apply(maxRetries, s, run[0]), run[1..], j, f);
    }
  }

  lemma {:induction false} UnguardedHasStray(maxRetries: int, s: Sys, run: seq<Action>) returns (j: JobId, f: Found)
    requires Legal(maxRetries, s, run) && !GuardedRun(maxRetries, s, run)
    ensures StrayCount(maxRetries, s, run, j, f) > 0
    decreases run
  {
    if !Guarded(maxRetries, s, run[0]) {
      j :| j in s.t.jobs && Overwrites(maxRetries, s, run[0], j) && s.t.jobs[j].state != Assigned;
      f := match s.t.jobs[j].state case Queued => InQueue case Failed => GivenUp case _ => Ended;
      assert Strays(maxRetries, s, run[0], j, f);
    } else {
      j, f := UnguardedHasStray(maxRetries, Apply(maxRetries, s, run[0]), run[1..]);
    }
  }

  /** All promises for one job. */
  predicate JobInOrder(s: Sys, j: JobId) {
    j in s.t.jobs && j in s.log && AttemptsBalance(s.t.jobs[j], s.log[j])
    && IngestedOnce(s.t.jobs[j], s.log[j]) && FailuresStand(s.t.jobs[j], s.log[j])
  }

  /** At-most-once ingestion, conservation of attempts and lasting failures, for
      all jobs, if and only if every overwriting step met an assigned job. */
  lemma AtMostOnceExactly(maxRetries: int, run: seq<Action>)
    requires Legal(maxRetries, INIT, run)
    ensures (forall j :: j in Exec(maxRetries, INIT, run).t.jobs ==> JobInOrder(Exec(maxRetries, INIT, run), j))
       <==> GuardedRun(maxRetries, INIT, run)
  {
    var s := Exec(maxRetries, INIT, run);
    if GuardedRun(maxRetries, INIT, run) {
      forall j | j in s.t.jobs ensures JobInOrder(s, j) {
        PromisesAreExact(maxRetries, run, j);
        GuardedHasNoStray(maxRetries, INIT, run, j, InQueue);
        GuardedHasNoStray(maxRetries, INIT, run, j, Ended);
        GuardedHasNoStray(maxRetries, INIT, run, j, GivenUp);
      }
    } else {
      var j, f := UnguardedHasStray(maxRetries, INIT, run);
      OwedIsCounted(maxRetries, INIT, run, j, f);
      assert j in s.t.jobs && !JobInOrder(s, j);
    }
  }

  // ---- finished jobs -----------------------------------------------------------------

  /** The step fails a finished job. */
  predicate FailsFinished(maxRetries: int, s: Sys, a: Action, j: JobId) {
    && a.ReaperDecide? && Fails(maxRetries, s) && s.reaper.todo[0].id == j
    && j in s.t.jobs && s.t.jobs[j].state.Finished()
  }

  lemma OthersKeepFinished(maxRetries: int, s: Sys, a: Action, j: JobId)
    requires s.log.Keys == s.t.jobs.Keys && PostOk(s) && Possible(s, a) && !a.ReaperDecide?
    requires j in s.t.jobs && s.t.jobs[j].state.Finished()
    ensures j in Apply(maxRetries, s, a).t.jobs && Apply(maxRetries, s, a).t.jobs[j] == s.t.jobs[j]
  {
  }

  /** One step changes the row of a finished job exactly when the reaper fails
      that very job. */
  lemma FinishedLeftOnlyByFail(maxRetries: int, s: Sys, a: Action, j: JobId)
    requires Inv(maxRetries, s) && Possible(s, a)
    requires j in s.t.jobs && s.t.jobs[j].state.Finished()
    ensures j in Apply(maxRetries, s, a).t.jobs
    ensures Apply(maxRetries, s, a).t.jobs[j] != s.t.jobs[j] <==> FailsFinished(maxRetries, s, a, j)
  {
    if a.ReaperDecide? {
      if j != s.reaper.todo[0].id { DecideTouchesHeadOnly(maxRetries, s, a.now, j); }
    } else {
      OthersKeepFinished(maxRetries, s, a, j);
    }
  }

  /** No step of the run changes the row of a job that is finished by then. */
  ghost predicate KeepsFinished(maxRetries: int, s: Sys, run: seq<Action>)
    requires Legal(maxRetries, s, run)
    decreases run
  {
    run == [] ||
    (var s' := Apply(maxRetries, s, run[0]);
     && (forall j :: j in s.t.jobs && s.t.jobs[j].state.Finished() ==> j in s'.t.jobs && s'.t.jobs[j] == s.t.jobs[j])
     && KeepsFinished(maxRetries, s', run[1..]))
  }

  ghost predicate NeverFailsFinished(maxRetries: int, s: Sys, run: seq<Action>)
    requires Legal(maxRetries, s, run)
    decreases run
  {
    run == [] ||
    ((forall j :: j in s.t.jobs ==> !FailsFinished(maxRetries, s, run[0], j))
     && NeverFailsFinished(maxRetries, Apply(maxRetries, s, run[0]), run[1..]))
  }

  /** `complete` and `error` are never left, over the whole run, if and only if no
      decision of the reaper fails a finished job. */
  lemma {:induction false} FinishedForeverExactly(maxRetries: int, s: Sys, run: seq<Action>)
    requires Inv(maxRetries, s) && Legal(maxRetries, s, run)
    ensures KeepsFinished(maxRetries, s, run) <==> NeverFailsFinished(maxRetries, s, run)
    decreases run
  {
    if run == [] {
    } else {
      var s' := Apply(maxRetries, s, run[0]);
      StepKeepsInv(maxRetries, s, run[0]);
      FinishedForeverExactly(maxRetries, s', run[1..]);
      forall j | j in s.t.jobs && s.t.jobs[j].state.Finished()
        ensures j in s'.t.jobs && (s'.t.jobs[j] != s.t.jobs[j] <==> FailsFinished(maxRetries, s, run[0], j))
      {
        FinishedLeftOnlyByFail(maxRetries, s, run[0], j);
      }
    }
  }

  /** The reaper fails job j at no step of the run that finds it finished. */
  ghost predicate NeverFailsIt(maxRetries: int, s: Sys, run: seq<Action>, j: JobId)
    requires Legal(maxRetries, s, run)
    decreases run
  {
    run == [] ||
    (!FailsFinished(maxRetries, s, run[0], j)
     && NeverFailsIt(maxRetries, Apply(maxRetries, s, run[0]), run[1..], j))
  }

  /** From the moment a job is finished, every post for it is refused with 409,
      whoever sends it and however often, for as long as the reaper does not fail
      the job; and its row stays as it is. */
  lemma {:induction false} LaterPostsAreRefused(maxRetries: int, s: Sys, run: seq<Action>, j: JobId, key: KeyId)
    requires Inv(maxRetries, s) && Legal(maxRetries, s, run) && NeverFailsIt(maxRetries, s, run, j)
    requires j in s.t.jobs && s.t.jobs[j].state.Finished()
    ensures j in Exec(maxRetries, s, run).t.jobs && Exec(maxRetries, s, run).t.jobs[j] == s.t.jobs[j]
    ensures ResultsResponse(Exec(maxRetries, s, run).t, j, key) == Conflict409
    decreases run
  {
    if run == [] {
    } else {
      StepKeepsInv(maxRetries, s, run[0]);
      FinishedLeftOnlyByFail(maxRetries, s, run[0], j);
      LaterPostsAreRefused(maxRetries, Apply(maxRetries, s, run[0]), run[1..], j, key);
    }
  }

  // ---- when the guard is met --------------------------------------------------------

  /** A pass that nothing interleaves with is guarded: right after the scan
      every remembered job is assigned, and each decision touches one of them. */
  lemma {:induction false} UninterruptedPassIsGuarded(maxRetries: int, s: Sys, run: seq<Action>)
    requires Inv(maxRetries, s) && Legal(maxRetries, s, run)
    requires s.reaper.Reaping?
    requires forall i :: 0 <= i < |s.reaper.todo| ==>
               s.reaper.todo[i].id in s.t.jobs && s.t.jobs[s.reaper.todo[i].id].state == Assigned
    requires forall i :: 0 <= i < |run| ==> run[i].ReaperDecide?
    ensures GuardedRun(maxRetries, s, run)
    decreases run
  {
    if run == [] {
    } else {
      var s' := Apply(maxRetries, s, run[0]);
      StepKeepsInv(maxRetries, s, run[0]);
      forall i | 0 <= i < |s'.reaper.todo|
        ensures s'.reaper.todo[i].id in s'.t.jobs && s'.t.jobs[s'.reaper.todo[i].id].state == Assigned
      {
        assert s'.reaper.todo[i] == s.reaper.todo[i + 1];
        assert s.reaper.todo[0].id != s.reaper.todo[i + 1].id;
      }
      UninterruptedPassIsGuarded(maxRetries, s', run[1..]);
    }
  }

  /** The reaper decides on the job of the post under way. */
  predicate DecidesOnPost(s: Sys, a: Action) {
    a.ReaperDecide? && s.reaper.Reaping? && s.reaper.todo != [] && Posting(s, s.reaper.todo[0].id)
  }

  /** Inside a post the job stays assigned exactly until a decision on it. */
  lemma PostStaysAssignedStep(maxRetries: int, s: Sys, a: Action)
    requires Inv(maxRetries, s) && Possible(s, a) && s.post.Some? && !a.PostFinish?
    ensures
      var s', id := Apply(maxRetries, s, a), s.post.value.id;
      && s'.post.Some? && s'.post.value.id == id && id in s'.t.jobs
      && (s'.t.jobs[id].state == Assigned <==> s.t.jobs[id].state == Assigned && !DecidesOnPost(s, a))
  {
    if a.ReaperDecide? && s.reaper.todo[0].id != s.post.value.id {
      DecideTouchesHeadOnly(maxRetries, s, a.now, s.post.value.id);
    }
  }

  ghost predicate LeavesPostAlone(maxRetries: int, s: Sys, run: seq<Action>)
    requires Legal(maxRetries, s, run)
    decreases run
  {
    run == [] ||
    (!DecidesOnPost(s, run[0]) && LeavesPostAlone(maxRetries, Apply(maxRetries, s, run[0]), run[1..]))
  }

  /** From its checks to its last statement, a post meets its job assigned if and
      only if the reaper did not decide on that job in between. */
  lemma {:induction false} PostMeetsAssignedExactly(maxRetries: int, s: Sys, run: seq<Action>)
    requires Inv(maxRetries, s) && Legal(maxRetries, s, run)
    requires s.post.Some? && s.t.jobs[s.post.value.id].state == Assigned
    requires forall i :: 0 <= i < |run| ==> !run[i].PostFinish?
    ensures
      var s', id := Exec(maxRetries, s, run), s.post.value.id;
      && s'.post.Some? && s'.post.value.id == id && id in s'.t.jobs
      && (s'.t.jobs[id].state == Assigned <==> LeavesPostAlone(maxRetries, s, run))
    decreases run
  {
    if run == [] {
    } else {
      var s' := Apply(maxRetries, s, run[0]);
      PostStaysAssignedStep(maxRetries, s, run[0]);
      StepKeepsInv(maxRetries, s, run[0]);
      if s'.t.jobs[s.post.value.id].state == Assigned {
        PostMeetsAssignedExactly(maxRetries, s', run[1..]);
      } else {
        PostStaysMoved(maxRetries, s', run[1..]);
      }
    }
  }

  lemma {:induction false} PostStaysMoved(maxRetries: int, s: Sys, run: seq<Action>)
    requires Inv(maxRetries, s) && Legal(maxRetries, s, run)
    requires s.post.Some? && s.t.jobs[s.post.value.id].state != Assigned
    requires forall i :: 0 <= i < |run| ==> !run[i].PostFinish?
    ensures
      var s', id := Exec(maxRetries, s, run), s.post.value.id;
      s'.post.Some? && s'.post.value.id == id && id in s'.t.jobs && s'.t.jobs[id].state != Assigned
    decreases run
  {
    if run == [] {
    } else {
      PostStaysAssignedStep(maxRetries, s, run[0]);
      StepKeepsInv(maxRetries, s, run[0]);
      PostStaysMoved(maxRetries, Apply(maxRetries, s, run[0]), run[1..]);
    }
  }
}
