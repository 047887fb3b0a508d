/**
 Agreement of the three tables in every reachable state, and exactly when it can
 be lost: the reaper fails a job in the moment between a post's last write to the
 run and its write to the job.
 */
module Agreement {
  import opened Wrappers
  import opened Tables
  import opened Protocol

  function RunStatusFor(state: JobState): RunStatus {
    match state
    case Queued => RunQueued
    case Assigned => RunQueued
    case Complete => RunComplete
    case Errored => RunError
    case Failed => RunError
  }

  /** The run's status is the one the job's state calls for. */
  predicate StatusAgrees(t: Tables, j: JobId)
    requires j in t.jobs
  {
    t.jobs[j].run in t.runs && t.runs[t.jobs[j].run].status == RunStatusFor(t.jobs[j].state)
  }

  /** What the agreement promises: every job agrees with its run, unless its
      result is being posted at this moment. */
  ghost predicate Visible(s: Sys) {
    forall j :: j in s.t.jobs && !Posting(s, j) ==> StatusAgrees(s.t, j)
  }

  /** A post that has ended the run finds the run as it left it. */
  predicate PostInStep(s: Sys) {
    AtStage(s, RunEnded) ==>
      && s.post.value.id in s.t.jobs && s.t.jobs[s.post.value.id].run in s.t.runs
      && s.t.runs[s.t.jobs[s.post.value.id].run].status == Outcome(s.post.value.error)
  }

  ghost predicate Agreed(s: Sys) { Visible(s) && PostInStep(s) }

  /** The reaper is about to fail the job of a post that has ended the run with
      success and has yet to finish the job. */
  predicate Tears(maxRetries: int, s: Sys, a: Action) {
    && a.ReaperDecide? && Fails(maxRetries, s)
    && AtStage(s, RunEnded) && s.post.value.id == s.reaper.todo[0].id && s.post.value.error.None?
  }

  lemma DecideKeepsVisible(maxRetries: int, s: Sys, now: int, j: JobId)
    requires Inv(maxRetries, s) && Agreed(s) && s.reaper.Reaping? && s.reaper.todo != []
    requires j in s.t.jobs && !Posting(s, j)
    ensures j in Decide(maxRetries, s, now).t.jobs && StatusAgrees(Decide(maxRetries, s, now).t, j)
  {
    var head := s.reaper.todo[0];
    assert head.id in s.t.jobs && RowOk(maxRetries, s.t, j);
    if j != head.id {
      DecideTouchesHeadOnly(maxRetries, s, now, j);
    }
  }

  lemma DecideKeepsPostInStep(maxRetries: int, s: Sys, now: int)
    requires Inv(maxRetries, s) && Agreed(s) && s.reaper.Reaping? && s.reaper.todo != []
    ensures PostInStep(Decide(maxRetries, s, now)) <==> !Tears(maxRetries, s, ReaperDecide(now))
  {
    if AtStage(s, RunEnded) {
      var head, id := s.reaper.todo[0], s.post.value.id;
      assert head.id in s.t.jobs && RowOk(maxRetries, s.t, id);
      if id != head.id {
        DecideTouchesHeadOnly(maxRetries, s, now, id);
      }
    }
  }

  lemma ClaimKeepsVisible(maxRetries: int, s: Sys, a: Action, j: JobId)
    requires Possible(s, a) && a.Claim? && j in s.t.jobs && StatusAgrees(s.t, j)
    ensures j in Apply(maxRetries, s, a).t.jobs && StatusAgrees(Apply(maxRetries, s, a).t, j)
  {
  }

  lemma DeleteKeepsVisible(maxRetries: int, s: Sys, a: Action, j: JobId)
    requires Possible(s, a) && a.DeleteRunner? && j in s.t.jobs && StatusAgrees(s.t, j)
    ensures j in Apply(maxRetries, s, a).t.jobs && StatusAgrees(Apply(maxRetries, s, a).t, j)
  {
  }

  lemma AdminKeepsVisible(maxRetries: int, s: Sys, a: Action, j: JobId)
    requires Possible(s, a) && a.AdminRequeue? && OneJobPerRun(s.t) && j in s.t.jobs && StatusAgrees(s.t, j)
    ensures j in Apply(maxRetries, s, a).t.jobs && StatusAgrees(Apply(maxRetries, s, a).t, j)
  {
  }

  lemma FinishKeepsVisible(maxRetries: int, s: Sys, a: Action, j: JobId)
    requires Possible(s, a) && a.PostFinish? && PostInStep(s)
    requires j in s.t.jobs && (!Posting(s, j) ==> StatusAgrees(s.t, j))
    ensures j in Apply(maxRetries, s, a).t.jobs && StatusAgrees(Apply(maxRetries, s, a).t, j)
  {
  }

  lemma JobMovesKeepVisible(maxRetries: int, s: Sys, a: Action, j: JobId)
    requires Inv(maxRetries, s) && Agreed(s) && Possible(s, a) && MovesJobs(a) && j in s.t.jobs
    ensures j in Apply(maxRetries, s, a).t.jobs && StatusAgrees(Apply(maxRetries, s, a).t, j)
  {
    assert !Posting(s, j) ==> StatusAgrees(s.t, j);
    if a.Claim? {
      ClaimKeepsVisible(maxRetries, s, a, j);
    } else if a.DeleteRunner? {
      DeleteKeepsVisible(maxRetries, s, a, j);
    } else if a.AdminRequeue? {
      AdminKeepsVisible(maxRetries, s, a, j);
    } else {
      FinishKeepsVisible(maxRetries, s, a, j);
    }
  }

  lemma OthersKeepVisible(maxRetries: int, s: Sys, a: Action, j: JobId)
    requires Inv(maxRetries, s) && Agreed(s) && Possible(s, a) && !a.ReaperDecide? && !MovesJobs(a)
    requires j in Apply(maxRetries, s, a).t.jobs && !Posting(Apply(maxRetries, s, a), j)
    ensures StatusAgrees(Apply(maxRetries, s, a).t, j)
  {
    if j in s.t.jobs { assert RowOk(maxRetries, s.t, j); }
    assert s.post.Some? ==> RowOk(maxRetries, s.t, s.post.value.id);
  }

  lemma OthersKeepPostInStep(maxRetries: int, s: Sys, a: Action)
    requires Inv(maxRetries, s) && Agreed(s) && Possible(s, a) && !a.ReaperDecide?
    ensures PostInStep(Apply(maxRetries, s, a))
  {
    assert s.post.Some? ==> RowOk(maxRetries, s.t, s.post.value.id);
  }

  /** One step keeps the agreement exactly when it does not tear a post. */
  lemma StepAgreesExactly(maxRetries: int, s: Sys, a: Action)
    requires Inv(maxRetries, s) && Agreed(s) && Possible(s, a)
    ensures Agreed(Apply(maxRetries, s, a)) <==> !Tears(maxRetries, s, a)
  {
    var s' := Apply(maxRetries, s, a);
    if MovesJobs(a) { StepKeepsFrame(maxRetries, s, a); }
    if a.ReaperDecide? {
      forall j | j in s'.t.jobs && !Posting(s', j) ensures StatusAgrees(s'.t, j) {
        DecideKeepsVisible(maxRetries, s, a.now, j);
      }
      DecideKeepsPostInStep(maxRetries, s, a.now);
    } else {
      forall j | j in s'.t.jobs && !Posting(s', j) ensures StatusAgrees(s'.t, j) {
        if MovesJobs(a) {
          JobMovesKeepVisible(maxRetries, s, a, j);
        } else {
          OthersKeepVisible(maxRetries, s, a, j);
        }
      }
      OthersKeepPostInStep(maxRetries, s, a);
    }
  }

  // ---- over whole runs ------------------------------------------------------

  /** The agreement holds in every state of the run. */
  ghost predicate AlwaysVisible(maxRetries: int, s: Sys, run: seq<Action>)
    requires Legal(maxRetries, s, run)
    decreases run
  {
    Visible(s) && (run == [] || AlwaysVisible(maxRetries, Apply(maxRetries, s, run[0]), run[1..]))
  }

  ghost predicate NeverTears(maxRetries: int, s: Sys, run: seq<Action>)
    requires Legal(maxRetries, s, run)
    decreases run
  {
    run == [] ||
    (!Tears(maxRetries, s, run[0]) && NeverTears(maxRetries, Apply(maxRetries, s, run[0]), run[1..]))
  }

  /** A successful post whose run has been put in error under it. */
  ghost predicate Torn(s: Sys) {
    && AtStage(s, RunEnded) && s.post.value.error.None?
    && s.post.value.id in s.t.jobs && s.t.jobs[s.post.value.id].run in s.t.runs
    && s.t.runs[s.t.jobs[s.post.value.id].run].status == RunError
  }

  lemma TornUntilFinished(maxRetries: int, s: Sys, a: Action)
    requires Inv(maxRetries, s) && Torn(s) && Possible(s, a)
    ensures Torn(Apply(maxRetries, s, a)) || !Visible(Apply(maxRetries, s, a))
  {
    var id := s.post.value.id;
    if a.ReaperDecide? {
      if s.reaper.todo[0].id != id { DecideTouchesHeadOnly(maxRetries, s, a.now, id); }
    } else if a.PostFinish? {
      var s' := Apply(maxRetries, s, a);
      assert id in s'.t.jobs && !Posting(s', id) && !StatusAgrees(s'.t, id);
    }
  }

  /** Once torn, the disagreement shows before the post is over. */
  lemma {:induction false} TornShows(maxRetries: int, s: Sys, run: seq<Action>)
    requires Inv(maxRetries, s) && Torn(s) && Legal(maxRetries, s, run)
    requires Exec(maxRetries, s, run).post.None?
    ensures !AlwaysVisible(maxRetries, s, run)
    decreases run
  {
    if run == [] {
    } else {
      var s' := Apply(maxRetries, s, run[0]);
      TornUntilFinished(maxRetries, s, run[0]);
      StepKeepsInv(maxRetries, s, run[0]);
      if Torn(s') {
        TornShows(maxRetries, s', run[1..]);
      } else {
        assert run[1..] == [] || !AlwaysVisible(maxRetries, s', run[1..]);
      }
    }
  }

  lemma TearingTears(maxRetries: int, s: Sys, a: Action)
    requires Inv(maxRetries, s) && Possible(s, a) && Tears(maxRetries, s, a)
    ensures Torn(Apply(maxRetries, s, a))
  {
    assert RowOk(maxRetries, s.t, s.post.value.id);
  }

  /** The three tables agree in every state of a run, jobs with a post under way
      apart, exactly when the reaper never fails a job between the run update
      and the job update of a successful post for it. */
  lemma {:induction false} AgreementIsExact(maxRetries: int, s: Sys, run: seq<Action>)
    requires Inv(maxRetries, s) && Agreed(s) && Legal(maxRetries, s, run)
    requires Exec(maxRetries, s, run).post.None?
    ensures AlwaysVisible(maxRetries, s, run) <==> NeverTears(maxRetries, s, run)
    decreases run
  {
    if run == [] {
    } else {
      var s' := Apply(maxRetries, s, run[0]);
      StepAgreesExactly(maxRetries, s, run[0]);
      StepKeepsInv(maxRetries, s, run[0]);
      if Tears(maxRetries, s, run[0]) {
        TearingTears(maxRetries, s, run[0]);
        TornShows(maxRetries, s', run[1..]);
      } else {
        AgreementIsExact(maxRetries, s', run[1..]);
      }
    }
  }

  lemma {:induction false} RunKeepsAgreed(maxRetries: int, s: Sys, run: seq<Action>)
    requires Inv(maxRetries, s) && Agreed(s) && Legal(maxRetries, s, run) && NeverTears(maxRetries, s, run)
    ensures Inv(maxRetries, Exec(maxRetries, s, run)) && Agreed(Exec(maxRetries, s, run))
    decreases run
  {
    if run == [] {
    } else {
      StepAgreesExactly(maxRetries, s, run[0]);
      StepKeepsInv(maxRetries, s, run[0]);
      RunKeepsAgreed(maxRetries, Apply(maxRetries, s, run[0]), run[1..]);
    }
  }

  /** What the agreement says of one job: a queued job has no assignee, an
      assigned one names an existing runner, and the run says what the job says. */
  ghost predicate Agrees(t: Tables, j: JobId)
    requires j in t.jobs
  {
    && StatusAgrees(t, j)
    && (t.jobs[j].state.Queued? ==> t.jobs[j].assignedTo.None? && t.jobs[j].assignedAt.None?)
    && (t.jobs[j].state.Assigned? ==>
          t.jobs[j].assignedTo.Some? && t.jobs[j].assignedTo.value in t.runners && t.jobs[j].assignedAt.Some?)
  }

  lemma ReachableAgreement(maxRetries: int, run: seq<Action>, j: JobId)
    requires Legal(maxRetries, INIT, run) && NeverTears(maxRetries, INIT, run)
    requires j in Exec(maxRetries, INIT, run).t.jobs && !Posting(Exec(maxRetries, INIT, run), j)
    ensures Agrees(Exec(maxRetries, INIT, run).t, j)
  {
    RunKeepsAgreed(maxRetries, INIT, run);
    assert RowOk(maxRetries, Exec(maxRetries, INIT, run).t, j);
  }

  // ---- a caller-supplied run id -------------------------------------------------

  /** The state after queue_remote_run with a caller-supplied run id. */
  function WithSuppliedRun(s: Sys, id: JobId, run: RunId, pin: Option<Name>, tag: Option<Tag>, now: int): Sys {
    s.(t := s.t.(jobs := s.t.jobs[id := NewJob(run, pin, tag, now)]), log := s.log[id := NO_COUNTS])
  }

  /** The run exists, waits in `queued`, and carries no job yet. */
  ghost predicate FreeQueuedRun(s: Sys, run: RunId) {
    && run in s.t.runs && s.t.runs[run].status == RunQueued
    && (forall j :: j in s.t.jobs ==> s.t.jobs[j].run != run)
  }

  lemma SuppliedRunKeepsInv(maxRetries: int, s: Sys, id: JobId, run: RunId,
                            pin: Option<Name>, tag: Option<Tag>, now: int)
    requires Inv(maxRetries, s) && Agreed(s) && s.post.None? && id !in s.t.jobs && FreeQueuedRun(s, run)
    ensures Inv(maxRetries, WithSuppliedRun(s, id, run, pin, tag, now))
    ensures Agreed(WithSuppliedRun(s, id, run, pin, tag, now))
  {
    var s' := WithSuppliedRun(s, id, run, pin, tag, now);
    forall j | j in s'.t.jobs ensures RowOk(maxRetries, s'.t, j) && StatusAgrees(s'.t, j) {
      if j != id {
        assert RowOk(maxRetries, s.t, j) && StatusAgrees(s.t, j);
      }
    }
  }

  /** queue_remote_run with a caller-supplied run id trusts it: invariant and
      agreement survive exactly when that run exists, is queued and has no job. */
  lemma SuppliedRunIsExact(maxRetries: int, s: Sys, id: JobId, run: RunId,
                           pin: Option<Name>, tag: Option<Tag>, now: int)
    requires Inv(maxRetries, s) && Agreed(s) && s.post.None? && id !in s.t.jobs
    ensures
      var s' := WithSuppliedRun(s, id, run, pin, tag, now);
      Inv(maxRetries, s') && Agreed(s') <==> FreeQueuedRun(s, run)
  {
    var s' := WithSuppliedRun(s, id, run, pin, tag, now);
    if FreeQueuedRun(s, run) {
      SuppliedRunKeepsInv(maxRetries, s, id, run, pin, tag, now);
    } else if Inv(maxRetries, s') && Agreed(s') {
      assert StatusAgrees(s'.t, id);
      forall j | j in s.t.jobs ensures s.t.jobs[j].run != run {
        assert s'.t.jobs[j].run != s'.t.jobs[id].run;
      }
      assert false;
    }
  }
}
