/**
 No run keeps a job going for ever without operator help. A measure of the job's
 row falls on every move but one kind: an overwrite of a job that had ended. Those
 moves are few, because each uses up a place in the reaper's list or a post.
 */
module Termination {
  import opened Wrappers
  import opened Tables
  import opened Protocol
  import opened Accounting

  function Rank(state: JobState): nat {
    match state
    case Queued => 2
    case Assigned => 1
    case Complete => 0
    case Errored => 0
    case Failed => 0
  }

  function Measure(maxRetries: int, job: Job): int {
    2 * (Budget(maxRetries) - job.retries) + Rank(job.state)
  }

  /** Steps an operator takes; everything else is worker and reaper traffic. */
  predicate IsAdmin(a: Action) { a.AdminRequeue? || a.DeleteRunner? }

  ghost predicate Moves(maxRetries: int, s: Sys, a: Action, j: JobId)
    requires Possible(s, a)
  {
    j in s.t.jobs && j in Apply(maxRetries, s, a).t.jobs && Apply(maxRetries, s, a).t.jobs[j] != s.t.jobs[j]
  }

  /** The step overwrites a job that had come to an end. */
  predicate Revives(maxRetries: int, s: Sys, a: Action, j: JobId) {
    Strays(maxRetries, s, a, j, Ended) || Strays(maxRetries, s, a, j, GivenUp)
  }

  lemma RevivalKeepsMeasure(maxRetries: int, s: Sys, a: Action, j: JobId)
    requires Possible(s, a) && Revives(maxRetries, s, a, j)
    ensures j in Apply(maxRetries, s, a).t.jobs
    ensures Measure(maxRetries, Apply(maxRetries, s, a).t.jobs[j]) == Measure(maxRetries, s.t.jobs[j])
  {
  }

  lemma TrafficDecreasesMeasure(maxRetries: int, s: Sys, a: Action, j: JobId)
    requires Inv(maxRetries, s) && Possible(s, a) && !Revives(maxRetries, s, a, j)
    requires j in s.t.jobs && !IsAdmin(a)
    ensures j in Apply(maxRetries, s, a).t.jobs
    ensures Measure(maxRetries, Apply(maxRetries, s, a).t.jobs[j])
            <= Measure(maxRetries, s.t.jobs[j]) - (if Moves(maxRetries, s, a, j) then 1 else 0)
  {
    match a
    case Dispatch(_, _, _, _, _) =>
    case PutRunner(_, _) =>
    case Claim(_, _, _) =>
    case PostCheck(_, _, _) =>
    case PostMark =>
    case PostEndRun(_) =>
    case PostFinish(_) =>
    case ReaperScan(_, _) =>
    case ReaperDecide(_) =>
    case ReaperEnd =>
    case LocalRun(_, _) =>
  }

  /** When a worker or reaper step moves a job, its measure falls if and only if
      the step does not bring the job back from its end. */
  lemma MeasureFallsExactly(maxRetries: int, s: Sys, a: Action, j: JobId)
    requires Inv(maxRetries, s) && Possible(s, a) && !IsAdmin(a) && Moves(maxRetries, s, a, j)
    ensures Measure(maxRetries, Apply(maxRetries, s, a).t.jobs[j]) < Measure(maxRetries, s.t.jobs[j])
       <==> !Revives(maxRetries, s, a, j)
  {
    if Revives(maxRetries, s, a, j) {
      RevivalKeepsMeasure(maxRetries, s, a, j);
    } else {
      TrafficDecreasesMeasure(maxRetries, s, a, j);
    }
  }

  lemma MeasureIsNatural(maxRetries: int, s: Sys, j: JobId)
    requires Inv(maxRetries, s) && j in s.t.jobs
    ensures 0 <= Measure(maxRetries, s.t.jobs[j]) <= 2 * Budget(maxRetries) + 2
  {
    assert RowOk(maxRetries, s.t, j);
  }

  /** An operator requeue buys a job two more moves, deleting its runner one. */
  lemma AdminRaisesMeasure(maxRetries: int, s: Sys, a: Action, j: JobId)
    requires Inv(maxRetries, s) && Possible(s, a) && j in s.t.jobs && IsAdmin(a)
    ensures
      var s' := Apply(maxRetries, s, a);
      && j in s'.t.jobs && j in s'.log
      && Measure(maxRetries, s'.t.jobs[j]) - Measure(maxRetries, s.t.jobs[j])
         == 2 * (s'.log[j].manual - s.log[j].manual) + (s'.log[j].deletes - s.log[j].deletes)
  {
  }

  lemma CountsUntouchedByTraffic(maxRetries: int, s: Sys, a: Action, j: JobId)
    requires Inv(maxRetries, s) && Possible(s, a) && j in s.t.jobs && !IsAdmin(a)
    ensures j in Apply(maxRetries, s, a).log
    ensures Apply(maxRetries, s, a).log[j].manual == s.log[j].manual
    ensures Apply(maxRetries, s, a).log[j].deletes == s.log[j].deletes
  {
  }

  /** Worker and reaper steps of the run that move job j. */
  ghost function Traffic(maxRetries: int, s: Sys, run: seq<Action>, j: JobId): nat
    requires Legal(maxRetries, s, run)
    decreases run
  {
    if run == [] then 0
    else (if !IsAdmin(run[0]) && Moves(maxRetries, s, run[0], j) then 1 else 0)
         + Traffic(maxRetries, Apply(maxRetries, s, run[0]), run[1..], j)
  }

  ghost function Revivals(maxRetries: int, s: Sys, run: seq<Action>, j: JobId): nat
    requires Legal(maxRetries, s, run)
  {
    StrayCount(maxRetries, s, run, j, Ended) + StrayCount(maxRetries, s, run, j, GivenUp)
  }

  /** The law, for every run: the moves of a job are paid for by its measure, by
      operators, and by revivals. */
  lemma {:induction false} TrafficLaw(maxRetries: int, s: Sys, run: seq<Action>, j: JobId)
    requires Inv(maxRetries, s) && Legal(maxRetries, s, run) && j in s.t.jobs
    ensures
      var s' := Exec(maxRetries, s, run);
      && j in s'.t.jobs && j in s'.log
      && Traffic(maxRetries, s, run, j) + Measure(maxRetries, s'.t.jobs[j])
         <= Measure(maxRetries, s.t.jobs[j]) + Revivals(maxRetries, s, run, j)
            + 2 * (s'.log[j].manual - s.log[j].manual) + (s'.log[j].deletes - s.log[j].deletes)
    decreases run
  {
    if run == [] {
    } else {
      var a := run[0];
      StepKeepsInv(maxRetries, s, a);
      if IsAdmin(a) {
        AdminRaisesMeasure(maxRetries, s, a, j);
      } else {
        CountsUntouchedByTraffic(maxRetries, s, a, j);
        if Revives(maxRetries, s, a, j) {
          RevivalKeepsMeasure(maxRetries, s, a, j);
        } else {
          TrafficDecreasesMeasure(maxRetries, s, a, j);
        }
      }
      TrafficLaw(maxRetries, Apply(maxRetries, s, a), run[1..], j);
    }
  }

  // ---- termination in every run ---------------------------------------------------

  predicate InList(s: Sys, j: JobId) {
    s.reaper.Reaping? && exists i :: 0 <= i < |s.reaper.todo| && s.reaper.todo[i].id == j
  }

  /** What can still move a job that has ended: the reaper's list, or a post. A
      job that has not ended may yet meet one of the two. */
  function Threats(s: Sys, j: JobId): nat
    requires j in s.t.jobs
  {
    if Rank(s.t.jobs[j].state) > 0 then 1
    else (if InList(s, j) then 1 else 0) + (if Posting(s, j) then 1 else 0)
  }

  function Potential(maxRetries: int, s: Sys, j: JobId): int
    requires j in s.t.jobs
  {
    Measure(maxRetries, s.t.jobs[j]) + Threats(s, j)
  }

  /** The two threats exclude each other: the reaper's list holds no failed job,
      and a post is for no finished one. */
  lemma OneThreat(maxRetries: int, s: Sys, j: JobId)
    requires Inv(maxRetries, s) && j in s.t.jobs
    ensures Threats(s, j) <= 1
    ensures 0 <= Potential(maxRetries, s, j) <= 2 * Budget(maxRetries) + 3
  {
    MeasureIsNatural(maxRetries, s, j);
  }

  lemma DecideLowersPotential(maxRetries: int, s: Sys, a: Action, j: JobId)
    requires Inv(maxRetries, s) && Possible(s, a) && a.ReaperDecide? && j in s.t.jobs
    ensures j in Apply(maxRetries, s, a).t.jobs
    ensures Potential(maxRetries, Apply(maxRetries, s, a), j)
            <= Potential(maxRetries, s, j) - (if Moves(maxRetries, s, a, j) then 1 else 0)
  {
    var s' := Apply(maxRetries, s, a);
    OneThreat(maxRetries, s, j);
    StepKeepsInv(maxRetries, s, a);
    ListShrinks(maxRetries, s, a.now, j);
    if j != s.reaper.todo[0].id {
      DecideTouchesHeadOnly(maxRetries, s, a.now, j);
    } else if Revives(maxRetries, s, a, j) {
      RevivalKeepsMeasure(maxRetries, s, a, j);
    } else {
      TrafficDecreasesMeasure(maxRetries, s, a, j);
      OneThreat(maxRetries, s', j);
    }
  }

  /** A decision takes its own job off the list, and puts none on it. */
  lemma ListShrinks(maxRetries: int, s: Sys, now: int, j: JobId)
    requires SnapshotCurrent(s) && s.reaper.Reaping? && s.reaper.todo != []
    ensures InList(Decide(maxRetries, s, now), j) ==> InList(s, j)
    ensures !InList(Decide(maxRetries, s, now), s.reaper.todo[0].id) && InList(s, s.reaper.todo[0].id)
  {
    var rest := Decide(maxRetries, s, now).reaper.todo;
    assert forall i :: 0 <= i < |rest| ==> rest[i] == s.reaper.todo[i + 1];
  }

  lemma FinishLowersPotential(maxRetries: int, s: Sys, a: Action, j: JobId)
    requires Inv(maxRetries, s) && Possible(s, a) && a.PostFinish? && j in s.t.jobs
    ensures j in Apply(maxRetries, s, a).t.jobs
    ensures Potential(maxRetries, Apply(maxRetries, s, a), j)
            <= Potential(maxRetries, s, j) - (if Moves(maxRetries, s, a, j) then 1 else 0)
  {
    var s' := Apply(maxRetries, s, a);
    StepKeepsInv(maxRetries, s, a);
    assert InList(s', j) == InList(s, j);
    if Posting(s, j) {
      if Revives(maxRetries, s, a, j) {
        RevivalKeepsMeasure(maxRetries, s, a, j);
      } else {
        TrafficDecreasesMeasure(maxRetries, s, a, j);
        OneThreat(maxRetries, s', j);
      }
    }
  }

  lemma OthersLowerPotential(maxRetries: int, s: Sys, a: Action, j: JobId)
    requires Inv(maxRetries, s) && Possible(s, a) && j in s.t.jobs
    requires !IsAdmin(a) && !a.ReaperDecide? && !a.PostFinish?
    ensures j in Apply(maxRetries, s, a).t.jobs
    ensures Potential(maxRetries, Apply(maxRetries, s, a), j)
            <= Potential(maxRetries, s, j) - (if Moves(maxRetries, s, a, j) then 1 else 0)
  {
    TrafficDecreasesMeasure(maxRetries, s, a, j);
    NoNewThreat(maxRetries, s, a, j);
  }

  /** Only jobs in progress are scanned, posted or claimed. */
  lemma NoNewThreat(maxRetries: int, s: Sys, a: Action, j: JobId)
    requires Inv(maxRetries, s) && Possible(s, a) && j in s.t.jobs
    requires !IsAdmin(a) && !a.ReaperDecide? && !a.PostFinish?
    ensures j in Apply(maxRetries, s, a).t.jobs && Threats(Apply(maxRetries, s, a), j) <= Threats(s, j)
  {
    var s' := Apply(maxRetries, s, a);
    if a.ReaperScan? {
      assert forall i :: 0 <= i < |s'.reaper.todo| ==> s'.reaper.todo[i].id == a.ids[i] && a.ids[i] in a.ids;
    } else if !a.ReaperEnd? {
      assert s'.reaper == s.reaper;
    }
  }

  lemma StepLowersPotential(maxRetries: int, s: Sys, a: Action, j: JobId)
    requires Inv(maxRetries, s) && Possible(s, a) && j in s.t.jobs && !IsAdmin(a)
    ensures j in Apply(maxRetries, s, a).t.jobs
    ensures Potential(maxRetries, Apply(maxRetries, s, a), j)
            <= Potential(maxRetries, s, j) - (if Moves(maxRetries, s, a, j) then 1 else 0)
  {
    if a.ReaperDecide? {
      DecideLowersPotential(maxRetries, s, a, j);
    } else if a.PostFinish? {
      FinishLowersPotential(maxRetries, s, a, j);
    } else {
      OthersLowerPotential(maxRetries, s, a, j);
    }
  }

  lemma AdminRaisesPotential(maxRetries: int, s: Sys, a: Action, j: JobId)
    requires Inv(maxRetries, s) && Possible(s, a) && j in s.t.jobs && IsAdmin(a)
    ensures
      var s' := Apply(maxRetries, s, a);
      && j in s'.t.jobs && j in s'.log
      && Potential(maxRetries, s', j) - Potential(maxRetries, s, j)
         <= 3 * (s'.log[j].manual - s.log[j].manual) + (s'.log[j].deletes - s.log[j].deletes)
  {
    var s' := Apply(maxRetries, s, a);
    AdminRaisesMeasure(maxRetries, s, a, j);
    assert s'.reaper == s.reaper && s'.post == s.post;
  }

  lemma {:induction false} PotentialPays(maxRetries: int, s: Sys, run: seq<Action>, j: JobId)
    requires Inv(maxRetries, s) && Legal(maxRetries, s, run) && j in s.t.jobs
    ensures
      var s' := Exec(maxRetries, s, run);
      && j in s'.t.jobs && j in s'.log && Inv(maxRetries, s')
      && Traffic(maxRetries, s, run, j) + Potential(maxRetries, s', j)
         <= Potential(maxRetries, s, j)
            + 3 * (s'.log[j].manual - s.log[j].manual) + (s'.log[j].deletes - s.log[j].deletes)
    decreases run
  {
    if run == [] {
    } else {
      var a := run[0];
      StepKeepsInv(maxRetries, s, a);
      if IsAdmin(a) {
        AdminRaisesPotential(maxRetries, s, a, j);
      } else {
        StepLowersPotential(maxRetries, s, a, j);
        CountsUntouchedByTraffic(maxRetries, s, a, j);
      }
      PotentialPays(maxRetries, Apply(maxRetries, s, a), run[1..], j);
    }
  }

  /** In every run workers and the reaper move a job at most 2 * budget + 3 times,
      plus three times per operator requeue and once per deletion. */
  lemma TrafficIsBounded(maxRetries: int, s: Sys, run: seq<Action>, j: JobId)
    requires Inv(maxRetries, s) && Legal(maxRetries, s, run) && j in s.t.jobs
    ensures
      var s' := Exec(maxRetries, s, run);
      && j in s'.t.jobs && j in s'.log
      && Traffic(maxRetries, s, run, j)
         <= 2 * Budget(maxRetries) + 3
            + 3 * (s'.log[j].manual - s.log[j].manual) + (s'.log[j].deletes - s.log[j].deletes)
  {
    PotentialPays(maxRetries, s, run, j);
    OneThreat(maxRetries, s, j);
    OneThreat(maxRetries, Exec(maxRetries, s, run), j);
  }

  /** A job's retry count never falls, and stays within the budget. */
  lemma {:induction false} RetriesNeverFall(maxRetries: int, s: Sys, run: seq<Action>, j: JobId)
    requires Inv(maxRetries, s) && Legal(maxRetries, s, run) && j in s.t.jobs
    ensures j in Exec(maxRetries, s, run).t.jobs
    ensures s.t.jobs[j].retries <= Exec(maxRetries, s, run).t.jobs[j].retries <= Budget(maxRetries)
    decreases run
  {
    if run == [] {
      assert RowOk(maxRetries, s.t, j);
    } else {
      StepKeepsInv(maxRetries, s, run[0]);
      StepKeepsRetries(maxRetries, s, run[0], j);
      RetriesNeverFall(maxRetries, Apply(maxRetries, s, run[0]), run[1..], j);
    }
  }

  lemma StepKeepsRetries(maxRetries: int, s: Sys, a: Action, j: JobId)
    requires Inv(maxRetries, s) && Possible(s, a) && j in s.t.jobs
    ensures j in Apply(maxRetries, s, a).t.jobs
    ensures s.t.jobs[j].retries <= Apply(maxRetries, s, a).t.jobs[j].retries
  {
    if !a.Dispatch? && !a.ReaperDecide? {
      OthersKeepRetries(maxRetries, s, a);
    }
  }
}
