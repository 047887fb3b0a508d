/**
 Whose results are accepted: an assigned job goes back, unchanged, to one claim,
 and only the runner that made it can post the job's result.
 */
module Ownership {
  import opened Wrappers
  import opened Tables
  import opened Protocol

  /** A row becomes `assigned`, or changes while it is, only in a claim of it. */
  lemma AssignedOnlyByClaim(maxRetries: int, s: Sys, a: Action, j: JobId)
    requires Possible(s, a)
    requires j in Apply(maxRetries, s, a).t.jobs && Apply(maxRetries, s, a).t.jobs[j].state == Assigned
    requires !(j in s.t.jobs && Apply(maxRetries, s, a).t.jobs[j] == s.t.jobs[j])
    ensures a.Claim? && j in a.ids && j in s.t.jobs && s.t.jobs[j].state == Queued
    ensures Apply(maxRetries, s, a).t.jobs[j] == Assign(s.t.jobs[j], a.name, a.now)
  {
  }

  /** The row of job j after the first k actions of the run. */
  ghost predicate RowAfter(maxRetries: int, run: seq<Action>, k: nat, j: JobId, row: Job)
    requires k <= |run|
  {
    && Legal(maxRetries, INIT, run[..k])
    && j in Exec(maxRetries, INIT, run[..k]).t.jobs && Exec(maxRetries, INIT, run[..k]).t.jobs[j] == row
  }

  /** In every reachable state an assigned job was handed out by a claim of its
      assignee, at its assignment time, and its row has not changed since. */
  lemma {:induction false} AssignedSinceClaim(maxRetries: int, run: seq<Action>, j: JobId) returns (i: nat)
    requires Legal(maxRetries, INIT, run) && j in Exec(maxRetries, INIT, run).t.jobs
    requires Exec(maxRetries, INIT, run).t.jobs[j].state == Assigned
    ensures i < |run| && run[i].Claim? && j in run[i].ids
    ensures
      var row := Exec(maxRetries, INIT, run).t.jobs[j];
      && row.assignedTo == Some(run[i].name) && row.assignedAt == Some(run[i].now)
      && forall k: nat :: i < k <= |run| ==> RowAfter(maxRetries, run, k, j, row)
    decreases run
  {
    var n := |run| - 1;
    var front, a := run[..n], run[n];
    SplitLast(maxRetries, INIT, run);
    var s, s' := Exec(maxRetries, INIT, front), Exec(maxRetries, INIT, run);
    assert run[..|run|] == run;
    if j in s.t.jobs && s'.t.jobs[j] == s.t.jobs[j] {
      i := AssignedSinceClaim(maxRetries, front, j);
      forall k: nat | i < k <= n
        ensures RowAfter(maxRetries, run, k, j, s'.t.jobs[j])
      {
        assert RowAfter(maxRetries, front, k, j, s.t.jobs[j]);
        assert front[..k] == run[..k];
      }
    } else {
      AssignedOnlyByClaim(maxRetries, s, a, j);
      i := n;
    }
  }

  /** A post passes its checks only with a key bound to the runner whose claim
      began the present attempt: whatever was delayed, duplicated or replayed from
      an earlier attempt of another runner is turned away. */
  lemma ResultsOnlyFromTheClaimer(maxRetries: int, run: seq<Action>, id: JobId, key: KeyId) returns (i: nat)
    requires Legal(maxRetries, INIT, run)
    requires ResultsResponse(Exec(maxRetries, INIT, run).t, id, key) == Ok200
    ensures i < |run| && run[i].Claim? && id in run[i].ids
    ensures
      var s := Exec(maxRetries, INIT, run);
      && run[i].name in s.t.runners && s.t.runners[run[i].name].key == Some(key)
      && id in s.t.jobs && forall k: nat :: i < k <= |run| ==> RowAfter(maxRetries, run, k, id, s.t.jobs[id])
  {
    i := AssignedSinceClaim(maxRetries, run, id);
  }
}
