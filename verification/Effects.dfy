/**
 How the statements on the job table reach, undo and override each other.
 */
module Effects {
  import opened Wrappers
  import opened Tables

  /** A queued job as every statement leaves it: without an assignee. */
  predicate Unassigned(job: Job) { job.state == Queued && job.assignedTo.None? && job.assignedAt.None? }

  /** A job just queued goes to the runners it is meant for and to no others: it is
      claimed by one of them unless older or equally old jobs fill its capacity, and
      alone in the queue it is claimed exactly by them. */
  lemma DispatchReaches(t: Tables, id: JobId, run: RunId, pin: Option<Name>, tag: Option<Tag>, at: int,
                        name: Name, tags: set<Tag>, capacity: int, ids: seq<JobId>, now: int)
    requires capacity >= 1
    requires IsCandidateList(QueueRemote(t, id, run, pin, tag, at).jobs, name, tags, capacity, ids)
    ensures
      var queued := QueueRemote(t, id, run, pin, tag, at).jobs;
      var claimed := AssignAll(queued, (set j | j in ids), name, now);
      var meant := if pin.Some? then pin.value == name else tag.None? || tag.value in tags;
      && (claimed[id].state == Assigned ==> claimed[id].assignedTo == Some(name) && meant)
      && (claimed[id].state != Assigned && meant ==>
            |ids| == capacity && forall j :: j in ids ==> queued[j].queuedAt <= at)
      && (t.jobs == map[] ==> (claimed[id].state == Assigned <==> meant))
  {
    var queued := QueueRemote(t, id, run, pin, tag, at).jobs;
    assert queued[id] == Job(run, pin, tag, Queued, at, None, None, None, None, 0);
    if t.jobs == map[] && ids != [] {
      assert ids[0] in queued;
    }
  }

  /** A requeue undoes the claim before it, at the price of one retry. */
  lemma RequeueUndoesClaim(t: Tables, id: JobId, name: Name, now: int)
    requires id in t.jobs && Unassigned(t.jobs[id])
    ensures Requeue(t.(jobs := AssignAll(t.jobs, {id}, name, now)), id)
            == t.(jobs := t.jobs[id := t.jobs[id].(retries := t.jobs[id].retries + 1)])
  {
    var claimed := AssignAll(t.jobs, {id}, name, now);
    assert Requeue(t.(jobs := claimed), id).jobs == t.jobs[id := t.jobs[id].(retries := t.jobs[id].retries + 1)];
  }

  /** Deleting a runner undoes its claims completely, however many there were. */
  lemma DeleteUndoesClaims(t: Tables, ids: set<JobId>, name: Name, now: int)
    requires forall j :: j in t.jobs ==> !HeldBy(t.jobs[j], name)
    requires forall j :: j in ids && j in t.jobs && t.jobs[j].state == Queued ==> Unassigned(t.jobs[j])
    ensures DropRunner(t.(jobs := AssignAll(t.jobs, ids, name, now)), name) == t.(runners := t.runners - {name})
  {
    assert DropRunner(t.(jobs := AssignAll(t.jobs, ids, name, now)), name).jobs == t.jobs;
  }

  /** An operator requeue undoes a failure of a job in progress: job and run are
      back in the queue, with the retries kept and the queue time renewed. */
  lemma ManualRequeueUndoesFail(t: Tables, id: JobId, msg: string, failed: int, now: int)
    requires id in t.jobs && t.jobs[id].completedAt.None? && t.jobs[id].error.None?
    ensures
      var t' := ManualRequeue(Fail(t, id, msg, failed), id, now);
      && t'.jobs == t.jobs[id := Release(t.jobs[id]).(queuedAt := now)]
      && t'.runners == t.runners
      && t'.runs == SetRun(t.runs, t.jobs[id].run, RunQueued, None)
  {
  }
}
