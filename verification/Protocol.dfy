/**
 The remote-job protocol as a state machine.

 Requests run on the event loop. A handler without an `await` keeps the loop to
 itself, but not the database: the reaper runs in a thread of its own and may
 act between any two of the handler's transactions. A handler whose effect is
 one transaction is one action. POST /results makes several, so it is split:
 while a post is under way only the reaper acts besides it. The reaper in turn
 works on a snapshot and is split into its scan, one action per decision, and
 its end.

 Posts may arrive at any moment, for any job, from any key: that covers delayed,
 duplicated and outbox-replayed messages. The ids of a claim may come from an
 earlier look at the table; only its conditional UPDATEs are in the action.
 */
module Protocol {
  import opened Wrappers
  import opened Tables

  /** History of one job; it records what happened and steers nothing. */
  datatype Counts = Counts(
    claims: nat,    // queued -> assigned transitions
    manual: nat,    // operator requeues
    deletes: nat,   // requeues caused by deleting the runner
    ingests: nat,   // results ingested
    fails: nat      // failures by the reaper
  )

  /** The reaper: idle, or working through a scan it took earlier. */
  datatype Reaper = Idle | Reaping(todo: seq<Stuck>, requeued: nat)

  /** How far a result post has come: its checks are done; the run is `running`;
      the run has its final status. */
  datatype Stage = Checked | RunMarked | RunEnded

  datatype Post = Post(id: JobId, error: Option<string>, stage: Stage)

  datatype Sys = Sys(t: Tables, log: map<JobId, Counts>, reaper: Reaper, post: Option<Post>)

  datatype Action =
    | Dispatch(id: JobId, run: RunId, pin: Option<Name>, tag: Option<Tag>, now: int)
    | PutRunner(name: Name, runner: Runner)      // register, heartbeat, drain, resume
    | Claim(name: Name, ids: seq<JobId>, now: int)
    | PostCheck(id: JobId, key: KeyId, error: Option<string>)
    | PostMark
    | PostEndRun(now: int)
    | PostFinish(now: int)
    | DeleteRunner(name: Name)
    | AdminRequeue(id: JobId, now: int)
    | ReaperScan(ids: seq<JobId>, cutoff: int)
    | ReaperDecide(now: int)
    | ReaperEnd
    | LocalRun(run: RunId, status: RunStatus)    // a run executed in-process

  const NO_COUNTS := Counts(0, 0, 0, 0, 0)

  const INIT := Sys(Tables(map[], map[], map[]), map[], Idle, None)

  // ---- what may happen next ----------------------------------------------

  /** The job whose result is being posted. */
  predicate Posting(s: Sys, j: JobId) { s.post.Some? && s.post.value.id == j }

  predicate AtStage(s: Sys, stage: Stage) { s.post.Some? && s.post.value.stage == stage }

  /** Fresh uuids, a truthful scan, one reaper, and one handler on the loop. */
  ghost predicate Possible(s: Sys, a: Action) {
    match a
    case Dispatch(id, run, _, _, _) => s.post.None? && id !in s.t.jobs && run !in s.t.runs
    case PutRunner(_, _) => s.post.None?
    case Claim(name, _, _) => s.post.None? && name in s.t.runners
    case PostCheck(_, _, _) => s.post.None?
    case PostMark => AtStage(s, Checked)
    case PostEndRun(_) => AtStage(s, RunMarked)
    case PostFinish(_) => AtStage(s, RunEnded)
    case DeleteRunner(_) => s.post.None?
    case AdminRequeue(_, _) => s.post.None?
    case ReaperScan(ids, cutoff) =>
      && s.reaper.Idle?
      && (forall i, k :: 0 <= i < k < |ids| ==> ids[i] != ids[k])
      && (forall j :: j in ids <==> j in s.t.jobs && IsStuck(s.t.jobs[j], cutoff))
    case ReaperDecide(_) => s.reaper.Reaping? && s.reaper.todo != []
    case ReaperEnd => s.reaper.Reaping? && s.reaper.todo == []
    case LocalRun(run, _) => s.post.None? && forall j :: j in s.t.jobs ==> s.t.jobs[j].run != run
  }

  /** The status a result post gives the run. */
  function Outcome(error: Option<string>): RunStatus { if error.None? then RunComplete else RunError }

  /** The state after an action; `maxRetries` is the configured retry budget. */
  ghost function Apply(maxRetries: int, s: Sys, a: Action): Sys
    requires Possible(s, a)
  {
    match a
    case Dispatch(id, run, pin, tag, now) =>
      s.(t := QueueRemote(s.t, id, run, pin, tag, now), log := s.log[id := NO_COUNTS])
    case PutRunner(name, runner) =>
      s.(t := s.t.(runners := s.t.runners[name := runner]))
    case Claim(name, ids, now) =>
      s.(t := s.t.(jobs := AssignAll(s.t.jobs, (set j | j in ids), name, now)),
         log := map j | j in s.log ::
                  if j in ids && j in s.t.jobs && s.t.jobs[j].state == Queued
                  then s.log[j].(claims := s.log[j].claims + 1) else s.log[j])
    case PostCheck(id, key, error) =>
      if ResultsResponse(s.t, id, key) == Ok200 then s.(post := Some(Post(id, error, Checked))) else s
    case PostMark =>
      s.(t := s.t.(runs := MarkRunning(s.t, s.post.value.id)), post := Some(s.post.value.(stage := RunMarked)))
    case PostEndRun(now) => EndRun(s, s.post.value, now)
    case PostFinish(now) => FinishPost(s, s.post.value, now)
    case DeleteRunner(name) =>
      s.(t := DropRunner(s.t, name),
         log := map j | j in s.log ::
                  if j in s.t.jobs && HeldBy(s.t.jobs[j], name)
                  then s.log[j].(deletes := s.log[j].deletes + 1) else s.log[j])
    case AdminRequeue(id, now) =>
      s.(t := ManualRequeue(s.t, id, now),
         log := if id in s.t.jobs && s.t.jobs[id].state == Failed && id in s.log
                then s.log[id := s.log[id].(manual := s.log[id].manual + 1)] else s.log)
    case ReaperScan(ids, _) =>
      s.(reaper := Reaping(seq(|ids|, i requires 0 <= i < |ids| => Stuck(ids[i], s.t.jobs[ids[i]].retries)), 0))
    case ReaperDecide(now) => Decide(maxRetries, s, now)
    case ReaperEnd => s.(reaper := Idle)
    case LocalRun(run, status) =>
      s.(t := s.t.(runs := s.t.runs[run := Run(status, None)]))
  }

  function MarkRunning(t: Tables, id: JobId): map<RunId, Run> {
    if id in t.jobs && t.jobs[id].run in t.runs
    then t.runs[t.jobs[id].run := t.runs[t.jobs[id].run].(status := RunRunning)] else t.runs
  }

  function EndRun(s: Sys, post: Post, now: int): Sys {
    s.(t := if post.id in s.t.jobs
            then s.t.(runs := SetRun(s.t.runs, s.t.jobs[post.id].run, Outcome(post.error), Some(now))) else s.t,
       post := Some(post.(stage := RunEnded)))
  }

  function FinishPost(s: Sys, post: Post, now: int): Sys {
    s.(t := Finish(s.t, post.id, post.error, now),
       log := if post.id in s.log
              then s.log[post.id := s.log[post.id].(ingests := s.log[post.id].ingests + 1)] else s.log,
       post := None)
  }

  /** The next decision is to fail the job. */
  predicate Fails(maxRetries: int, s: Sys) {
    s.reaper.Reaping? && s.reaper.todo != [] && s.reaper.todo[0].retries >= maxRetries
  }

  function Decide(maxRetries: int, s: Sys, now: int): Sys
    requires s.reaper.Reaping? && s.reaper.todo != []
  {
    var head := s.reaper.todo[0];
    s.(t := ReapOne(s.t, maxRetries, head.id, head.retries, now),
       log := if Fails(maxRetries, s) && head.id in s.t.jobs && head.id in s.log
              then s.log[head.id := s.log[head.id].(fails := s.log[head.id].fails + 1)] else s.log,
       reaper := Reaping(s.reaper.todo[1..], s.reaper.requeued + (if Fails(maxRetries, s) then 0 else 1)))
  }

  ghost predicate Legal(maxRetries: int, s: Sys, run: seq<Action>)
    decreases run
  {
    run == [] || (Possible(s, run[0]) && Legal(maxRetries, Apply(maxRetries, s, run[0]), run[1..]))
  }

  ghost function Exec(maxRetries: int, s: Sys, run: seq<Action>): Sys
    requires Legal(maxRetries, s, run)
    decreases run
  {
    if run == [] then s else Exec(maxRetries, Apply(maxRetries, s, run[0]), run[1..])
  }

  lemma {:induction false} Append(maxRetries: int, s: Sys, run: seq<Action>, a: Action)
    requires Legal(maxRetries, s, run) && Possible(Exec(maxRetries, s, run), a)
    ensures Legal(maxRetries, s, run + [a])
    ensures Exec(maxRetries, s, run + [a]) == Apply(maxRetries, Exec(maxRetries, s, run), a)
    decreases run
  {
    if run == [] {
      assert [] + [a] == [a] && [a][1..] == [];
      assert Legal(maxRetries, Apply(maxRetries, s, a), []);
    } else {
      assert (run + [a])[1..] == run[1..] + [a];
      Append(maxRetries, Apply(maxRetries, s, run[0]), run[1..], a);
    }
  }

  lemma {:induction false} SplitLast(maxRetries: int, s: Sys, run: seq<Action>)
    requires run != [] && Legal(maxRetries, s, run)
    ensures
      var front, a := run[..|run| - 1], run[|run| - 1];
      && Legal(maxRetries, s, front) && Possible(Exec(maxRetries, s, front), a)
      && Exec(maxRetries, s, run) == Apply(maxRetries, Exec(maxRetries, s, front), a)
    decreases run
  {
    if |run| == 1 {
      assert run[..0] == [] && run[1..] == [];
    } else {
      SplitLast(maxRetries, Apply(maxRetries, s, run[0]), run[1..]);
      assert run[1..][..|run| - 2] == run[..|run| - 1][1..];
    }
  }

  // ---- the invariant -----------------------------------------------------

  /** The largest retry count the reaper ever writes. */
  function Budget(maxRetries: int): nat { if maxRetries > 0 then maxRetries else 0 }

  /** What a row says of itself, and of the rows it names. */
  ghost predicate RowOk(maxRetries: int, t: Tables, j: JobId)
    requires j in t.jobs
  {
    var job := t.jobs[j];
    && job.run in t.runs
    && (job.state.Queued? ==> job.assignedTo.None? && job.assignedAt.None?)
    && (job.state.Assigned? ==>
          job.assignedTo.Some? && job.assignedTo.value in t.runners && job.assignedAt.Some?)
    && job.retries <= Budget(maxRetries)
    && (job.state.Failed? ==> job.retries == Budget(maxRetries))
  }

  /** What the reaper remembers from its scan is still the row's retry count. */
  ghost predicate SnapshotCurrent(s: Sys) {
    s.reaper.Reaping? ==>
      && (forall i :: 0 <= i < |s.reaper.todo| ==>
            var e := s.reaper.todo[i];
            e.id in s.t.jobs && e.retries == s.t.jobs[e.id].retries && !s.t.jobs[e.id].state.Failed?)
      && (forall i, k :: 0 <= i < k < |s.reaper.todo| ==> s.reaper.todo[i].id != s.reaper.todo[k].id)
  }

  ghost predicate OneJobPerRun(t: Tables) {
    forall j, k :: j in t.jobs && k in t.jobs && j != k ==> t.jobs[j].run != t.jobs[k].run
  }

  /** A post under way is for a job that is not finished. */
  ghost predicate PostOk(s: Sys) {
    s.post.Some? ==> s.post.value.id in s.t.jobs && !s.t.jobs[s.post.value.id].state.Finished()
  }

  ghost predicate Inv(maxRetries: int, s: Sys) {
    && s.log.Keys == s.t.jobs.Keys
    && OneJobPerRun(s.t)
    && SnapshotCurrent(s)
    && PostOk(s)
    && (forall j :: j in s.t.jobs ==> RowOk(maxRetries, s.t, j))
  }

  /** Actions other than a dispatch keep the set of jobs and each job's run, and
      drop no run; only the reaper counts retries, and only it makes jobs fail. */
  lemma StepKeepsFrame(maxRetries: int, s: Sys, a: Action)
    requires s.log.Keys == s.t.jobs.Keys && Possible(s, a) && !a.Dispatch?
    ensures
      var s' := Apply(maxRetries, s, a);
      && s'.t.jobs.Keys == s.t.jobs.Keys == s'.log.Keys
      && s.t.runs.Keys <= s'.t.runs.Keys
      && (forall j :: j in s.t.jobs ==> s'.t.jobs[j].run == s.t.jobs[j].run)
  {
  }

  lemma OthersKeepRetries(maxRetries: int, s: Sys, a: Action)
    requires s.log.Keys == s.t.jobs.Keys && Possible(s, a) && !a.Dispatch? && !a.ReaperDecide?
    ensures
      var s' := Apply(maxRetries, s, a);
      forall j :: j in s.t.jobs ==>
        j in s'.t.jobs && s'.t.jobs[j].retries == s.t.jobs[j].retries
        && (s'.t.jobs[j].state.Failed? ==> s.t.jobs[j].state.Failed?)
  {
  }

  lemma OthersKeepSnapshot(maxRetries: int, s: Sys, a: Action)
    requires s.log.Keys == s.t.jobs.Keys && SnapshotCurrent(s) && Possible(s, a)
    requires !a.Dispatch? && !a.ReaperDecide? && !a.ReaperScan? && !a.ReaperEnd?
    ensures SnapshotCurrent(Apply(maxRetries, s, a))
  {
    OthersKeepRetries(maxRetries, s, a);
    assert Apply(maxRetries, s, a).reaper == s.reaper;
  }

  /** A decision changes the row, the run and the counts of its own job only. */
  lemma DecideTouchesHeadOnly(maxRetries: int, s: Sys, now: int, j: JobId)
    requires s.log.Keys == s.t.jobs.Keys && OneJobPerRun(s.t)
    requires s.reaper.Reaping? && s.reaper.todo != [] && j in s.t.jobs && j != s.reaper.todo[0].id
    ensures
      var s', run := Decide(maxRetries, s, now), s.t.jobs[j].run;
      && j in s'.t.jobs && s'.t.jobs[j] == s.t.jobs[j] && j in s'.log && s'.log[j] == s.log[j]
      && s'.t.runners == s.t.runners
      && (run in s.t.runs ==> run in s'.t.runs && s'.t.runs[run] == s.t.runs[run])
  {
  }

  lemma DecideKeepsSnapshot(maxRetries: int, s: Sys, now: int)
    requires SnapshotCurrent(s) && s.reaper.Reaping? && s.reaper.todo != []
    ensures SnapshotCurrent(Decide(maxRetries, s, now))
  {
    var s' := Decide(maxRetries, s, now);
    forall i | 0 <= i < |s'.reaper.todo|
      ensures s'.reaper.todo[i].id != s.reaper.todo[0].id && s'.reaper.todo[i] == s.reaper.todo[i + 1]
    {
    }
  }

  lemma DecideKeepsRow(maxRetries: int, s: Sys, now: int, j: JobId)
    requires Inv(maxRetries, s) && s.reaper.Reaping? && s.reaper.todo != [] && j in s.t.jobs
    ensures j in Decide(maxRetries, s, now).t.jobs && RowOk(maxRetries, Decide(maxRetries, s, now).t, j)
  {
    var head := s.reaper.todo[0];
    assert RowOk(maxRetries, s.t, j);
    assert head.id in s.t.jobs && head.retries == s.t.jobs[head.id].retries;
    if j != head.id {
      DecideTouchesHeadOnly(maxRetries, s, now, j);
    }
  }

  /** The actions that change rows of jobs. */
  predicate MovesJobs(a: Action) { a.Claim? || a.PostFinish? || a.DeleteRunner? || a.AdminRequeue? }

  lemma HandOversKeepRow(maxRetries: int, s: Sys, a: Action, j: JobId)
    requires Possible(s, a) && (a.Claim? || a.DeleteRunner?)
    requires j in s.t.jobs && RowOk(maxRetries, s.t, j)
    ensures j in Apply(maxRetries, s, a).t.jobs && RowOk(maxRetries, Apply(maxRetries, s, a).t, j)
  {
  }

  lemma EndingsKeepRow(maxRetries: int, s: Sys, a: Action, j: JobId)
    requires Possible(s, a) && (a.PostFinish? || a.AdminRequeue?)
    requires j in s.t.jobs && RowOk(maxRetries, s.t, j)
    ensures j in Apply(maxRetries, s, a).t.jobs && RowOk(maxRetries, Apply(maxRetries, s, a).t, j)
  {
  }

  lemma OthersKeepRow(maxRetries: int, s: Sys, a: Action, j: JobId)
    requires s.log.Keys == s.t.jobs.Keys && Possible(s, a)
    requires !a.Dispatch? && !a.ReaperDecide? && !MovesJobs(a)
    requires j in s.t.jobs && RowOk(maxRetries, s.t, j)
    ensures j in Apply(maxRetries, s, a).t.jobs && RowOk(maxRetries, Apply(maxRetries, s, a).t, j)
  {
    StepKeepsFrame(maxRetries, s, a);
    assert Apply(maxRetries, s, a).t.jobs == s.t.jobs;
  }

  /** Only the post's own last action finishes its job. */
  lemma StepKeepsPostOk(maxRetries: int, s: Sys, a: Action)
    requires Inv(maxRetries, s) && Possible(s, a) && !a.Dispatch?
    ensures PostOk(Apply(maxRetries, s, a))
  {
    StepKeepsFrame(maxRetries, s, a);
  }

  lemma DispatchKeepsInv(maxRetries: int, s: Sys, a: Action)
    requires Inv(maxRetries, s) && Possible(s, a) && a.Dispatch?
    ensures Inv(maxRetries, Apply(maxRetries, s, a))
  {
    var s' := Apply(maxRetries, s, a);
    forall j | j in s.t.jobs ensures s.t.jobs[j].run != a.run {
      assert RowOk(maxRetries, s.t, j);
    }
    forall j | j in s'.t.jobs ensures RowOk(maxRetries, s'.t, j) {
      if j != a.id { assert RowOk(maxRetries, s.t, j); }
    }
  }

  lemma StepKeepsInv(maxRetries: int, s: Sys, a: Action)
    requires Inv(maxRetries, s) && Possible(s, a)
    ensures Inv(maxRetries, Apply(maxRetries, s, a))
  {
    if a.Dispatch? {
      DispatchKeepsInv(maxRetries, s, a);
    } else {
      var s' := Apply(maxRetries, s, a);
      StepKeepsFrame(maxRetries, s, a);
      StepKeepsPostOk(maxRetries, s, a);
      if a.ReaperDecide? {
        DecideKeepsSnapshot(maxRetries, s, a.now);
      } else if !a.ReaperScan? && !a.ReaperEnd? {
        OthersKeepSnapshot(maxRetries, s, a);
      }
      forall j | j in s.t.jobs ensures RowOk(maxRetries, s'.t, j) {
        assert RowOk(maxRetries, s.t, j);
        if a.ReaperDecide? {
          DecideKeepsRow(maxRetries, s, a.now, j);
        } else if a.Claim? || a.DeleteRunner? {
          HandOversKeepRow(maxRetries, s, a, j);
        } else if MovesJobs(a) {
          EndingsKeepRow(maxRetries, s, a, j);
        } else {
          OthersKeepRow(maxRetries, s, a, j);
        }
      }
    }
  }

  lemma {:induction false} RunKeepsInv(maxRetries: int, s: Sys, run: seq<Action>)
    requires Inv(maxRetries, s) && Legal(maxRetries, s, run)
    ensures Inv(maxRetries, Exec(maxRetries, s, run))
    decreases run
  {
    if run == [] {
    } else {
      StepKeepsInv(maxRetries, s, run[0]);
      RunKeepsInv(maxRetries, Apply(maxRetries, s, run[0]), run[1..]);
    }
  }

  // ---- what a pass and a post do when nothing comes between ------------------

  /** Decisions taken one after the other do what the reaper's loop does. */
  lemma {:induction false} PassIsReapList(maxRetries: int, s: Sys, now: int, n: nat)
    requires s.reaper.Reaping? && n <= |s.reaper.todo|
    ensures
      var run := seq(n, i => ReaperDecide(now));
      && Legal(maxRetries, s, run)
      && Exec(maxRetries, s, run).t == ReapList(s.t, maxRetries, s.reaper.todo[..n], now)
      && Exec(maxRetries, s, run).reaper.Reaping?
      && Exec(maxRetries, s, run).reaper.todo == s.reaper.todo[n..]
    decreases n
  {
    var run := seq(n, i => ReaperDecide(now));
    if n == 0 {
      assert run == [];
    } else {
      var head := seq(n - 1, i => ReaperDecide(now));
      PassIsReapList(maxRetries, s, now, n - 1);
      assert run == head + [ReaperDecide(now)];
      Append(maxRetries, s, head, ReaperDecide(now));
      assert s.reaper.todo[..n][..n - 1] == s.reaper.todo[..n - 1];
    }
  }

  /** What a scan remembers. */
  ghost predicate Scanned(s: Sys, s1: Sys, ids: seq<JobId>) {
    && s1.t == s.t && s1.reaper.Reaping? && s1.reaper.requeued == 0 && |s1.reaper.todo| == |ids|
    && forall i :: 0 <= i < |ids| ==>
         ids[i] in s.t.jobs && s1.reaper.todo[i] == Stuck(ids[i], s.t.jobs[ids[i]].retries)
  }

  lemma ScanRemembers(maxRetries: int, s: Sys, ids: seq<JobId>, cutoff: int)
    requires Possible(s, ReaperScan(ids, cutoff))
    ensures Scanned(s, Apply(maxRetries, s, ReaperScan(ids, cutoff)), ids)
  {
  }

  /** A whole pass from the scan to the end does what the reaper's loop does with the
      rows it found, each with the retry count it had at the scan, and leaves the
      reaper idle. */
  lemma WholePass(maxRetries: int, s: Sys, ids: seq<JobId>, cutoff: int, now: int)
    requires Possible(s, ReaperScan(ids, cutoff))
    ensures
      var s1 := Apply(maxRetries, s, ReaperScan(ids, cutoff));
      var run := seq(|ids|, i => ReaperDecide(now));
      && Scanned(s, s1, ids) && Legal(maxRetries, s1, run) && Possible(Exec(maxRetries, s1, run), ReaperEnd)
      && var s2 := Apply(maxRetries, Exec(maxRetries, s1, run), ReaperEnd);
         s2.reaper.Idle? && s2.t == ReapList(s.t, maxRetries, s1.reaper.todo, now)
  {
    var s1 := Apply(maxRetries, s, ReaperScan(ids, cutoff));
    ScanRemembers(maxRetries, s, ids, cutoff);
    PassToTheEnd(maxRetries, s1, now);
  }

  lemma PassToTheEnd(maxRetries: int, s: Sys, now: int)
    requires s.reaper.Reaping?
    ensures
      var run := seq(|s.reaper.todo|, i => ReaperDecide(now));
      && Legal(maxRetries, s, run) && Possible(Exec(maxRetries, s, run), ReaperEnd)
      && Exec(maxRetries, s, run).t == ReapList(s.t, maxRetries, s.reaper.todo, now)
  {
    var n := |s.reaper.todo|;
    PassIsReapList(maxRetries, s, now, n);
    assert s.reaper.todo[..n] == s.reaper.todo && s.reaper.todo[n..] == [];
  }

  /** The four actions of a post do what the handler as a whole does. */
  lemma PostIsResults(maxRetries: int, s: Sys, id: JobId, key: KeyId, error: Option<string>, now: int)
    requires s.post.None? && ResultsResponse(s.t, id, key) == Ok200
    ensures
      var s1 := Apply(maxRetries, s, PostCheck(id, key, error));
      var s2 := Apply(maxRetries, s1, PostMark);
      var s3 := Apply(maxRetries, s2, PostEndRun(now));
      var s4 := Apply(maxRetries, s3, PostFinish(now));
      s4.t == Results(s.t, id, key, error, now) && s4.post.None?
  {
    var s2 := Apply(maxRetries, Apply(maxRetries, s, PostCheck(id, key, error)), PostMark);
    var s3 := Apply(maxRetries, s2, PostEndRun(now));
    assert s3.t.runs == SetRun(s.t.runs, s.t.jobs[id].run, Outcome(error), Some(now));
  }
}
