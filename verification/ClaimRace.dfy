/**
 claim_runner_jobs when claimers interleave: the candidate SELECT and each
 conditional UPDATE are separate steps, and any other actor may change rows in
 between. A ticket stands for one queued-to-assigned transition of one job.
 */
module ClaimRace {
  import opened Wrappers
  import opened Tables

  type ClaimerId = nat

  datatype Ticket = Ticket(job: JobId, nth: nat)

  datatype Claimer = Claimer(name: Name, todo: seq<JobId>, got: seq<Ticket>)

  datatype Race = Race(jobs: map<JobId, Job>, claimers: map<ClaimerId, Claimer>)

  datatype Step =
    | Select(c: ClaimerId, name: Name, tags: set<Tag>, capacity: int, ids: seq<JobId>)
    | Update(c: ClaimerId, now: int)
    | Other(j: JobId, row: Job)     // insert, requeue, completion, failure of a row

  ghost predicate Possible(s: Race, a: Step) {
    match a
    case Select(c, name, tags, capacity, ids) =>
      c !in s.claimers && IsCandidateList(s.jobs, name, tags, capacity, ids)
    case Update(c, _) => c in s.claimers && s.claimers[c].todo != []
    case Other(j, row) => row.state == Assigned ==> j in s.jobs && s.jobs[j].state == Assigned
  }

  /** `UPDATE ... WHERE id=? AND state='queued'` has rowcount 1. */
  predicate Hits(s: Race, a: Step) {
    && a.Update? && a.c in s.claimers && s.claimers[a.c].todo != []
    && s.claimers[a.c].todo[0] in s.jobs && s.jobs[s.claimers[a.c].todo[0]].state == Queued
  }

  /** `seen` counts the earlier transitions of each job: it numbers the tickets. */
  ghost function Next(s: Race, a: Step, seen: JobId -> nat): Race
    requires Possible(s, a)
  {
    match a
    case Select(c, name, _, _, ids) => s.(claimers := s.claimers[c := Claimer(name, ids, [])])
    case Update(c, now) =>
      var me := s.claimers[c];
      var id := me.todo[0];
      if Hits(s, a) then
        Race(s.jobs[id := Assign(s.jobs[id], me.name, now)],
             s.claimers[c := me.(todo := me.todo[1..], got := me.got + [Ticket(id, seen(id))])])
      else s.(claimers := s.claimers[c := me.(todo := me.todo[1..])])
    case Other(j, row) => s.(jobs := s.jobs[j := row])
  }

  /** Does this step move job j from queued to assigned? */
  ghost predicate Transition(s: Race, a: Step, j: JobId)
    requires Possible(s, a)
  {
    j in s.jobs && s.jobs[j].state == Queued && Next(s, a, k => 0).jobs[j].state == Assigned
  }

  ghost function Count(s: Race, a: Step, seen: JobId -> nat): JobId -> nat
    requires Possible(s, a)
  {
    j => seen(j) + if Transition(s, a, j) then 1 else 0
  }

  ghost predicate Legal(s: Race, run: seq<Step>, seen: JobId -> nat)
    decreases run
  {
    run == [] || (Possible(s, run[0]) && Legal(Next(s, run[0], seen), run[1..], Count(s, run[0], seen)))
  }

  ghost function Exec(s: Race, run: seq<Step>, seen: JobId -> nat): Race
    requires Legal(s, run, seen)
    decreases run
  {
    if run == [] then s else Exec(Next(s, run[0], seen), run[1..], Count(s, run[0], seen))
  }

  ghost function Total(s: Race, run: seq<Step>, seen: JobId -> nat): JobId -> nat
    requires Legal(s, run, seen)
    decreases run
  {
    if run == [] then seen else Total(Next(s, run[0], seen), run[1..], Count(s, run[0], seen))
  }

  ghost predicate Holds(s: Race, c: ClaimerId, t: Ticket) {
    c in s.claimers && t in s.claimers[c].got
  }

  /** Transition number nth of job j is in exactly one claimer's answer, once. */
  ghost predicate ExactlyOne(s: Race, t: Ticket) {
    exists c :: Holds(s, c, t) && forall d :: Holds(s, d, t) ==> d == c
  }

  ghost predicate Inv(s: Race, seen: JobId -> nat) {
    && (forall j: JobId, n: nat :: n < seen(j) ==> ExactlyOne(s, Ticket(j, n)))
    && (forall c, t :: Holds(s, c, t) ==> t.nth < seen(t.job))
    && (forall c, i, k :: c in s.claimers && 0 <= i < k < |s.claimers[c].got| ==>
          s.claimers[c].got[i] != s.claimers[c].got[k])
  }

  lemma TransitionsAreHits(s: Race, a: Step, j: JobId)
    requires Possible(s, a)
    ensures Transition(s, a, j) <==> Hits(s, a) && s.claimers[a.c].todo[0] == j
  {
  }

  lemma HoldsNext(s: Race, a: Step, seen: JobId -> nat, c: ClaimerId, t: Ticket)
    requires Possible(s, a)
    ensures Holds(Next(s, a, seen), c, t) <==>
              Holds(s, c, t) || (Hits(s, a) && c == a.c && t == Ticket(s.claimers[a.c].todo[0], seen(t.job)))
  {
  }

  lemma StepKeepsExactlyOne(s: Race, a: Step, seen: JobId -> nat, t: Ticket)
    requires Inv(s, seen) && Possible(s, a) && t.nth < Count(s, a, seen)(t.job)
    ensures ExactlyOne(Next(s, a, seen), t)
  {
    var s' := Next(s, a, seen);
    TransitionsAreHits(s, a, t.job);
    if t.nth < seen(t.job) {
      assert ExactlyOne(s, Ticket(t.job, t.nth));
      var c :| Holds(s, c, t) && forall d :: Holds(s, d, t) ==> d == c;
      HoldsNext(s, a, seen, c, t);
      forall d | Holds(s', d, t) ensures d == c { HoldsNext(s, a, seen, d, t); }
    } else {
      HoldsNext(s, a, seen, a.c, t);
      forall d | Holds(s', d, t) ensures d == a.c {
        HoldsNext(s, a, seen, d, t);
        assert !Holds(s, d, t);
      }
    }
  }

  lemma StepKeepsDistinct(s: Race, a: Step, seen: JobId -> nat, c: ClaimerId, i: nat, k: nat)
    requires Inv(s, seen) && Possible(s, a)
    requires c in Next(s, a, seen).claimers && i < k < |Next(s, a, seen).claimers[c].got|
    ensures Next(s, a, seen).claimers[c].got[i] != Next(s, a, seen).claimers[c].got[k]
  {
    var got := Next(s, a, seen).claimers[c].got;
    if c in s.claimers && k < |s.claimers[c].got| {
      assert got[i] == s.claimers[c].got[i] && got[k] == s.claimers[c].got[k];
    } else {
      assert Holds(s, c, got[i]);
    }
  }

  lemma StepKeepsInv(s: Race, a: Step, seen: JobId -> nat)
    requires Inv(s, seen) && Possible(s, a)
    ensures Inv(Next(s, a, seen), Count(s, a, seen))
  {
    var s', seen' := Next(s, a, seen), Count(s, a, seen);
    forall j: JobId, n: nat | n < seen'(j) ensures ExactlyOne(s', Ticket(j, n)) {
      StepKeepsExactlyOne(s, a, seen, Ticket(j, n));
    }
    forall c, t | Holds(s', c, t) ensures t.nth < seen'(t.job) {
      HoldsNext(s, a, seen, c, t);
      TransitionsAreHits(s, a, t.job);
    }
    forall c, i, k | c in s'.claimers && 0 <= i < k < |s'.claimers[c].got|
      ensures s'.claimers[c].got[i] != s'.claimers[c].got[k]
    {
      StepKeepsDistinct(s, a, seen, c, i, k);
    }
  }

  lemma {:induction false} RunKeepsInv(s: Race, run: seq<Step>, seen: JobId -> nat)
    requires Inv(s, seen) && Legal(s, run, seen)
    ensures Inv(Exec(s, run, seen), Total(s, run, seen))
    decreases run
  {
    if run == [] {
    } else {
      StepKeepsInv(s, run[0], seen);
      RunKeepsInv(Next(s, run[0], seen), run[1..], Count(s, run[0], seen));
    }
  }

  /** However claimers and other actors interleave, every queued-to-assigned
      transition is in the answer of exactly one claimer, and every entry of an
      answer stands for such a transition. */
  lemma ExclusiveClaim(jobs: map<JobId, Job>, run: seq<Step>, j: JobId, n: nat)
    requires Legal(Race(jobs, map[]), run, k => 0)
    ensures
      var s, total := Exec(Race(jobs, map[]), run, k => 0), Total(Race(jobs, map[]), run, k => 0);
      && (n < total(j) ==> ExactlyOne(s, Ticket(j, n)))
      && (n >= total(j) ==> forall c :: !Holds(s, c, Ticket(j, n)))
  {
    RunKeepsInv(Race(jobs, map[]), run, k => 0);
  }

  // ---- what one claimer's answer holds -------------------------------------------

  function Jobs(got: seq<Ticket>): seq<JobId> { seq(|got|, i requires 0 <= i < |got| => got[i].job) }

  /** The next candidate of claimer c is queued, and it is c's turn. */
  predicate Wins(s: Race, a: Step, c: ClaimerId) {
    && a.Update? && a.c == c && c in s.claimers && s.claimers[c].todo != []
    && s.claimers[c].todo[0] in s.jobs && s.jobs[s.claimers[c].todo[0]].state == Queued
  }

  /** The candidates that were queued when c came to them. */
  ghost function Won(s: Race, run: seq<Step>, seen: JobId -> nat, c: ClaimerId): seq<JobId>
    requires Legal(s, run, seen)
    decreases run
  {
    if run == [] then []
    else
      (if Wins(s, run[0], c) then [s.claimers[c].todo[0]] else [])
      + Won(Next(s, run[0], seen), run[1..], Count(s, run[0], seen), c)
  }

  function Turns(run: seq<Step>, c: ClaimerId): nat
    decreases run
  {
    if run == [] then 0 else (if run[0].Update? && run[0].c == c then 1 else 0) + Turns(run[1..], c)
  }

  lemma Regroup(a: seq<JobId>, b: seq<JobId>, c: seq<JobId>)
    ensures (a + b) + c == a + (b + c)
  {
  }

  lemma DropAfterFirst(todo: seq<JobId>, k: nat)
    requires k + 1 <= |todo|
    ensures todo[1..][k..] == todo[k + 1..]
  {
  }

  lemma FirstAndRest(got: seq<JobId>, todo: seq<JobId>)
    requires todo != []
    ensures (got + [todo[0]]) + todo[1..] == got + todo
  {
  }

  lemma StepAnswers(s: Race, a: Step, seen: JobId -> nat, c: ClaimerId)
    requires Possible(s, a) && c in s.claimers
    ensures c in Next(s, a, seen).claimers
    ensures
      var me, me' := s.claimers[c], Next(s, a, seen).claimers[c];
      && me'.name == me.name
      && (if a.Update? && a.c == c then me.todo != [] && me'.todo == me.todo[1..] else me'.todo == me.todo)
      && Jobs(me'.got) == Jobs(me.got) + if Wins(s, a, c) then [me.todo[0]] else []
  {
  }

  /** Over every run a claimer works through its candidates in order, one a turn, and
      its answer grows by exactly those that were queued when it came to them. */
  lemma {:induction false} AnswerIsWins(s: Race, run: seq<Step>, seen: JobId -> nat, c: ClaimerId)
    requires Legal(s, run, seen) && c in s.claimers
    ensures c in Exec(s, run, seen).claimers && Turns(run, c) <= |s.claimers[c].todo|
    ensures
      var me, me' := s.claimers[c], Exec(s, run, seen).claimers[c];
      && me'.name == me.name && me'.todo == me.todo[Turns(run, c)..]
      && Jobs(me'.got) == Jobs(me.got) + Won(s, run, seen, c)
    decreases run
  {
    if run == [] {
    } else {
      var s', rest := Next(s, run[0], seen), Won(Next(s, run[0], seen), run[1..], Count(s, run[0], seen), c);
      var first := if Wins(s, run[0], c) then [s.claimers[c].todo[0]] else [];
      StepAnswers(s, run[0], seen, c);
      AnswerIsWins(s', run[1..], Count(s, run[0], seen), c);
      Regroup(Jobs(s.claimers[c].got), first, rest);
      var todo := s.claimers[c].todo;
      if run[0].Update? && run[0].c == c { DropAfterFirst(todo, Turns(run[1..], c)); }
    }
  }

  lemma RunFirst(s: Race, a: Step, rest: seq<Step>, seen: JobId -> nat)
    requires Possible(s, a) && Legal(Next(s, a, seen), rest, Count(s, a, seen))
    ensures Legal(s, [a] + rest, seen)
    ensures Exec(s, [a] + rest, seen) == Exec(Next(s, a, seen), rest, Count(s, a, seen))
  {
    assert ([a] + rest)[1..] == rest;
  }

  function Updates(c: ClaimerId, n: nat, now: int): seq<Step> {
    if n == 0 then [] else [Update(c, now)] + Updates(c, n - 1, now)
  }

  /** The candidates are queued, and distinct. */
  predicate AllQueued(jobs: map<JobId, Job>, todo: seq<JobId>) {
    && (forall i :: 0 <= i < |todo| ==> todo[i] in jobs && jobs[todo[i]].state == Queued)
    && (forall i, k :: 0 <= i < k < |todo| ==> todo[i] != todo[k])
  }

  /** What an update makes of the table when its job is queued. */
  lemma UpdateWins(s: Race, c: ClaimerId, now: int, seen: JobId -> nat)
    requires c in s.claimers && s.claimers[c].todo != [] && AllQueued(s.jobs, s.claimers[c].todo)
    ensures
      var me, s' := s.claimers[c], Next(s, Update(c, now), seen);
      && s'.jobs == s.jobs[me.todo[0] := Assign(s.jobs[me.todo[0]], me.name, now)]
      && c in s'.claimers && s'.claimers[c].todo == me.todo[1..] && s'.claimers[c].name == me.name
      && Jobs(s'.claimers[c].got) == Jobs(me.got) + [me.todo[0]]
      && AllQueued(s'.jobs, me.todo[1..])
  {
    StepAnswers(s, Update(c, now), seen, c);
  }

  ghost predicate Completed(s: Race, e: Race, c: ClaimerId, now: int)
    requires c in s.claimers
  {
    && c in e.claimers
    && e.jobs == AssignAll(s.jobs, (set j | j in s.claimers[c].todo), s.claimers[c].name, now)
    && Jobs(e.claimers[c].got) == Jobs(s.claimers[c].got) + s.claimers[c].todo
  }

  lemma CompletedBack(s: Race, s': Race, e: Race, c: ClaimerId, now: int)
    requires c in s.claimers && s.claimers[c].todo != [] && AllQueued(s.jobs, s.claimers[c].todo)
    requires
      var me := s.claimers[c];
      && s'.jobs == s.jobs[me.todo[0] := Assign(s.jobs[me.todo[0]], me.name, now)]
      && c in s'.claimers && s'.claimers[c].todo == me.todo[1..] && s'.claimers[c].name == me.name
      && Jobs(s'.claimers[c].got) == Jobs(me.got) + [me.todo[0]]
    requires Completed(s', e, c, now)
    ensures Completed(s, e, c, now)
  {
    var me := s.claimers[c];
    AssignsRest(s.jobs, me.todo, me.name, now);
    FirstAndRest(Jobs(me.got), me.todo);
  }

  lemma NothingToDo(s: Race, c: ClaimerId, now: int)
    requires c in s.claimers && s.claimers[c].todo == []
    ensures Completed(s, s, c, now)
  {
    var me := s.claimers[c];
    assert AssignAll(s.jobs, (set j | j in me.todo), me.name, now) == s.jobs;
    assert Jobs(me.got) + [] == Jobs(me.got);
  }

  lemma UpdateThen(s: Race, c: ClaimerId, now: int, seen: JobId -> nat, rest: seq<Step>)
    requires c in s.claimers && s.claimers[c].todo != [] && AllQueued(s.jobs, s.claimers[c].todo)
    requires
      var s', seen' := Next(s, Update(c, now), seen), Count(s, Update(c, now), seen);
      c in s'.claimers && Legal(s', rest, seen') && Completed(s', Exec(s', rest, seen'), c, now)
    ensures
      var run := [Update(c, now)] + rest;
      Legal(s, run, seen) && Completed(s, Exec(s, run, seen), c, now)
  {
    var s', seen' := Next(s, Update(c, now), seen), Count(s, Update(c, now), seen);
    UpdateWins(s, c, now, seen);
    RunFirst(s, Update(c, now), rest, seen);
    CompletedBack(s, s', Exec(s', rest, seen'), c, now);
  }

  lemma {:induction false} UpdatesAlone(s: Race, c: ClaimerId, now: int, seen: JobId -> nat)
    requires c in s.claimers && AllQueued(s.jobs, s.claimers[c].todo)
    ensures
      var run := Updates(c, |s.claimers[c].todo|, now);
      Legal(s, run, seen) && Completed(s, Exec(s, run, seen), c, now)
    decreases |s.claimers[c].todo|
  {
    var n := |s.claimers[c].todo|;
    if n == 0 {
      NothingToDo(s, c, now);
    } else {
      UpdateWins(s, c, now, seen);
      UpdatesAlone(Next(s, Update(c, now), seen), c, now, Count(s, Update(c, now), seen));
      UpdateThen(s, c, now, seen, Updates(c, n - 1, now));
    }
  }

  lemma AssignsRest(jobs: map<JobId, Job>, todo: seq<JobId>, name: Name, now: int)
    requires todo != [] && todo[0] in jobs && jobs[todo[0]].state == Queued
    ensures AssignAll(jobs[todo[0] := Assign(jobs[todo[0]], name, now)], (set j | j in todo[1..]), name, now)
            == AssignAll(jobs, (set j | j in todo), name, now)
  {
    forall j | j in jobs ensures j in todo <==> j == todo[0] || j in todo[1..] {
      if j in todo && j != todo[0] {
        var i :| 0 <= i < |todo| && todo[i] == j;
        assert todo[1..][i - 1] == j;
      }
    }
  }

  /** Run with nothing in between, the steps of a claim do what the claim as a whole
      does: all candidates are taken, and are the answer. */
  lemma ClaimAlone(s: Race, c: ClaimerId, name: Name, tags: set<Tag>, capacity: int, ids: seq<JobId>, now: int,
                   seen: JobId -> nat)
    requires Possible(s, Select(c, name, tags, capacity, ids))
    ensures
      var run := [Select(c, name, tags, capacity, ids)] + Updates(c, |ids|, now);
      && Legal(s, run, seen) && c in Exec(s, run, seen).claimers
      && Exec(s, run, seen).jobs == AssignAll(s.jobs, (set j | j in ids), name, now)
      && Jobs(Exec(s, run, seen).claimers[c].got) == ids
  {
    var first := Select(c, name, tags, capacity, ids);
    UpdatesAlone(Next(s, first, seen), c, now, Count(s, first, seen));
    RunFirst(s, first, Updates(c, |ids|, now), seen);
    assert Jobs([]) + ids == ids;
  }
}
