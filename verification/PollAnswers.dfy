/**
 What a long poll comes back with: why a handler leaves, and that one that looks
 at the queue while there is work for it takes the oldest jobs it may take.
 */
module PollAnswers {
  import opened Wrappers
  import opened Tables
  import opened Protocol
  import opened LongPoll
  import HarnessDb

  // ---- why a handler leaves ----------------------------------------------------

  /** The step moves a queued job to this runner. */
  ghost predicate HandsOut(s: Server, s': Server, name: Name) {
    exists j :: HandedOut(s, s', name, j)
  }

  predicate HandedOut(s: Server, s': Server, name: Name, j: JobId) {
    && j in s.sys.t.jobs && s.sys.t.jobs[j].state == Queued
    && j in s'.sys.t.jobs && s'.sys.t.jobs[j].state == Assigned && s'.sys.t.jobs[j].assignedTo == Some(name)
  }

  /** The wait is over: by timeout, by a dead key, by an expired deadline, or with
      a job that the step assigns to the runner that asked. */
  ghost predicate Over(eager: bool, maxRetries: int, s: Server, e: Event, p: PollId)
    requires CanStep(s, e) && p in s.polls
  {
    match e
    case Timeout(q) => q == p
    case Resume(q, keyLive) => q == p && !keyLive
    case Take(q, _, expired) =>
      q == p && (expired || HandsOut(s, Next(eager, maxRetries, s, e), s.polls[p].ask.name))
    case _ => false
  }

  /** A handler leaves in exactly these steps, and its request stays what it was
      until then. */
  lemma LeavesExactly(eager: bool, maxRetries: int, s: Server, e: Event, p: PollId)
    requires CanStep(s, e) && p in s.polls
    ensures
      var s' := Next(eager, maxRetries, s, e);
      && (p !in s'.polls <==> Over(eager, maxRetries, s, e, p))
      && (p in s'.polls ==> s'.polls[p].ask == s.polls[p].ask)
  {
    if e.Take? && e.p == p { TakeHandsOut(eager, maxRetries, s, e); }
  }

  lemma TakeHandsOut(eager: bool, maxRetries: int, s: Server, e: Event)
    requires CanStep(s, e) && e.Take?
    ensures Hits(s.sys, s.polls[e.p].ids)
       <==> HandsOut(s, Next(eager, maxRetries, s, e), s.polls[e.p].ask.name)
  {
    var s', ids, name := Next(eager, maxRetries, s, e), s.polls[e.p].ids, s.polls[e.p].ask.name;
    if Hits(s.sys, ids) {
      var j :| j in ids && j in s.sys.t.jobs && s.sys.t.jobs[j].state == Queued;
      assert HandedOut(s, s', name, j);
    }
    if HandsOut(s, s', name) {
      var j :| HandedOut(s, s', name, j);
      assert j in ids;
    }
  }

  /** Over runs: whoever is gone left in one of these steps. */
  lemma {:induction false} WhyItLeft(eager: bool, maxRetries: int, s: Server, es: seq<Event>, p: PollId)
      returns (k: nat)
    requires Runs(eager, maxRetries, s, es) && p in s.polls && p !in After(eager, maxRetries, s, es).polls
    ensures k < |es| && Runs(eager, maxRetries, s, es[..k])
    ensures
      var at := After(eager, maxRetries, s, es[..k]);
      && p in at.polls && at.polls[p].ask == s.polls[p].ask
      && CanStep(at, es[k]) && Over(eager, maxRetries, at, es[k], p)
    decreases es
  {
    LeavesExactly(eager, maxRetries, s, es[0], p);
    var s' := Next(eager, maxRetries, s, es[0]);
    if p !in s'.polls {
      k := 0;
    } else {
      var m := WhyItLeft(eager, maxRetries, s', es[1..], p);
      k := m + 1;
      assert es[..k][0] == es[0] && es[..k][1..] == es[1..][..m];
    }
  }

  // ---- looking with work in the queue takes it --------------------------------------

  /** There is always an answer to the candidate SELECT. */
  lemma CandidatesExist(jobs: map<JobId, Job>, name: Name, tags: set<Tag>, capacity: nat)
    ensures exists ids :: IsCandidateList(jobs, name, tags, capacity, ids)
  {
    var ids := Oldest(jobs, (set j | j in jobs && Eligible(jobs[j], name, tags)), capacity);
    assert IsCandidateList(jobs, name, tags, capacity, ids);
  }

  lemma {:induction false} Oldest(jobs: map<JobId, Job>, s: set<JobId>, n: nat) returns (ids: seq<JobId>)
    requires s <= jobs.Keys
    ensures |ids| <= n && forall i :: 0 <= i < |ids| ==> ids[i] in s
    ensures forall i, k :: 0 <= i < k < |ids| ==>
              ids[i] != ids[k] && jobs[ids[i]].queuedAt <= jobs[ids[k]].queuedAt
    ensures forall j :: j in s && j !in ids ==>
              |ids| >= n && forall i :: 0 <= i < |ids| ==> jobs[ids[i]].queuedAt <= jobs[j].queuedAt
    decreases n
  {
    if n == 0 || s == {} {
      ids := [];
    } else {
      HarnessDb.OldestExists(jobs, s, HarnessDb.QueueTime);
      var first :| first in s && forall k :: k in s ==> jobs[first].queuedAt <= jobs[k].queuedAt;
      var rest := Oldest(jobs, s - {first}, n - 1);
      ids := [first] + rest;
    }
  }

  /** The claim has taken the jobs `ids` for this request, and no others. */
  ghost predicate Took(s: Server, s': Server, ask: Ask, ids: seq<JobId>, now: int) {
    && OldestMeant(s.sys.t.jobs, ask.name, ask.tags, ask.capacity, ids)
    && s'.sys.t.jobs.Keys == s.sys.t.jobs.Keys
    && forall j :: j in s.sys.t.jobs ==>
         if j in ids then
           && s'.sys.t.jobs[j].state == Assigned && s'.sys.t.jobs[j].assignedTo == Some(ask.name)
           && s'.sys.t.jobs[j].assignedAt == Some(now) && s'.sys.t.jobs[j].retries == s.sys.t.jobs[j].retries
         else s'.sys.t.jobs[j] == s.sys.t.jobs[j]
  }

  ghost predicate WorkFor(s: Server, ask: Ask) {
    exists j :: j in s.sys.t.jobs && s.sys.t.jobs[j].state == Queued && MeantFor(s.sys.t.jobs[j], ask.name, ask.tags)
  }

  lemma Two(eager: bool, maxRetries: int, s: Server, a: Event, b: Event)
    requires CanStep(s, a) && CanStep(Next(eager, maxRetries, s, a), b)
    ensures Runs(eager, maxRetries, s, [a] + [b])
    ensures After(eager, maxRetries, s, [a] + [b])
            == Next(eager, maxRetries, Next(eager, maxRetries, s, a), b)
  {
    More(eager, maxRetries, Next(eager, maxRetries, s, a), b, []);
    assert [b] + [] == [b];
    More(eager, maxRetries, s, a, [b]);
  }

  lemma More(eager: bool, maxRetries: int, s: Server, e: Event, es: seq<Event>)
    requires CanStep(s, e) && Runs(eager, maxRetries, Next(eager, maxRetries, s, e), es)
    ensures Runs(eager, maxRetries, s, [e] + es)
    ensures After(eager, maxRetries, s, [e] + es) == After(eager, maxRetries, Next(eager, maxRetries, s, e), es)
  {
    assert ([e] + es)[1..] == es;
  }

  /** The claim of fresh candidates, by the handler that holds the loop. */
  lemma TakeTakes(eager: bool, maxRetries: int, s: Server, p: PollId, now: int, expired: bool)
    requires CanStep(s, Take(p, now, expired)) && s.polls[p].ids != []
    requires
      var ask := s.polls[p].ask;
      IsCandidateList(s.sys.t.jobs, ask.name, ask.tags, ask.capacity, s.polls[p].ids)
    ensures
      var s' := Next(eager, maxRetries, s, Take(p, now, expired));
      Took(s, s', s.polls[p].ask, s.polls[p].ids, now) && p !in s'.polls && s'.busy.None?
  {
    var ask, ids := s.polls[p].ask, s.polls[p].ids;
    CandidatesAreMeant(s.sys.t.jobs, ask.name, ask.tags, ask.capacity, ids);
    FreshCandidatesHit(s.sys, ids);
  }

  lemma WorkIsChosen(s: Server, ask: Ask, ids: seq<JobId>)
    requires IsCandidateList(s.sys.t.jobs, ask.name, ask.tags, ask.capacity, ids)
    requires ask.capacity >= 1 && WorkFor(s, ask)
    ensures ids != []
  {
    CandidatesAreMeant(s.sys.t.jobs, ask.name, ask.tags, ask.capacity, ids);
  }

  /** Select and Take, by the handler that holds the loop. */
  lemma LookTakes(eager: bool, maxRetries: int, s: Server, p: PollId, ids: seq<JobId>, now: int, expired: bool)
    requires s.busy == Some(p) && s.sys.post.None? && p in s.polls && s.polls[p].Looking?
    requires s.polls[p].ask.name in s.sys.t.runners && s.polls[p].ask.capacity >= 1 && WorkFor(s, s.polls[p].ask)
    requires
      var ask := s.polls[p].ask;
      IsCandidateList(s.sys.t.jobs, ask.name, ask.tags, ask.capacity, ids)
    ensures
      var run := [Select(p, ids)] + [Take(p, now, expired)];
      && Runs(eager, maxRetries, s, run)
      && var s' := After(eager, maxRetries, s, run);
         ids != [] && Took(s, s', s.polls[p].ask, ids, now) && p !in s'.polls && s'.busy.None?
  {
    WorkIsChosen(s, s.polls[p].ask, ids);
    TakeTakes(eager, maxRetries, Next(eager, maxRetries, s, Select(p, ids)), p, now, expired);
    Two(eager, maxRetries, s, Select(p, ids), Take(p, now, expired));
  }

  /** A new request that finds work takes it. */
  lemma EnterLeadsToClaim(eager: bool, maxRetries: int, s: Server, p: PollId, ask: Ask, ids: seq<JobId>, now: int,
                          expired: bool)
    requires CanStep(s, Enter(p, ask)) && WorkFor(s, ask)
    requires IsCandidateList(s.sys.t.jobs, ask.name, ask.tags, ask.capacity, ids)
    ensures
      var run := [Enter(p, ask)] + ([Select(p, ids)] + [Take(p, now, expired)]);
      && Runs(eager, maxRetries, s, run)
      && var s' := After(eager, maxRetries, s, run);
         ids != [] && Took(s, s', ask, ids, now) && p !in s'.polls && s'.busy.None?
  {
    LookTakes(eager, maxRetries, Next(eager, maxRetries, s, Enter(p, ask)), p, ids, now, expired);
    More(eager, maxRetries, s, Enter(p, ask), [Select(p, ids)] + [Take(p, now, expired)]);
  }

  lemma {:induction false} AlwaysWellFormed(eager: bool, maxRetries: int, s: Server, es: seq<Event>,
                                            missed: set<PollId>)
    requires Known(eager, s, missed) && Runs(eager, maxRetries, s, es)
    ensures WellFormed(After(eager, maxRetries, s, es))
    decreases es
  {
    if es == [] {
    } else {
      StepKeepsKnown(eager, maxRetries, s, es[0], missed);
      AlwaysWellFormed(eager, maxRetries, Next(eager, maxRetries, s, es[0]), es[1..], Missed(s, es[0], missed));
    }
  }

  /** A wake-up leads to a claim. In any state that a run reaches, a woken handler
      whose key is live and whose turn it is looks again, and if there is work for
      it, it takes exactly the oldest jobs it may take, whichever answer the SELECT
      gives; and there is one. */
  lemma WakeLeadsToClaim(eager: bool, maxRetries: int, es: seq<Event>, p: PollId, now: int, expired: bool)
    requires Runs(eager, maxRetries, BOOT, es)
    requires
      var s := After(eager, maxRetries, BOOT, es);
      && LoopFree(s) && p in s.polls && s.polls[p].Waiting? && s.polls[p].woken
      && s.polls[p].ask.name in s.sys.t.runners && WorkFor(s, s.polls[p].ask)
    ensures
      var s := After(eager, maxRetries, BOOT, es);
      var ask := s.polls[p].ask;
      && (exists ids :: IsCandidateList(s.sys.t.jobs, ask.name, ask.tags, ask.capacity, ids))
      && forall ids :: IsCandidateList(s.sys.t.jobs, ask.name, ask.tags, ask.capacity, ids) ==>
           WakesToTake(eager, maxRetries, s, p, ids, now, expired)
  {
    var s := After(eager, maxRetries, BOOT, es);
    var ask := s.polls[p].ask;
    AlwaysWellFormed(eager, maxRetries, BOOT, es, {});
    CandidatesExist(s.sys.t.jobs, ask.name, ask.tags, ask.capacity);
    forall ids | IsCandidateList(s.sys.t.jobs, ask.name, ask.tags, ask.capacity, ids)
      ensures WakesToTake(eager, maxRetries, s, p, ids, now, expired)
    {
      LookTakes(eager, maxRetries, Next(eager, maxRetries, s, Resume(p, true)), p, ids, now, expired);
      More(eager, maxRetries, s, Resume(p, true), [Select(p, ids)] + [Take(p, now, expired)]);
    }
  }

  /** The three steps of a woken handler, and what they leave. */
  ghost predicate WakesToTake(eager: bool, maxRetries: int, s: Server, p: PollId, ids: seq<JobId>, now: int,
                              expired: bool)
    requires p in s.polls
  {
    var run := [Resume(p, true)] + ([Select(p, ids)] + [Take(p, now, expired)]);
    && Runs(eager, maxRetries, s, run)
    && var s' := After(eager, maxRetries, s, run);
       ids != [] && Took(s, s', s.polls[p].ask, ids, now) && p !in s'.polls && s'.busy.None?
  }

  // ---- and its turn comes -------------------------------------------------------------

  /** The handler that holds the loop is between its look and its wait, and its
      runner is registered. */
  ghost predicate Holding(s: Server) {
    s.busy.Some? ==>
      && s.busy.value in s.polls && (s.polls[s.busy.value].Looking? || s.polls[s.busy.value].Chosen?)
      && s.polls[s.busy.value].ask.name in s.sys.t.runners
  }

  lemma StepKeepsHolding(eager: bool, maxRetries: int, s: Server, e: Event)
    requires Holding(s) && CanStep(s, e)
    ensures Holding(Next(eager, maxRetries, s, e))
  {
  }

  lemma {:induction false} AlwaysHolding(eager: bool, maxRetries: int, s: Server, es: seq<Event>)
    requires Holding(s) && Runs(eager, maxRetries, s, es)
    ensures Holding(After(eager, maxRetries, s, es))
    decreases es
  {
    if es == [] {
    } else {
      StepKeepsHolding(eager, maxRetries, s, es[0]);
      AlwaysHolding(eager, maxRetries, Next(eager, maxRetries, s, es[0]), es[1..]);
    }
  }

  /** How many steps of its own the handler on the loop needs to release it. */
  function Distance(s: Server): nat {
    if s.sys.post.Some? then
      match s.sys.post.value.stage case Checked => 3 case RunMarked => 2 case RunEnded => 1
    else if s.busy.Some? && s.busy.value in s.polls then
      (if s.isSet then 2 else 0) + (if s.polls[s.busy.value].Looking? then 2 else 1)
    else 0
  }

  /** A step of the handler that holds the loop. */
  predicate IsHolders(s: Server, e: Event) {
    match e
    case Act(a, _) => a.PostMark? || a.PostEndRun? || a.PostFinish?
    case Select(p, _) => s.busy == Some(p)
    case Take(p, _, _) => s.busy == Some(p)
    case _ => false
  }

  lemma HolderAdvances(eager: bool, maxRetries: int, s: Server) returns (e: Event)
    requires WellFormed(s) && Holding(s) && !LoopFree(s)
    ensures CanStep(s, e) && IsHolders(s, e)
    ensures
      var s' := Next(eager, maxRetries, s, e);
      && Distance(s') < Distance(s) && s'.sys.t.runners == s.sys.t.runners
      && forall p :: p in s.polls && s.polls[p].Waiting? ==> p in s'.polls && s'.polls[p] == s.polls[p]
  {
    if s.sys.post.Some? {
      match s.sys.post.value.stage
      case Checked => e := Act(PostMark, true);
      case RunMarked => e := Act(PostEndRun(0), true);
      case RunEnded => e := Act(PostFinish(0), true);
    } else {
      var q := s.busy.value;
      var ask := s.polls[q].ask;
      if s.polls[q].Chosen? {
        e := Take(q, 0, false);
      } else {
        CandidatesExist(s.sys.t.jobs, ask.name, ask.tags, ask.capacity);
        var ids :| IsCandidateList(s.sys.t.jobs, ask.name, ask.tags, ask.capacity, ids);
        e := Select(q, ids);
      }
    }
  }

  ghost predicate AllHolders(eager: bool, maxRetries: int, s: Server, es: seq<Event>)
    requires Runs(eager, maxRetries, s, es)
    decreases es
  {
    es == [] || (IsHolders(s, es[0]) && AllHolders(eager, maxRetries, Next(eager, maxRetries, s, es[0]), es[1..]))
  }

  /** Whoever holds the loop releases it within four steps of its own; until then no
      waiting handler changes, so a woken one has its turn. */
  lemma {:induction false} LoopComesFree(eager: bool, maxRetries: int, s: Server, missed: set<PollId>)
      returns (es: seq<Event>)
    requires Known(eager, s, missed) && Holding(s)
    ensures Runs(eager, maxRetries, s, es) && AllHolders(eager, maxRetries, s, es) && |es| <= Distance(s)
    ensures
      var s' := After(eager, maxRetries, s, es);
      && LoopFree(s') && s'.sys.t.runners == s.sys.t.runners
      && forall p :: p in s.polls && s.polls[p].Waiting? ==> p in s'.polls && s'.polls[p] == s.polls[p]
    decreases Distance(s)
  {
    if LoopFree(s) {
      es := [];
    } else {
      var e := HolderAdvances(eager, maxRetries, s);
      StepKeepsKnown(eager, maxRetries, s, e, missed);
      StepKeepsHolding(eager, maxRetries, s, e);
      var rest := LoopComesFree(eager, maxRetries, Next(eager, maxRetries, s, e), Missed(s, e, missed));
      More(eager, maxRetries, s, e, rest);
      es := [e] + rest;
      assert es[1..] == rest;
    }
  }
}
