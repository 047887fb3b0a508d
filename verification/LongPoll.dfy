/**
 Long-polling on top of the protocol: the handlers of GET /api/runner/jobs, the
 process-wide asyncio event they wait on, and its scheduled clears.

 A handler keeps the event loop from its look at the queue to its wait, but the
 reaper's thread may act in between, so a claim is two steps here, SELECT and
 UPDATEs, and only reaper actions come between them. The other handlers write in
 one transaction and notify after it; the reaper's steps commute with that.

 asyncio.wait_for either registers the waiter within the handler's own segment
 (`eager`; Python 3.12 and later) or in a task that starts on a later turn of
 the loop (Python 3.11, which the Dockerfile pins). Both are modelled.
 */
module LongPoll {
  import opened Wrappers
  import opened Tables
  import opened Protocol

  type PollId = nat

  /** What a request asks for. */
  datatype Ask = Ask(name: Name, tags: set<Tag>, capacity: int)

  datatype Poll =
    | Looking(ask: Ask)                    // about to select candidates
    | Chosen(ask: Ask, ids: seq<JobId>)    // candidates selected, not yet claimed
    | Starting(ask: Ask)                   // wait task not yet run
    | Waiting(ask: Ask, woken: bool)       // registered on the event

  /** `busy` is the poll whose handler holds the loop. */
  datatype Server = Server(sys: Sys, isSet: bool, clears: nat, polls: map<PollId, Poll>, busy: Option<PollId>)

  datatype Event =
    | Act(a: Action, onLoop: bool)    // any other handler, the scheduler, the reaper
    | Enter(p: PollId, ask: Ask)
    | Select(p: PollId, ids: seq<JobId>)
    | Take(p: PollId, now: int, expired: bool)
    | Start(p: PollId)
    | Resume(p: PollId, keyLive: bool)
    | Timeout(p: PollId)
    | Clear

  const BOOT := Server(INIT, false, 0, map[], None)

  // ---- the event ----------------------------------------------------------

  function Wake(poll: Poll): Poll { if poll.Waiting? then poll.(woken := true) else poll }

  /** notify_job_queued: setting an event that is already set wakes nobody. */
  function Notify(s: Server, onLoop: bool): Server {
    s.(isSet := true,
       clears := s.clears + (if onLoop then 1 else 0),
       polls := if s.isSet then s.polls else map p | p in s.polls :: Wake(s.polls[p]))
  }

  /** Which actions end with notify_job_queued. */
  ghost predicate Notifies(s: Sys, a: Action) {
    match a
    case Dispatch(_, _, _, _, _) => true
    case AdminRequeue(id, _) => id in s.t.jobs && s.t.jobs[id].state == Failed
    case DeleteRunner(name) => exists j :: j in s.t.jobs && HeldBy(s.t.jobs[j], name)
    case ReaperEnd => s.reaper.Reaping? && s.reaper.requeued > 0
    case _ => false
  }

  predicate IsReaper(a: Action) { a.ReaperScan? || a.ReaperDecide? || a.ReaperEnd? }

  /** The reaper has requeued something and has yet to notify. */
  predicate Owed(s: Sys) { s.reaper.Reaping? && s.reaper.requeued > 0 }

  // ---- steps ----------------------------------------------------------------

  predicate LoopFree(s: Server) { s.busy.None? && s.sys.post.None? }

  ghost predicate CanStep(s: Server, e: Event) {
    match e
    case Act(a, _) => Possible(s.sys, a) && (IsReaper(a) || s.busy.None?)
    case Enter(p, ask) => LoopFree(s) && p !in s.polls && ask.capacity >= 1 && ask.name in s.sys.t.runners
    case Select(p, ids) =>
      && s.busy == Some(p) && p in s.polls && s.polls[p].Looking?
      && IsCandidateList(s.sys.t.jobs, s.polls[p].ask.name, s.polls[p].ask.tags, s.polls[p].ask.capacity, ids)
    case Take(p, _, _) => s.busy == Some(p) && s.sys.post.None? && p in s.polls && s.polls[p].Chosen?
                          && s.polls[p].ask.name in s.sys.t.runners
    case Start(p) => LoopFree(s) && p in s.polls && s.polls[p].Starting?
    case Resume(p, keyLive) =>
      && LoopFree(s) && p in s.polls && s.polls[p].Waiting? && s.polls[p].woken
      && (keyLive ==> s.polls[p].ask.name in s.sys.t.runners)
    case Timeout(p) => LoopFree(s) && p in s.polls && (s.polls[p].Starting? || s.polls[p].Waiting?)
    case Clear => LoopFree(s) && s.clears > 0
  }

  /** Some candidate is still queued, so the claim comes back with a job. */
  predicate Hits(s: Sys, ids: seq<JobId>) { exists j :: j in ids && j in s.t.jobs && s.t.jobs[j].state == Queued }

  function Leave(s: Server, p: PollId): Server { s.(polls := s.polls - {p}, busy := None) }

  /** `await wait_for(event.wait(), ...)` after a claim that returned nothing.
      Registering eagerly on a set event returns at once; the handler then clears
      the event and looks again, still holding the loop. */
  function Block(eager: bool, s: Server, p: PollId, ask: Ask): Server {
    if !eager then s.(polls := s.polls[p := Starting(ask)], busy := None)
    else if s.isSet then s.(isSet := false, polls := s.polls[p := Looking(ask)])
    else s.(polls := s.polls[p := Waiting(ask, false)], busy := None)
  }

  /** The UPDATEs of the claim, and what follows them. */
  ghost function Taken(eager: bool, maxRetries: int, s: Server, p: PollId, now: int, expired: bool): Server
    requires CanStep(s, Take(p, now, expired))
  {
    var poll := s.polls[p];
    var s1 := s.(sys := Apply(maxRetries, s.sys, Claim(poll.ask.name, poll.ids, now)));
    if Hits(s.sys, poll.ids) || expired then Leave(s1, p) else Block(eager, s1, p, poll.ask)
  }

  ghost function Next(eager: bool, maxRetries: int, s: Server, e: Event): Server
    requires CanStep(s, e)
  {
    match e
    case Act(a, onLoop) =>
      var s1 := s.(sys := Apply(maxRetries, s.sys, a));
      if Notifies(s.sys, a) then Notify(s1, onLoop) else s1
    case Enter(p, ask) => s.(polls := s.polls[p := Looking(ask)], busy := Some(p))
    case Select(p, ids) => s.(polls := s.polls[p := Chosen(s.polls[p].ask, ids)])
    case Take(p, now, expired) => Taken(eager, maxRetries, s, p, now, expired)
    case Start(p) => s.(polls := s.polls[p := Waiting(s.polls[p].ask, s.isSet)])
    case Resume(p, keyLive) =>
      if keyLive then s.(isSet := false, polls := s.polls[p := Looking(s.polls[p].ask)], busy := Some(p))
      else Leave(s.(isSet := false), p)
    case Timeout(p) => s.(polls := s.polls - {p})
    case Clear => s.(isSet := false, clears := s.clears - 1)
  }

  ghost predicate Runs(eager: bool, maxRetries: int, s: Server, es: seq<Event>)
    decreases es
  {
    es == [] || (CanStep(s, es[0]) && Runs(eager, maxRetries, Next(eager, maxRetries, s, es[0]), es[1..]))
  }

  ghost function After(eager: bool, maxRetries: int, s: Server, es: seq<Event>): Server
    requires Runs(eager, maxRetries, s, es)
    decreases es
  {
    if es == [] then s else After(eager, maxRetries, Next(eager, maxRetries, s, es[0]), es[1..])
  }

  // ---- no lost wake-up ---------------------------------------------------

  /** A handler that is blocked with no wake-up on its way. */
  predicate Blocked(s: Server, p: PollId) {
    p in s.polls && s.polls[p].Waiting? && !s.polls[p].woken
  }

  ghost predicate HasWork(s: Sys, ask: Ask) {
    exists j :: j in s.t.jobs && Eligible(s.t.jobs[j], ask.name, ask.tags)
  }

  /** Work for this request is announced, or about to be. */
  ghost predicate Announced(s: Server, ask: Ask) { HasWork(s.sys, ask) ==> s.isSet || Owed(s.sys) }

  /** The property: no blocked handler has an eligible queued job, unless the
      reaper is about to notify; and a set event has no blocked handler. */
  ghost predicate NoLostWakeup(s: Server) {
    forall p :: Blocked(s, p) ==> !s.isSet && (HasWork(s.sys, s.polls[p].ask) ==> Owed(s.sys))
  }

  /** Only the handler that holds the loop is between its look and its wait. */
  ghost predicate WellFormed(s: Server) {
    && (s.busy.Some? ==> s.sys.post.None?)
    && (forall p :: p in s.polls && (s.polls[p].Looking? || s.polls[p].Chosen?) ==> s.busy == Some(p))
    && (forall p :: p in s.polls ==> s.polls[p].ask.capacity >= 1)
  }

  /** The steps that strand a handler: its wait task starts, or it registers,
      with the event clear and a job it could take already queued. */
  ghost predicate Strands(eager: bool, s: Server, e: Event)
    requires CanStep(s, e)
  {
    match e
    case Start(p) => !Announced(s, s.polls[p].ask)
    case Take(p, _, expired) => eager && !expired && !Hits(s.sys, s.polls[p].ids) && !Announced(s, s.polls[p].ask)
    case _ => false
  }

  /** A job becomes queued only in a step that notifies, or that leaves the
      reaper owing a notification. */
  lemma QueuedOnlyWithNotice(maxRetries: int, s: Sys, a: Action, j: JobId)
    requires Possible(s, a) && !Notifies(s, a)
    requires j in Apply(maxRetries, s, a).t.jobs && Apply(maxRetries, s, a).t.jobs[j].state == Queued
    ensures (j in s.t.jobs && Apply(maxRetries, s, a).t.jobs[j] == s.t.jobs[j]) || Owed(Apply(maxRetries, s, a))
  {
    match a
    case PutRunner(_, _) =>
    case Claim(_, _, _) =>
    case PostCheck(_, _, _) =>
    case PostMark =>
    case PostEndRun(_) =>
    case PostFinish(_) =>
    case DeleteRunner(name) => assert j in s.t.jobs && !HeldBy(s.t.jobs[j], name);
    case AdminRequeue(_, _) =>
    case ReaperScan(_, _) =>
    case ReaperDecide(_) =>
    case ReaperEnd =>
    case LocalRun(_, _) =>
  }

  lemma DebtIsKept(maxRetries: int, s: Sys, a: Action)
    requires Possible(s, a) && !Notifies(s, a) && Owed(s)
    ensures Owed(Apply(maxRetries, s, a))
  {
  }

  /** New work after an action that does not notify is owed by the reaper. */
  lemma WorkIsOwed(maxRetries: int, s: Sys, a: Action, ask: Ask)
    requires Possible(s, a) && !Notifies(s, a) && HasWork(Apply(maxRetries, s, a), ask)
    ensures HasWork(s, ask) || Owed(Apply(maxRetries, s, a))
    ensures Owed(s) ==> Owed(Apply(maxRetries, s, a))
  {
    var s' := Apply(maxRetries, s, a);
    var j :| j in s'.t.jobs && Eligible(s'.t.jobs[j], ask.name, ask.tags);
    QueuedOnlyWithNotice(maxRetries, s, a, j);
    if Owed(s) { DebtIsKept(maxRetries, s, a); }
  }

  /** Claiming makes no work, and a claim that hits nothing changes no job. */
  lemma ClaimMakesNoWork(maxRetries: int, s: Sys, a: Action, ask: Ask)
    requires Possible(s, a) && a.Claim?
    ensures HasWork(Apply(maxRetries, s, a), ask) ==> HasWork(s, ask)
    ensures !Hits(s, a.ids) ==> Apply(maxRetries, s, a).t.jobs == s.t.jobs
    ensures Owed(Apply(maxRetries, s, a)) == Owed(s)
  {
    var s' := Apply(maxRetries, s, a);
    if HasWork(s', ask) {
      var j :| j in s'.t.jobs && Eligible(s'.t.jobs[j], ask.name, ask.tags);
      assert j in s.t.jobs && s'.t.jobs[j] == s.t.jobs[j];
    }
  }

  lemma ActKeepsWakeups(eager: bool, maxRetries: int, s: Server, e: Event)
    requires NoLostWakeup(s) && CanStep(s, e) && e.Act?
    ensures NoLostWakeup(Next(eager, maxRetries, s, e))
  {
    var s' := Next(eager, maxRetries, s, e);
    forall p | Blocked(s', p)
      ensures !s'.isSet && (HasWork(s'.sys, s'.polls[p].ask) ==> Owed(s'.sys))
    {
      assert Blocked(s, p) && !Notifies(s.sys, e.a);
      if HasWork(s'.sys, s'.polls[p].ask) { WorkIsOwed(maxRetries, s.sys, e.a, s'.polls[p].ask); }
    }
  }

  lemma TakeKeepsWakeups(eager: bool, maxRetries: int, s: Server, e: Event)
    requires NoLostWakeup(s) && CanStep(s, e) && e.Take?
    ensures NoLostWakeup(Next(eager, maxRetries, s, e)) <==> !Strands(eager, s, e)
  {
    var s' := Next(eager, maxRetries, s, e);
    var ask, a := s.polls[e.p].ask, Claim(s.polls[e.p].ask.name, s.polls[e.p].ids, e.now);
    ClaimMakesNoWork(maxRetries, s.sys, a, ask);
    forall q | q != e.p && Blocked(s', q)
      ensures !s'.isSet && (HasWork(s'.sys, s'.polls[q].ask) ==> Owed(s'.sys))
    {
      assert Blocked(s, q);
      ClaimMakesNoWork(maxRetries, s.sys, a, s'.polls[q].ask);
    }
    if Strands(eager, s, e) {
      assert Blocked(s', e.p);
      var j :| j in s.sys.t.jobs && Eligible(s.sys.t.jobs[j], ask.name, ask.tags);
      assert j in s'.sys.t.jobs;
    }
  }

  /** Exactly which steps lose a wake-up. */
  lemma WakeupsLostExactly(eager: bool, maxRetries: int, s: Server, e: Event)
    requires NoLostWakeup(s) && CanStep(s, e)
    ensures NoLostWakeup(Next(eager, maxRetries, s, e)) <==> !Strands(eager, s, e)
  {
    var s' := Next(eager, maxRetries, s, e);
    match e
    case Act(_, _) => ActKeepsWakeups(eager, maxRetries, s, e);
    case Take(_, _, _) => TakeKeepsWakeups(eager, maxRetries, s, e);
    case Start(p) =>
      if Strands(eager, s, e) { assert Blocked(s', p); }
      forall q | q != p && Blocked(s', q) ensures Blocked(s, q) { }
    case Enter(p, _) => forall q | Blocked(s', q) ensures Blocked(s, q) { }
    case Select(p, _) => forall q | Blocked(s', q) ensures Blocked(s, q) { }
    case Resume(p, _) => forall q | Blocked(s', q) ensures Blocked(s, q) { }
    case Timeout(p) => forall q | Blocked(s', q) ensures Blocked(s, q) { }
    case Clear => forall q | Blocked(s', q) ensures Blocked(s, q) { }
  }

  // ---- over whole runs ---------------------------------------------------

  /** NoLostWakeup in the state before and after every step. */
  ghost predicate NeverLost(eager: bool, maxRetries: int, s: Server, es: seq<Event>)
    requires Runs(eager, maxRetries, s, es)
    decreases es
  {
    NoLostWakeup(s) && (es == [] || NeverLost(eager, maxRetries, Next(eager, maxRetries, s, es[0]), es[1..]))
  }

  ghost predicate StrandFree(eager: bool, maxRetries: int, s: Server, es: seq<Event>)
    requires Runs(eager, maxRetries, s, es)
    decreases es
  {
    es == [] ||
    (!Strands(eager, s, es[0]) && StrandFree(eager, maxRetries, Next(eager, maxRetries, s, es[0]), es[1..]))
  }

  /** A run loses no wake-up exactly when none of its steps strands a handler. */
  lemma {:induction false} NeverLostIffStrandFree(eager: bool, maxRetries: int, s: Server, es: seq<Event>)
    requires NoLostWakeup(s) && Runs(eager, maxRetries, s, es)
    ensures NeverLost(eager, maxRetries, s, es) <==> StrandFree(eager, maxRetries, s, es)
    decreases es
  {
    if es == [] {
    } else {
      var s' := Next(eager, maxRetries, s, es[0]);
      WakeupsLostExactly(eager, maxRetries, s, es[0]);
      if NoLostWakeup(s') {
        NeverLostIffStrandFree(eager, maxRetries, s', es[1..]);
      } else if es[1..] != [] {
        assert !NeverLost(eager, maxRetries, s', es[1..]);
      }
    }
  }

  // ---- what the schedule did to each wait task ---------------------------------

  /** The wait tasks that would start with the event clear although something may
      have been announced: the event was cleared since they blocked, or they
      blocked because all their candidates had gone, and no notification came
      after that. */
  ghost function Missed(s: Server, e: Event, missed: set<PollId>): set<PollId>
    requires CanStep(s, e)
  {
    match e
    case Act(a, _) => if Notifies(s.sys, a) then {} else missed
    case Take(p, _, _) =>
      if s.polls[p].ids != [] && !Hits(s.sys, s.polls[p].ids) && !s.isSet then missed + {p} else missed - {p}
    case Resume(_, _) => missed + StartingPolls(s)
    case Clear => missed + StartingPolls(s)
    case _ => missed
  }

  function StartingPolls(s: Server): set<PollId> { set p | p in s.polls && s.polls[p].Starting? }

  /** A wait task outside the set has missed nothing that is not announced, and
      neither has a handler that found no candidates. */
  ghost predicate PollKnown(s: Server, p: PollId, missed: set<PollId>)
    requires p in s.polls
  {
    match s.polls[p]
    case Looking(_) => true
    case Chosen(ask, ids) => ids == [] ==> Announced(s, ask)
    case Starting(ask) => if p in missed then !s.isSet else Announced(s, ask)
    case Waiting(_, _) => true
  }

  ghost predicate Known(eager: bool, s: Server, missed: set<PollId>) {
    && WellFormed(s)
    && (forall p :: p in s.polls ==> PollKnown(s, p, missed))
    && (eager ==> StartingPolls(s) == {})
  }

  lemma AnnouncedAfterAct(eager: bool, maxRetries: int, s: Server, e: Event, ask: Ask)
    requires CanStep(s, e) && e.Act? && Announced(s, ask)
    ensures Announced(Next(eager, maxRetries, s, e), ask)
  {
    var s' := Next(eager, maxRetries, s, e);
    if HasWork(s'.sys, ask) && !Notifies(s.sys, e.a) {
      WorkIsOwed(maxRetries, s.sys, e.a, ask);
    }
  }

  lemma ActKeepsKnown(eager: bool, maxRetries: int, s: Server, e: Event, missed: set<PollId>)
    requires Known(eager, s, missed) && CanStep(s, e) && e.Act?
    ensures Known(eager, Next(eager, maxRetries, s, e), Missed(s, e, missed))
  {
    var s' := Next(eager, maxRetries, s, e);
    forall p | p in s'.polls ensures PollKnown(s', p, Missed(s, e, missed)) {
      assert PollKnown(s, p, missed);
      if Announced(s, s.polls[p].ask) { AnnouncedAfterAct(eager, maxRetries, s, e, s.polls[p].ask); }
    }
    assert IsReaper(e.a) ==> s'.sys.post == s.sys.post;
    assert eager ==> forall p :: p in s'.polls ==> !s'.polls[p].Starting? by {
      assert eager ==> forall p :: p in s.polls && s.polls[p].Starting? ==> p in StartingPolls(s);
    }
  }

  lemma TakeKeepsKnown(eager: bool, maxRetries: int, s: Server, e: Event, missed: set<PollId>)
    requires Known(eager, s, missed) && CanStep(s, e) && e.Take?
    ensures Known(eager, Next(eager, maxRetries, s, e), Missed(s, e, missed))
  {
    var s' := Next(eager, maxRetries, s, e);
    var a := Claim(s.polls[e.p].ask.name, s.polls[e.p].ids, e.now);
    assert eager ==> forall p :: p in s.polls && s.polls[p].Starting? ==> p in StartingPolls(s);
    forall q | q in s'.polls ensures PollKnown(s', q, Missed(s, e, missed)) {
      assert PollKnown(s, q, missed);
      ClaimMakesNoWork(maxRetries, s.sys, a, s.polls[q].ask);
    }
  }

  lemma SelectKeepsKnown(eager: bool, maxRetries: int, s: Server, e: Event, missed: set<PollId>)
    requires Known(eager, s, missed) && CanStep(s, e) && e.Select?
    ensures Known(eager, Next(eager, maxRetries, s, e), Missed(s, e, missed))
  {
    var s' := Next(eager, maxRetries, s, e);
    assert eager ==> forall p :: p in s.polls && s.polls[p].Starting? ==> p in StartingPolls(s);
    forall q | q in s'.polls ensures PollKnown(s', q, Missed(s, e, missed)) {
      if q != e.p { assert PollKnown(s, q, missed); }
    }
  }

  lemma OthersKeepKnown(eager: bool, maxRetries: int, s: Server, e: Event, missed: set<PollId>)
    requires Known(eager, s, missed) && CanStep(s, e) && !e.Act? && !e.Take? && !e.Select?
    ensures Known(eager, Next(eager, maxRetries, s, e), Missed(s, e, missed))
  {
    var s' := Next(eager, maxRetries, s, e);
    assert eager ==> forall p :: p in s.polls && s.polls[p].Starting? ==> p in StartingPolls(s);
    forall q | q in s'.polls ensures PollKnown(s', q, Missed(s, e, missed)) {
      assert q in s.polls ==> PollKnown(s, q, missed);
    }
  }

  lemma StepKeepsKnown(eager: bool, maxRetries: int, s: Server, e: Event, missed: set<PollId>)
    requires Known(eager, s, missed) && CanStep(s, e)
    ensures Known(eager, Next(eager, maxRetries, s, e), Missed(s, e, missed))
  {
    if e.Act? {
      ActKeepsKnown(eager, maxRetries, s, e, missed);
    } else if e.Take? {
      TakeKeepsKnown(eager, maxRetries, s, e, missed);
    } else if e.Select? {
      SelectKeepsKnown(eager, maxRetries, s, e, missed);
    } else {
      OthersKeepKnown(eager, maxRetries, s, e, missed);
    }
  }

  /** Work for this request that nobody is about to announce. */
  ghost predicate Unowed(s: Sys, ask: Ask) { HasWork(s, ask) && !Owed(s) }

  /** A wait task of the set starts, or an eager handler whose candidates have all
      gone registers on a clear event, while there is unowed work for it. */
  ghost predicate Risks(eager: bool, s: Server, e: Event, missed: set<PollId>)
    requires CanStep(s, e)
  {
    match e
    case Start(p) => p in missed && Unowed(s.sys, s.polls[p].ask)
    case Take(p, _, expired) =>
      && eager && !expired && s.polls[p].ids != [] && !Hits(s.sys, s.polls[p].ids)
      && !s.isSet && Unowed(s.sys, s.polls[p].ask)
    case _ => false
  }

  lemma StrandsExactly(eager: bool, s: Server, e: Event, missed: set<PollId>)
    requires Known(eager, s, missed) && CanStep(s, e)
    ensures Strands(eager, s, e) <==> Risks(eager, s, e, missed)
  {
    if e.Start? || e.Take? {
      assert PollKnown(s, e.p, missed);
    }
  }

  ghost predicate RiskFree(eager: bool, maxRetries: int, s: Server, es: seq<Event>, missed: set<PollId>)
    requires Runs(eager, maxRetries, s, es)
    decreases es
  {
    es == [] ||
    (!Risks(eager, s, es[0], missed)
     && RiskFree(eager, maxRetries, Next(eager, maxRetries, s, es[0]), es[1..], Missed(s, es[0], missed)))
  }

  lemma {:induction false} RiskFreeIsStrandFree(eager: bool, maxRetries: int, s: Server, es: seq<Event>,
                                                missed: set<PollId>)
    requires Known(eager, s, missed) && Runs(eager, maxRetries, s, es)
    ensures RiskFree(eager, maxRetries, s, es, missed) <==> StrandFree(eager, maxRetries, s, es)
    decreases es
  {
    if es == [] {
    } else {
      StrandsExactly(eager, s, es[0], missed);
      StepKeepsKnown(eager, maxRetries, s, es[0], missed);
      RiskFreeIsStrandFree(eager, maxRetries, Next(eager, maxRetries, s, es[0]), es[1..], Missed(s, es[0], missed));
    }
  }

  /** For every run from boot, in either mode: no wake-up is lost if and only if no
      step takes the risk. With deferred registration that is to say: no wait task
      that the schedule has put in the set starts while there is unowed work for it. */
  lemma NeverLostExactly(eager: bool, maxRetries: int, es: seq<Event>)
    requires Runs(eager, maxRetries, BOOT, es)
    ensures NeverLost(eager, maxRetries, BOOT, es) <==> RiskFree(eager, maxRetries, BOOT, es, {})
  {
    RiskFreeIsStrandFree(eager, maxRetries, BOOT, es, {});
    NeverLostIffStrandFree(eager, maxRetries, BOOT, es);
  }

  // ---- conditions a schedule can be checked for -----------------------------------

  /** While a wait task has yet to start, neither a clear nor another handler's
      wake-up runs. */
  ghost predicate Calm(s: Server, e: Event) {
    e.Clear? || e.Resume? ==> StartingPolls(s) == {}
  }

  /** The reaper does not fail a job that is queued. */
  predicate SparesQueued(maxRetries: int, s: Sys, a: Action) {
    a.ReaperDecide? && Fails(maxRetries, s) ==>
      s.reaper.todo[0].id !in s.t.jobs || s.t.jobs[s.reaper.todo[0].id].state != Queued
  }

  ghost predicate Orderly(eager: bool, maxRetries: int, s: Server, es: seq<Event>)
    requires Runs(eager, maxRetries, s, es)
    decreases es
  {
    es == [] ||
    (Calm(s, es[0]) && (es[0].Act? ==> SparesQueued(maxRetries, s.sys, es[0].a))
     && Orderly(eager, maxRetries, Next(eager, maxRetries, s, es[0]), es[1..]))
  }

  /** No wait task is in the set, and candidates are still queued. */
  ghost predicate Settled(s: Server, missed: set<PollId>) {
    && StartingPolls(s) !! missed
    && (forall p, j :: p in s.polls && s.polls[p].Chosen? && j in s.polls[p].ids ==>
          j in s.sys.t.jobs && s.sys.t.jobs[j].state == Queued)
  }

  /** Then the reaper leaves queued jobs alone altogether. */
  lemma ReaperKeepsQueued(maxRetries: int, s: Sys, a: Action, j: JobId)
    requires Possible(s, a) && IsReaper(a) && SparesQueued(maxRetries, s, a)
    requires j in s.t.jobs && s.t.jobs[j].state == Queued
    ensures j in Apply(maxRetries, s, a).t.jobs && Apply(maxRetries, s, a).t.jobs[j] == s.t.jobs[j]
  {
  }

  lemma ActKeepsSettled(eager: bool, maxRetries: int, s: Server, e: Event, missed: set<PollId>)
    requires WellFormed(s) && Settled(s, missed) && CanStep(s, e) && e.Act? && SparesQueued(maxRetries, s.sys, e.a)
    ensures Settled(Next(eager, maxRetries, s, e), Missed(s, e, missed))
  {
    var s' := Next(eager, maxRetries, s, e);
    forall p, j | p in s'.polls && s'.polls[p].Chosen? && j in s'.polls[p].ids
      ensures j in s'.sys.t.jobs && s'.sys.t.jobs[j].state == Queued
    {
      assert p in s.polls && s.polls[p] == s'.polls[p] && IsReaper(e.a);
      ReaperKeepsQueued(maxRetries, s.sys, e.a, j);
    }
    assert StartingPolls(s') == StartingPolls(s);
  }

  lemma FreshCandidatesHit(s: Sys, ids: seq<JobId>)
    requires forall j :: j in ids ==> j in s.t.jobs && s.t.jobs[j].state == Queued
    ensures ids != [] ==> Hits(s, ids)
  {
    if ids == [] {
    } else {
      assert ids[0] in ids;
    }
  }

  lemma TakeKeepsSettled(eager: bool, maxRetries: int, s: Server, e: Event, missed: set<PollId>)
    requires WellFormed(s) && Settled(s, missed) && CanStep(s, e) && e.Take?
    ensures Settled(Next(eager, maxRetries, s, e), Missed(s, e, missed)) && !Risks(eager, s, e, missed)
  {
    var s' := Next(eager, maxRetries, s, e);
    FreshCandidatesHit(s.sys, s.polls[e.p].ids);
    assert StartingPolls(s') <= StartingPolls(s) + {e.p};
  }

  lemma OthersKeepSettled(eager: bool, maxRetries: int, s: Server, e: Event, missed: set<PollId>)
    requires WellFormed(s) && Settled(s, missed) && CanStep(s, e) && Calm(s, e) && !e.Act? && !e.Take?
    ensures Settled(Next(eager, maxRetries, s, e), Missed(s, e, missed)) && !Risks(eager, s, e, missed)
  {
    var s' := Next(eager, maxRetries, s, e);
    assert StartingPolls(s') <= StartingPolls(s);
    assert e.Start? ==> e.p in StartingPolls(s);
  }

  lemma StepKeepsSettled(eager: bool, maxRetries: int, s: Server, e: Event, missed: set<PollId>)
    requires Known(eager, s, missed) && Settled(s, missed) && CanStep(s, e) && Calm(s, e)
    requires e.Act? ==> SparesQueued(maxRetries, s.sys, e.a)
    ensures Known(eager, Next(eager, maxRetries, s, e), Missed(s, e, missed))
    ensures Settled(Next(eager, maxRetries, s, e), Missed(s, e, missed)) && !Risks(eager, s, e, missed)
  {
    StepKeepsKnown(eager, maxRetries, s, e, missed);
    if e.Act? {
      ActKeepsSettled(eager, maxRetries, s, e, missed);
    } else if e.Take? {
      TakeKeepsSettled(eager, maxRetries, s, e, missed);
    } else {
      OthersKeepSettled(eager, maxRetries, s, e, missed);
    }
  }

  lemma {:induction false} OrderlyIsRiskFree(eager: bool, maxRetries: int, s: Server, es: seq<Event>,
                                             missed: set<PollId>)
    requires Known(eager, s, missed) && Settled(s, missed)
    requires Runs(eager, maxRetries, s, es) && Orderly(eager, maxRetries, s, es)
    ensures RiskFree(eager, maxRetries, s, es, missed)
    decreases es
  {
    if es == [] {
    } else {
      StepKeepsSettled(eager, maxRetries, s, es[0], missed);
      OrderlyIsRiskFree(eager, maxRetries, Next(eager, maxRetries, s, es[0]), es[1..], Missed(s, es[0], missed));
    }
  }

  /** With a calm schedule, and a reaper that fails no queued job, no wake-up is
      lost, whichever way waiters register. */
  lemma CalmRunsLoseNothing(eager: bool, maxRetries: int, es: seq<Event>)
    requires Runs(eager, maxRetries, BOOT, es) && Orderly(eager, maxRetries, BOOT, es)
    ensures NeverLost(eager, maxRetries, BOOT, es)
  {
    OrderlyIsRiskFree(eager, maxRetries, BOOT, es, {});
    NeverLostExactly(eager, maxRetries, es);
  }

  /** No reaper failure of the run meets a queued job. */
  ghost predicate AlwaysSparesQueued(eager: bool, maxRetries: int, s: Server, es: seq<Event>)
    requires Runs(eager, maxRetries, s, es)
    decreases es
  {
    es == [] || ((es[0].Act? ==> SparesQueued(maxRetries, s.sys, es[0].a))
                 && AlwaysSparesQueued(eager, maxRetries, Next(eager, maxRetries, s, es[0]), es[1..]))
  }

  /** Eager registration leaves no wait task to start late: every schedule is calm. */
  lemma {:induction false} EagerIsOrderly(maxRetries: int, s: Server, es: seq<Event>, missed: set<PollId>)
    requires Known(true, s, missed) && Settled(s, missed)
    requires Runs(true, maxRetries, s, es) && AlwaysSparesQueued(true, maxRetries, s, es)
    ensures Orderly(true, maxRetries, s, es)
    decreases es
  {
    if es == [] {
    } else {
      StepKeepsSettled(true, maxRetries, s, es[0], missed);
      EagerIsOrderly(maxRetries, Next(true, maxRetries, s, es[0]), es[1..], Missed(s, es[0], missed));
    }
  }

  /** No lost wake-up: from boot, with eager registration, on every schedule. */
  lemma NoWakeupIsEverLost(maxRetries: int, es: seq<Event>)
    requires Runs(true, maxRetries, BOOT, es) && AlwaysSparesQueued(true, maxRetries, BOOT, es)
    ensures NeverLost(true, maxRetries, BOOT, es)
  {
    EagerIsOrderly(maxRetries, BOOT, es, {});
    CalmRunsLoseNothing(true, maxRetries, es);
  }

  /** A settled server needs no memory of what the schedule did. */
  lemma ForgetMissed(eager: bool, s: Server, missed: set<PollId>)
    requires Known(eager, s, missed) && Settled(s, missed)
    ensures Known(eager, s, {}) && Settled(s, {})
  {
    forall p | p in s.polls ensures PollKnown(s, p, {}) {
      assert PollKnown(s, p, missed);
      assert s.polls[p].Starting? ==> p in StartingPolls(s);
    }
  }
}
