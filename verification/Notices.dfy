/**
 When work is announced: every change that queues a job notifies, nothing else
 does, and each notification made on the event loop is cleared once.
 */
module Notices {
  import opened Wrappers
  import opened Tables
  import opened Protocol
  import opened LongPoll

  /** Some job is queued that was not. */
  ghost predicate Queues(s: Sys, s': Sys) {
    exists j :: j in s'.t.jobs && s'.t.jobs[j].state == Queued && (j in s.t.jobs ==> s.t.jobs[j].state != Queued)
  }

  /** An action of a handler notifies if and only if it queues a job. */
  lemma NoticeExactly(maxRetries: int, s: Sys, a: Action)
    requires Possible(s, a) && !IsReaper(a)
    ensures Notifies(s, a) <==> Queues(s, Apply(maxRetries, s, a))
  {
    var s' := Apply(maxRetries, s, a);
    match a
    case Dispatch(id, _, _, _, _) => assert id in s'.t.jobs && s'.t.jobs[id].state == Queued;
    case AdminRequeue(id, _) => assert Notifies(s, a) ==> s'.t.jobs[id].state == Queued;
    case DeleteRunner(name) =>
      if Notifies(s, a) {
        var j :| j in s.t.jobs && HeldBy(s.t.jobs[j], name);
        assert j in s'.t.jobs && s'.t.jobs[j].state == Queued;
      }
    case PutRunner(_, _) =>
    case Claim(_, _, _) =>
    case PostCheck(_, _, _) =>
    case PostMark =>
    case PostEndRun(_) =>
    case PostFinish(_) =>
    case LocalRun(_, _) =>
    case ReaperScan(_, _) =>
    case ReaperDecide(_) =>
    case ReaperEnd =>
  }

  lemma DecisionOwes(maxRetries: int, s: Sys, now: int)
    requires s.reaper.Reaping? && s.reaper.todo != []
    ensures Owed(Decide(maxRetries, s, now)) <==> Owed(s) || s.reaper.todo[0].retries < maxRetries
  {
  }

  /** What a pass owes after n decisions. */
  lemma {:induction false} PassOwes(maxRetries: int, s: Sys, now: int, n: nat)
    requires s.reaper.Reaping? && s.reaper.requeued == 0 && n <= |s.reaper.todo|
    ensures
      var run := seq(n, i => ReaperDecide(now));
      && Legal(maxRetries, s, run)
      && (Owed(Exec(maxRetries, s, run)) <==> exists i :: 0 <= i < n && s.reaper.todo[i].retries < maxRetries)
    decreases n
  {
    var run := seq(n, i => ReaperDecide(now));
    if n == 0 {
      assert run == [];
    } else {
      var front := seq(n - 1, i => ReaperDecide(now));
      PassIsReapList(maxRetries, s, now, n - 1);
      PassOwes(maxRetries, s, now, n - 1);
      assert run == front + [ReaperDecide(now)];
      Append(maxRetries, s, front, ReaperDecide(now));
      DecisionOwes(maxRetries, Exec(maxRetries, s, front), now);
    }
  }

  /** An undisturbed pass of the reaper notifies, at its end, if and only if some row
      of its scan had budget left. */
  lemma PassNotifiesExactly(maxRetries: int, s: Sys, ids: seq<JobId>, cutoff: int, now: int)
    requires Possible(s, ReaperScan(ids, cutoff))
    ensures
      var s1 := Apply(maxRetries, s, ReaperScan(ids, cutoff));
      var run := seq(|ids|, i => ReaperDecide(now));
      && Legal(maxRetries, s1, run)
      && (Notifies(Exec(maxRetries, s1, run), ReaperEnd)
          <==> exists i :: 0 <= i < |ids| && s.t.jobs[ids[i]].retries < maxRetries)
  {
    var s1 := Apply(maxRetries, s, ReaperScan(ids, cutoff));
    ScanRemembers(maxRetries, s, ids, cutoff);
    PassOwes(maxRetries, s1, now, |ids|);
    assert forall i :: 0 <= i < |ids| ==> s1.reaper.todo[i].retries == s.t.jobs[ids[i]].retries;
  }

  // ---- the clears --------------------------------------------------------------------

  /** Notifications made on the loop, and clears run, in a run. */
  ghost function OnLoop(eager: bool, maxRetries: int, s: Server, es: seq<Event>): nat
    requires Runs(eager, maxRetries, s, es)
    decreases es
  {
    if es == [] then 0
    else
      (if es[0].Act? && es[0].onLoop && Notifies(s.sys, es[0].a) then 1 else 0)
      + OnLoop(eager, maxRetries, Next(eager, maxRetries, s, es[0]), es[1..])
  }

  function Clears(es: seq<Event>): nat {
    if es == [] then 0 else (if es[0].Clear? then 1 else 0) + Clears(es[1..])
  }

  /** Each notification made on the loop is followed by one clear and no more; one
      made off the loop, in the reaper's thread, by none. */
  lemma {:induction false} ClearsBalance(eager: bool, maxRetries: int, s: Server, es: seq<Event>)
    requires Runs(eager, maxRetries, s, es)
    ensures After(eager, maxRetries, s, es).clears + Clears(es) == s.clears + OnLoop(eager, maxRetries, s, es)
    decreases es
  {
    if es == [] {
    } else {
      ClearsBalance(eager, maxRetries, Next(eager, maxRetries, s, es[0]), es[1..]);
    }
  }

  /** With the loop free, the clears that are due can all run, and leave the event
      clear. */
  lemma {:induction false} ClearsRun(eager: bool, maxRetries: int, s: Server)
    requires LoopFree(s)
    ensures
      var run := seq(s.clears, i => Clear);
      && Runs(eager, maxRetries, s, run)
      && After(eager, maxRetries, s, run) == s.(clears := 0, isSet := s.isSet && s.clears == 0)
    decreases s.clears
  {
    var run := seq(s.clears, i => Clear);
    if s.clears > 0 {
      var s' := Next(eager, maxRetries, s, Clear);
      ClearsRun(eager, maxRetries, s');
      assert run[1..] == seq(s'.clears, i => Clear);
    }
  }

  /** With the loop free, a handler that waits can give up. */
  lemma WaitersCanLeave(eager: bool, maxRetries: int, s: Server, p: PollId)
    requires LoopFree(s) && p in s.polls && (s.polls[p].Starting? || s.polls[p].Waiting?)
    ensures CanStep(s, Timeout(p)) && Next(eager, maxRetries, s, Timeout(p)).polls == s.polls - {p}
  {
  }
}
